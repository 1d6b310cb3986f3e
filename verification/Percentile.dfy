/**
 * The percentile histogram: `rlink/src/functions/percentile/mod.rs`.
 *
 * The scale and the values are reals. The scan position is computed by the source in floating
 * point from the water line and the total; here the truncated product is an input.
 */
module Percentile {
  import opened Prelude
  import opened Elements
  import opened BigEndian

  ghost predicate IsScale(scale: seq<real>) {
    |scale| > 0 && forall i, j | 0 <= i < j < |scale| :: scale[i] < scale[j]
  }

  /** The least bucket whose boundary is at least the value; the last one for larger values. */
  ghost predicate IsBucket(scale: seq<real>, v: real, i: nat) {
    && i < |scale|
    && (forall k | 0 <= k < i :: scale[k] < v)
    && (v <= scale[i] || i == |scale| - 1)
  }

  ghost function Bucket(scale: seq<real>, v: real): (i: nat)
    requires IsScale(scale)
    ensures IsBucket(scale, v, i)
  {
    BucketExists(scale, v, 0);
    var i: nat :| IsBucket(scale, v, i);
    i
  }

  lemma BucketExists(scale: seq<real>, v: real, from: nat)
    requires IsScale(scale) && from < |scale| && forall k | 0 <= k < from :: scale[k] < v
    ensures exists i: nat :: IsBucket(scale, v, i)
    decreases |scale| - from
  {
    if v <= scale[from] || from == |scale| - 1 {
      assert IsBucket(scale, v, from);
    } else {
      BucketExists(scale, v, from + 1);
    }
  }

  lemma BucketUnique(scale: seq<real>, v: real, i: nat)
    requires IsScale(scale) && IsBucket(scale, v, i)
    ensures i == Bucket(scale, v)
  {
  }

  lemma BucketMonotone(scale: seq<real>, v: real, w: real)
    requires IsScale(scale) && v <= w
    ensures Bucket(scale, v) <= Bucket(scale, w)
  {
    var b, c := Bucket(scale, v), Bucket(scale, w);
    assert IsBucket(scale, v, b) && IsBucket(scale, w, c);
  }

  // ----- counting

  ghost function CountIn(scale: seq<real>, values: seq<real>, i: nat): nat
    requires IsScale(scale)
  {
    if values == [] then 0
    else CountIn(scale, values[..|values| - 1], i) + (if Bucket(scale, values[|values| - 1]) == i then 1 else 0)
  }

  ghost function AtLeast(scale: seq<real>, values: seq<real>, i: nat): nat
    requires IsScale(scale)
  {
    if values == [] then 0
    else AtLeast(scale, values[..|values| - 1], i) + (if Bucket(scale, values[|values| - 1]) >= i then 1 else 0)
  }

  lemma {:induction false} AtLeastSplits(scale: seq<real>, values: seq<real>, i: nat)
    requires IsScale(scale)
    ensures AtLeast(scale, values, i) == AtLeast(scale, values, i + 1) + CountIn(scale, values, i)
    ensures AtLeast(scale, values, 0) == |values|
    ensures AtLeast(scale, values, |scale|) == 0
  {
    if values != [] {
      AtLeastSplits(scale, values[..|values| - 1], i);
    }
  }

  lemma CountSnoc(scale: seq<real>, values: seq<real>, v: real, i: nat)
    requires IsScale(scale)
    ensures CountIn(scale, values + [v], i) == CountIn(scale, values, i) + (if Bucket(scale, v) == i then 1 else 0)
  {
    assert (values + [v])[..|values|] == values;
  }

  /** The sum of the counts of the buckets from `i` on. */
  ghost function SumFrom(scale: seq<real>, values: seq<real>, i: nat): nat
    requires IsScale(scale) && i <= |scale|
    decreases |scale| - i
  {
    if i == |scale| then 0 else CountIn(scale, values, i) + SumFrom(scale, values, i + 1)
  }

  /** The bucket counters sum to the number of values. */
  lemma {:induction false} CountersSum(scale: seq<real>, values: seq<real>, i: nat)
    requires IsScale(scale) && i <= |scale|
    ensures SumFrom(scale, values, i) == AtLeast(scale, values, i)
    ensures i == 0 ==> SumFrom(scale, values, i) == |values|
    decreases |scale| - i
  {
    AtLeastSplits(scale, values, i);
    if i < |scale| {
      CountersSum(scale, values, i + 1);
    }
  }

  // ----- the p-th largest value

  function InsertDescending(v: real, d: seq<real>): seq<real> {
    if d == [] then [v]
    else if v >= d[|d| - 1] then InsertDescending(v, d[..|d| - 1]) + [d[|d| - 1]]
    else d + [v]
  }

  function SortDescending(values: seq<real>): seq<real> {
    if values == [] then [] else InsertDescending(values[|values| - 1], SortDescending(values[..|values| - 1]))
  }

  lemma {:induction false} InsertIsPermutation(v: real, d: seq<real>)
    ensures multiset(InsertDescending(v, d)) == multiset(d) + multiset{v}
  {
    if d != [] && v >= d[|d| - 1] {
      InsertIsPermutation(v, d[..|d| - 1]);
      assert d == d[..|d| - 1] + [d[|d| - 1]];
    }
  }

  /** The reference for the order statistic: the same values, the largest first. */
  lemma {:induction false} SortIsPermutation(values: seq<real>)
    ensures multiset(SortDescending(values)) == multiset(values) && Descending(SortDescending(values))
  {
    if values != [] {
      var front, last := values[..|values| - 1], values[|values| - 1];
      assert values == front + [last];
      SortIsPermutation(front);
      InsertIsPermutation(last, SortDescending(front));
      InsertDescends(last, SortDescending(front));
    }
  }

  ghost predicate Descending(d: seq<real>) {
    forall i, j | 0 <= i < j < |d| :: d[i] >= d[j]
  }

  lemma {:induction false} InsertMembers(v: real, d: seq<real>)
    ensures |InsertDescending(v, d)| == |d| + 1
    ensures forall x | x in InsertDescending(v, d) :: x == v || x in d
  {
    if d != [] && v >= d[|d| - 1] {
      InsertMembers(v, d[..|d| - 1]);
    }
  }

  lemma {:induction false} InsertDescends(v: real, d: seq<real>)
    requires Descending(d)
    ensures Descending(InsertDescending(v, d))
  {
    if d != [] && v >= d[|d| - 1] {
      var front, last := d[..|d| - 1], d[|d| - 1];
      var r := InsertDescending(v, front);
      InsertDescends(v, front);
      InsertMembers(v, front);
      forall k | 0 <= k < |r| ensures r[k] >= last {
        assert r[k] in r;
      }
    }
  }

  lemma AtLeastSnoc(scale: seq<real>, d: seq<real>, v: real, i: nat)
    requires IsScale(scale)
    ensures AtLeast(scale, d + [v], i) == AtLeast(scale, d, i) + (if Bucket(scale, v) >= i then 1 else 0)
  {
    assert (d + [v])[..|d|] == d;
  }

  lemma {:induction false} InsertCounts(scale: seq<real>, v: real, d: seq<real>, i: nat)
    requires IsScale(scale)
    ensures AtLeast(scale, InsertDescending(v, d), i) == AtLeast(scale, d, i) + (if Bucket(scale, v) >= i then 1 else 0)
  {
    if d != [] && v >= d[|d| - 1] {
      var front, last := d[..|d| - 1], d[|d| - 1];
      InsertCounts(scale, v, front, i);
      assert d == front + [last];
      AtLeastSnoc(scale, InsertDescending(v, front), last, i);
      AtLeastSnoc(scale, front, last, i);
    } else {
      AtLeastSnoc(scale, d, v, i);
      assert d == [] ==> d + [v] == [v];
    }
  }

  lemma {:induction false} SortKeeps(scale: seq<real>, values: seq<real>, i: nat)
    requires IsScale(scale)
    ensures Descending(SortDescending(values)) && |SortDescending(values)| == |values|
    ensures AtLeast(scale, SortDescending(values), i) == AtLeast(scale, values, i)
  {
    if values != [] {
      var front := values[..|values| - 1];
      SortKeeps(scale, front, i);
      InsertMembers(values[|values| - 1], SortDescending(front));
      InsertDescends(values[|values| - 1], SortDescending(front));
      InsertCounts(scale, values[|values| - 1], SortDescending(front), i);
    }
  }

  /** In a descending list the values of a bucket or above come first. */
  lemma {:induction false} AtLeastIsPrefix(scale: seq<real>, d: seq<real>, i: nat, p: nat)
    requires IsScale(scale) && Descending(d) && p < |d|
    ensures Bucket(scale, d[p]) >= i <==> p < AtLeast(scale, d, i)
    ensures AtLeast(scale, d, i) <= |d|
  {
    var front, last := d[..|d| - 1], d[|d| - 1];
    if p < |front| {
      AtLeastIsPrefix(scale, front, i, p);
      BucketMonotone(scale, last, d[p]);
      assert front[p] == d[p];
    } else {
      AtLeastOfAll(scale, front, i, last);
    }
  }

  lemma {:induction false} AtLeastOfAll(scale: seq<real>, d: seq<real>, i: nat, low: real)
    requires IsScale(scale) && forall k | 0 <= k < |d| :: d[k] >= low
    ensures AtLeast(scale, d, i) <= |d|
    ensures Bucket(scale, low) >= i ==> AtLeast(scale, d, i) == |d|
  {
    if d != [] {
      AtLeastOfAll(scale, d[..|d| - 1], i, low);
      BucketMonotone(scale, low, d[|d| - 1]);
    }
  }

  /** A bucket where the scan passes position `p` is the bucket of the p-th largest value. */
  lemma ScanStopsAtOrderStatistic(scale: seq<real>, values: seq<real>, p: nat, i: nat)
    requires IsScale(scale) && 1 <= p <= |values|
    requires AtLeast(scale, values, i) >= p > AtLeast(scale, values, i + 1)
    ensures |SortDescending(values)| == |values| && i == Bucket(scale, SortDescending(values)[p - 1])
  {
    var d := SortDescending(values);
    SortKeeps(scale, values, i);
    SortKeeps(scale, values, i + 1);
    AtLeastIsPrefix(scale, d, i, p - 1);
    AtLeastIsPrefix(scale, d, i + 1, p - 1);
  }

  // ----- the writer and the reader

  /** `adjust`: into [1, max]. */
  function Adjust(input: nat, max: nat): (r: nat)
    ensures max >= 1 ==> 1 <= r <= max
    ensures 1 <= input <= max ==> r == input
  {
    if input <= 1 then 1 else if input >= max then max else input
  }

  function CounterAt(container: Bytes, i: nat): nat
    requires (i + 1) * 8 <= |container|
  {
    Decode(container[i * 8..i * 8 + 8])
  }

  function Put(container: Bytes, i: nat, v: nat): Bytes
    requires (i + 1) * 8 <= |container|
  {
    container[..i * 8] + Encode(v, 8) + container[i * 8 + 8..]
  }

  lemma PutSetsOneCounter(container: Bytes, i: nat, v: nat, k: nat)
    requires (i + 1) * 8 <= |container| && (k + 1) * 8 <= |container| && v < U64
    ensures |Put(container, i, v)| == |container|
    ensures CounterAt(Put(container, i, v), k) == if k == i then v else CounterAt(container, k)
  {
    var c := Put(container, i, v);
    if k == i {
      assert c[i * 8..i * 8 + 8] == Encode(v, 8);
      Widths();
      DecodeEncode(v, 8);
    } else if k < i {
      assert c[k * 8..k * 8 + 8] == container[k * 8..k * 8 + 8];
    } else {
      assert c[k * 8..k * 8 + 8] == container[k * 8..k * 8 + 8];
    }
  }

  class PercentileWriter {
    const scale: seq<real>
    const container: array<byte>
    /** The values accumulated so far. */
    ghost var values: seq<real>

    ghost predicate Valid()
      reads this, container
    {
      && IsScale(scale) && container.Length == (|scale| + 1) * 8
      && Holds(scale, container[..], values)
    }

    constructor (scale: seq<real>, container: array<byte>)
      requires IsScale(scale) && container.Length == (|scale| + 1) * 8
      requires forall i | 0 <= i < container.Length :: container[i] == 0
      ensures Valid() && values == [] && this.scale == scale && this.container == container
    {
      this.scale, this.container, values := scale, container, [];
      new;
      forall i: nat | i <= |scale| ensures CounterAt(container[..], i) == 0 {
        ZerosDecode(container[..][i * 8..i * 8 + 8]);
      }
    }

    method Read(index: nat) returns (v: nat)
      requires index + 8 <= container.Length
      ensures v == Decode(container[index..index + 8])
    {
      v := Decode([container[index], container[index + 1], container[index + 2], container[index + 3],
                   container[index + 4], container[index + 5], container[index + 6], container[index + 7]]);
      assert container[index..index + 8] ==
        [container[index], container[index + 1], container[index + 2], container[index + 3],
         container[index + 4], container[index + 5], container[index + 6], container[index + 7]];
    }

    method Write(index: nat, v: nat)
      requires index + 8 <= container.Length
      modifies container
      ensures container[..] == old(container[..index]) + Encode(v, 8) + old(container[index + 8..])
    {
      var c := Encode(v, 8);
      var k := 0;
      while k < 8
        invariant 0 <= k <= 8
        invariant forall m | 0 <= m < container.Length ::
                    container[m] == if index <= m < index + k then c[m - index] else old(container[m])
      {
        container[index + k] := c[k];
        k := k + 1;
      }
    }

    method Search(target: real) returns (r: Option<nat>)
      requires IsScale(scale) && scale[0] < target < scale[|scale| - 1]
      ensures r == Some(Bucket(scale, target))
    {
      r := None;
      ghost var b := Bucket(scale, target);
      var i, j := 0, |scale|;
      while i < j
        invariant 0 <= i <= b < j <= |scale|
      {
        var mid := (i + j) / 2;
        var midValue := scale[mid];
        if midValue == target {
          BucketUnique(scale, target, mid);
          return Some(mid);
        } else if target > midValue {
          if target < scale[mid + 1] {
            BucketUnique(scale, target, mid + 1);
            return Some(mid + 1);
          }
          i := mid + 1;
        } else {
          if mid == 0 || target > scale[mid - 1] {
            BucketUnique(scale, target, mid);
            return Some(mid);
          }
          j := mid;
        }
      }
      assert false;
    }

    /** Stays in bounds and finds the bucket of every value. */
    method PositionInValueArray(v: real) returns (r: Option<nat>)
      requires IsScale(scale)
      ensures r == Some(Bucket(scale, v))
    {
      var length := |scale|;
      if v >= scale[length - 1] {
        BucketUnique(scale, v, length - 1);
        return Some(length - 1);
      } else if v <= scale[0] {
        BucketUnique(scale, v, 0);
        return Some(0);
      }
      r := Search(v);
    }

    /** Adds one to the counter at a bucket index, or to the total, which comes after the buckets. */
    method Increment(i: nat)
      requires (i + 1) * 8 <= container.Length && CounterAt(container[..], i) + 1 < U64
      modifies container
      ensures forall k: nat | (k + 1) * 8 <= container.Length ::
        CounterAt(container[..], k) == CounterAt(old(container[..]), k) + (if k == i then 1 else 0)
    {
      ghost var before := container[..];
      var n := Read(i * 8);
      assert container[i * 8..i * 8 + 8] == before[i * 8..i * 8 + 8];
      Write(i * 8, n + 1);
      assert old(container[..i * 8]) == before[..i * 8] && old(container[i * 8 + 8..]) == before[i * 8 + 8..];
      forall k: nat | (k + 1) * 8 <= container.Length
        ensures CounterAt(container[..], k) == CounterAt(before, k) + (if k == i then 1 else 0)
      {
        PutSetsOneCounter(before, i, n + 1, k);
      }
    }

    /** Counts the value in its bucket and in the total; no other counter changes. */
    method Accumulate(v: real)
      requires Valid() && |values| < U64 - 1
      modifies this, container
      ensures Valid() && values == old(values) + [v]
    {
      Increment(|scale|);
      var index := PositionInValueArray(v);
      match index
      case Some(i) =>
        CountBound(scale, values, i);
        Increment(i);
      forall k: nat | k < |scale| ensures CounterAt(container[..], k) == CountIn(scale, values + [v], k) {
        CountSnoc(scale, values, v, k);
      }
      values := values + [v];
    }
  }

  /** The counters are the counts of the values, and the last one is their number. */
  ghost predicate Holds(scale: seq<real>, container: Bytes, values: seq<real>)
    requires IsScale(scale) && |container| == (|scale| + 1) * 8
  {
    && (forall i: nat | i < |scale| :: CounterAt(container, i) == CountIn(scale, values, i))
    && CounterAt(container, |scale|) == |values|
  }

  lemma {:induction false} CountBound(scale: seq<real>, values: seq<real>, i: nat)
    requires IsScale(scale)
    ensures CountIn(scale, values, i) <= |values|
  {
    if values != [] {
      CountBound(scale, values[..|values| - 1], i);
    }
  }

  lemma {:induction false} ZerosDecode(bs: Bytes)
    requires forall k | 0 <= k < |bs| :: bs[k] == 0
    ensures Decode(bs) == 0
  {
    if bs != [] {
      ZerosDecode(bs[..|bs| - 1]);
    }
  }

  /** `get_result` of the reader. `product` is the truncated share of the total above the water line;
      no value is written as None, for which the source returns the largest float. */
  method GetResult(scale: seq<real>, container: Bytes, ghost values: seq<real>, waterLine: nat, product: nat)
      returns (r: Outcome<Option<real>>)
    requires IsScale(scale) && |container| == (|scale| + 1) * 8 && Holds(scale, container, values)
    ensures r.Panic? <==> waterLine > 100
    ensures r.Done? && values == [] ==> r.value == None
    ensures |SortDescending(values)| == |values|
    ensures r.Done? && values != [] && product == 0 ==> r.value == Some(scale[Bucket(scale, SortDescending(values)[0])])
    ensures r.Done? && 1 <= product <= |values| ==> r.value == Some(scale[Bucket(scale, SortDescending(values)[product - 1])])
    ensures r.Done? && values != [] && product > |values| ==>
      r.value == Some(scale[Bucket(scale, SortDescending(values)[|values| - 1])])
  {
    SortIsPermutation(values);
    if waterLine > 100 {
      return Panic;
    }
    var counter := CounterAt(container, |scale|);
    var p := Adjust(product, counter);
    var scanned, index := 0, |scale|;
    AtLeastSplits(scale, values, |scale|);
    while index > 0
      invariant 0 <= index <= |scale|
      invariant scanned == AtLeast(scale, values, index) && (values != [] ==> scanned < p)
      invariant values == [] ==> scanned == 0
    {
      index := index - 1;
      var scaleCounter := CounterAt(container, index);
      AtLeastSplits(scale, values, index);
      if scaleCounter == 0 {
        continue;
      }
      scanned := scanned + scaleCounter;
      if scanned >= p {
        AtLeastSplits(scale, values, 0);
        AtLeastMonotone(scale, values, index);
        ScanStopsAtOrderStatistic(scale, values, p, index);
        return Done(Some(scale[index]));
      }
    }
    AtLeastSplits(scale, values, 0);
    return Done(None);
  }

  lemma {:induction false} AtLeastMonotone(scale: seq<real>, values: seq<real>, i: nat)
    requires IsScale(scale)
    ensures AtLeast(scale, values, i) <= |values|
  {
    if values != [] {
      AtLeastMonotone(scale, values[..|values| - 1], i);
    }
  }
}

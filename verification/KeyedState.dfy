/** Keyed window state in memory: the files of `rlink/src/storage/keyed_state`. */
module KeyedState {
  import opened Prelude
  import opened Elements
  import opened Windows

  /** The key-value pairs of one window. */
  type Kv = map<Bytes, Bytes>

  type ReduceFunction = (Option<Bytes>, Record) -> Bytes

  function Lookup(kv: Kv, key: Bytes): Option<Bytes> {
    if key in kv then Some(kv[key]) else None
  }

  function LookupIn(windows: map<Window, Kv>, x: Window, key: Bytes): Option<Bytes> {
    if x in windows then Lookup(windows[x], key) else None
  }

  /** One record merged into one window. */
  function MergeOne(windows: map<Window, Kv>, x: Window, key: Bytes, r: Record, f: ReduceFunction): map<Window, Kv> {
    var kv := if x in windows then windows[x] else map[];
    windows[x := kv[key := f(Lookup(kv, key), r)]]
  }

  function MergeAll(windows: map<Window, Kv>, xs: seq<Window>, key: Bytes, r: Record, f: ReduceFunction): map<Window, Kv> {
    if xs == [] then windows
    else MergeOne(MergeAll(windows, xs[..|xs| - 1], key, r, f), xs[|xs| - 1], key, r, f)
  }

  /** Each listed window folds the record in exactly once; every other entry keeps its value. */
  lemma {:induction false} MergeAllPointwise(windows: map<Window, Kv>, xs: seq<Window>, key: Bytes, r: Record, f: ReduceFunction)
    requires NoDuplicates(xs)
    ensures MergeAll(windows, xs, key, r, f).Keys == windows.Keys + set x | x in xs
    ensures forall x, k ::
      LookupIn(MergeAll(windows, xs, key, r, f), x, k) ==
      if x in xs && k == key then Some(f(LookupIn(windows, x, k), r)) else LookupIn(windows, x, k)
  {
    if xs != [] {
      var front, last := xs[..|xs| - 1], xs[|xs| - 1];
      MergeAllPointwise(windows, front, key, r, f);
      assert xs == front + [last];
      assert last !in front;
    }
  }

  class MemoryWindowState {
    var windows: map<Window, Kv>

    constructor ()
      ensures windows == map[]
    {
      windows := map[];
    }

    method MergeValue(x: Window, key: Bytes, r: Record, f: ReduceFunction)
      modifies this
      ensures windows == MergeOne(old(windows), x, key, r, f)
    {
      if x in windows {
        var state := windows[x];
        if key in state {
          windows := windows[x := state[key := f(Some(state[key]), r)]];
        } else {
          windows := windows[x := state[key := f(None, r)]];
        }
      } else {
        windows := windows[x := map[key := f(None, r)]];
      }
    }

    method Merge(xs: seq<Window>, key: Bytes, r: Record, f: ReduceFunction) returns (count: nat)
      modifies this
      ensures windows == MergeAll(old(windows), xs, key, r, f)
      ensures count == |windows|
    {
      if |xs| == 1 {
        MergeValue(xs[0], key, r, f);
        assert xs[..0] == [];
      } else {
        var i := 0;
        while i < |xs|
          invariant 0 <= i <= |xs|
          invariant windows == MergeAll(old(windows), xs[..i], key, r, f)
        {
          MergeValue(xs[i], key, r, f);
          assert xs[..i + 1][..i] == xs[..i];
          i := i + 1;
        }
        assert xs[..i] == xs;
      }
      count := |windows|;
    }

    /** Moves a window's state, if it is there, to the storage shared with the flat-map task. */
    method DropWindow(x: Window, storage: DropWindowStorage, owner: StorageKey) returns (count: nat)
      modifies this, storage
      ensures windows == old(windows) - {x}
      ensures storage.parked ==
        if x in old(windows) then Park(old(storage.parked), owner, x, old(windows)[x]) else old(storage.parked)
      ensures count == |windows|
    {
      if x in windows {
        var state := windows[x];
        windows := windows - {x};
        storage.AppendDropWindow(owner, x, state);
      }
      assert windows == old(windows) - {x};
      count := |windows|;
    }
  }

  datatype StorageKey = StorageKey(jobId: nat, taskNumber: nat)

  type Parked = map<StorageKey, map<Window, Kv>>

  function ParkedBy(p: Parked, owner: StorageKey): map<Window, Kv> {
    if owner in p then p[owner] else map[]
  }

  function Park(p: Parked, owner: StorageKey, x: Window, kv: Kv): Parked {
    p[owner := ParkedBy(p, owner)[x := kv]]
  }

  /** The global map of dropped windows: written by a reduce task, emptied by its flat-map child. */
  class DropWindowStorage {
    var parked: Parked

    constructor ()
      ensures parked == map[]
    {
      parked := map[];
    }

    method AppendDropWindow(owner: StorageKey, x: Window, kv: Kv)
      modifies this
      ensures parked == Park(old(parked), owner, x, kv)
    {
      if owner !in parked {
        parked := parked[owner := map[]];
      }
      parked := parked[owner := parked[owner][x := kv]];
    }

    /** A second call for the same window finds nothing, and no other window is touched. */
    method RemoveDropWindow(owner: StorageKey, x: Window) returns (r: Option<Kv>)
      modifies this
      ensures r == if x in ParkedBy(old(parked), owner) then Some(ParkedBy(old(parked), owner)[x]) else None
      ensures ParkedBy(parked, owner) == ParkedBy(old(parked), owner) - {x}
      ensures forall other | other != owner :: ParkedBy(parked, other) == ParkedBy(old(parked), other)
    {
      if owner in parked {
        if x in parked[owner] {
          r := Some(parked[owner][x]);
        } else {
          r := None;
        }
        parked := parked[owner := parked[owner] - {x}];
      } else {
        r := None;
      }
    }
  }

  // ----- iteration over a window's state, in key order

  /** The order of `Record`: bytes compared from the left, a prefix first. */
  predicate BytesLess(a: Bytes, b: Bytes) {
    if b == [] then false
    else if a == [] then true
    else a[0] < b[0] || (a[0] == b[0] && BytesLess(a[1..], b[1..]))
  }

  lemma {:induction false} BytesLessTotal(a: Bytes, b: Bytes)
    ensures a == b || BytesLess(a, b) || BytesLess(b, a)
    ensures !(BytesLess(a, b) && BytesLess(b, a))
    ensures !BytesLess(a, a)
  {
    if a != [] && b != [] {
      BytesLessTotal(a[1..], b[1..]);
      if a[0] == b[0] && a[1..] == b[1..] {
        assert a == [a[0]] + a[1..] && b == [b[0]] + b[1..];
      }
    }
    if a != [] { BytesLessTotal(a[1..], a[1..]); }
  }

  lemma {:induction false} BytesLessTransitive(a: Bytes, b: Bytes, c: Bytes)
    requires BytesLess(a, b) && BytesLess(b, c)
    ensures BytesLess(a, c)
  {
    if a != [] && a[0] == b[0] && b[0] == c[0] {
      BytesLessTransitive(a[1..], b[1..], c[1..]);
    }
  }

  predicate IsLeastKey(k: Bytes, keys: set<Bytes>) {
    k in keys && forall other | other in keys :: other == k || BytesLess(k, other)
  }

  lemma {:induction false} LeastKeyExists(keys: set<Bytes>)
    requires keys != {}
    ensures exists k :: IsLeastKey(k, keys)
  {
    var x :| x in keys;
    var rest := keys - {x};
    if rest == {} {
      assert keys == {x};
      assert IsLeastKey(x, keys);
    } else {
      LeastKeyExists(rest);
      var k :| IsLeastKey(k, rest);
      BytesLessTotal(x, k);
      var least := if BytesLess(x, k) then x else k;
      forall other | other in keys ensures other == least || BytesLess(least, other) {
        if other != x && other != k && least == x {
          BytesLessTransitive(x, k, other);
        }
      }
      assert IsLeastKey(least, keys);
    }
  }

  ghost predicate InKeyOrder(keys: seq<Bytes>) {
    forall i, j | 0 <= i < j < |keys| :: BytesLess(keys[i], keys[j])
  }

  datatype Result = Result(window: Window, key: Bytes, value: Bytes)

  /** `StateIterator`: every pair once, in key order, each marked with the window. */
  method Iterate(x: Window, kv: Kv) returns (out: seq<Result>)
    ensures InKeyOrder(seq(|out|, i requires 0 <= i < |out| => out[i].key))
    ensures forall r :: r in out <==> r.window == x && r.key in kv && r.value == kv[r.key]
  {
    out := [];
    var rest := kv.Keys;
    while rest != {}
      invariant rest <= kv.Keys
      invariant forall i, j | 0 <= i < j < |out| :: BytesLess(out[i].key, out[j].key)
      invariant forall r :: r in out <==> r.window == x && r.key in kv.Keys - rest && r.value == kv[r.key]
      invariant forall i, k | 0 <= i < |out| && k in rest :: BytesLess(out[i].key, k)
      decreases rest
    {
      LeastKeyExists(rest);
      var k :| k in rest && IsLeastKey(k, rest);
      out := out + [Result(x, k, kv[k])];
      rest := rest - {k};
    }
  }
}

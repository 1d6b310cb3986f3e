/** Unsigned integers as big-endian bytes: `to_be_bytes`, `from_be_bytes` and the `put_uN` / `get_uN` calls. */
module BigEndian {
  import opened Elements

  function Pow256(n: nat): (p: nat)
    ensures p > 0
  {
    if n == 0 then 1 else 256 * Pow256(n - 1)
  }

  /** The lowest `n` bytes, most significant first. */
  function Encode(v: nat, n: nat): (bs: Bytes)
    ensures |bs| == n
  {
    if n == 0 then [] else Encode(v / 256, n - 1) + [v % 256]
  }

  function Decode(bs: Bytes): nat {
    if bs == [] then 0 else Decode(bs[..|bs| - 1]) * 256 + bs[|bs| - 1]
  }

  lemma {:induction false} DecodeEncode(v: nat, n: nat)
    requires v < Pow256(n)
    ensures Decode(Encode(v, n)) == v
  {
    if n > 0 {
      var front := Encode(v / 256, n - 1);
      DecodeEncode(v / 256, n - 1);
      assert (front + [v % 256])[..n - 1] == front;
    }
  }

  lemma DivideTwice(v: nat, p: nat)
    requires p > 0
    ensures v / 256 / p == v / (256 * p)
  {
    var q := v / 256 / p;
    var r, low := v / 256 % p, v % 256;
    assert v == 256 * (p * q + r) + low;
    assert v == (256 * p) * q + (256 * r + low);
    assert 0 <= 256 * r + low < 256 * p;
    QuotientIsUnique(v, 256 * p, q, 256 * r + low);
  }

  lemma QuotientIsUnique(v: int, m: int, q: int, r: int)
    requires m > 0 && v == m * q + r && 0 <= r < m
    ensures v / m == q
  {
    var d := q - v / m;
    assert m * d == v % m - r;
    assert d >= 1 ==> m * d >= m;
    assert d <= -1 ==> m * d <= -m;
  }

  /** The byte at `i` is the digit of that weight, the most significant one first. */
  lemma {:induction false} MostSignificantFirst(v: nat, n: nat, i: nat)
    requires i < n
    ensures Encode(v, n)[i] == v / Pow256(n - 1 - i) % 256
  {
    if i < n - 1 {
      MostSignificantFirst(v / 256, n - 1, i);
      DivideTwice(v, Pow256(n - 2 - i));
    }
  }

  lemma Widths()
    ensures Pow256(1) == 0x100 && Pow256(2) == 0x1_0000 && Pow256(4) == 0x1_0000_0000
    ensures Pow256(8) == 0x1_0000_0000_0000_0000
  {
    assert Pow256(3) == 0x100_0000;
    assert Pow256(4) == 0x1_0000_0000;
    assert Pow256(5) == 0x100_0000_0000;
    assert Pow256(6) == 0x1_0000_0000_0000;
    assert Pow256(7) == 0x100_0000_0000_0000;
  }
}

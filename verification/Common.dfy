/** Bytes, little-endian numbers and block arithmetic. */
module Common {

  type Byte = x: int | 0 <= x < 256

  datatype Option<T> = None | Some(value: T)

  const U64: nat := 0x1_0000_0000_0000_0000

  // -------------------------------------------------------- little-endian

  function Le(b: seq<Byte>): (v: nat) {
    if b == [] then 0 else b[0] + 256 * Le(b[1..])
  }

  lemma {:induction false} LeBound(b: seq<Byte>, n: nat)
    requires |b| == n
    ensures Le(b) < Pow256(n)
  {
    if n > 0 { LeBound(b[1..], n - 1); }
  }

  function Pow256(n: nat): nat {
    if n == 0 then 1 else 256 * Pow256(n - 1)
  }

  /** Eight bytes make a 64-bit value. */
  lemma {:induction false} Le64(b: seq<Byte>)
    requires |b| == 8
    ensures Le(b) < U64
  {
    LeBound(b, 8);
    Pow256Values();
  }

  /** The `n` low bytes of `v`, lowest first. */
  function Put(v: nat, n: nat): (b: seq<Byte>)
    ensures |b| == n
  {
    if n == 0 then [] else [v % 256] + Put(v / 256, n - 1)
  }

  lemma {:induction false} LePut(v: nat, n: nat)
    requires v < Pow256(n)
    ensures Le(Put(v, n)) == v
  {
    if n > 0 {
      LePut(v / 256, n - 1);
      assert Put(v, n)[1..] == Put(v / 256, n - 1);
    }
  }

  lemma {:induction false} PutLe(b: seq<Byte>)
    ensures Put(Le(b), |b|) == b
  {
    if b != [] {
      PutLe(b[1..]);
      assert Le(b) % 256 == b[0] && Le(b) / 256 == Le(b[1..]);
    }
  }

  lemma Pow256Values()
    ensures Pow256(2) == 0x1_0000 && Pow256(4) == 0x1_0000_0000 && Pow256(8) == U64
  {
  }

  // ------------------------------------------------------ block arithmetic

  lemma BlockOf(k: nat, size: nat, b: nat)
    requires size > 0
    ensures k / size == b <==> b * size <= k < b * size + size
  {
    var q, r := k / size, k % size;
    assert k == q * size + r;
    if q < b { assert (q + 1) * size <= b * size by { Scale(q + 1, b, size); } }
    if q > b { assert (b + 1) * size <= q * size by { Scale(b + 1, q, size); } }
  }

  /** The block that position `k` lies in. */
  function BlockAt(k: nat, size: nat): (b: nat)
    requires size > 0
    ensures b == k / size && b * size <= k < b * size + size
  {
    BlockOf(k, size, k / size);
    k / size
  }

  lemma Scale(a: nat, b: nat, size: nat)
    requires a <= b
    ensures a * size <= b * size
  {
  }

  lemma BlocksIn(k: nat, size: nat, lo: nat, hi: nat)
    requires size > 0
    ensures lo <= k / size < hi <==> lo * size <= k < hi * size
  {
    var b := k / size;
    BlockOf(k, size, b);
    if lo <= b { Scale(lo, b, size); } else { Scale(b + 1, lo, size); }
    if b < hi { Scale(b + 1, hi, size); } else { Scale(hi, b, size); }
  }

  lemma Blocks(a: nat, b: nat, size: nat)
    ensures (a + b) * size == a * size + b * size
  {
  }

  lemma CoarseBlock(k: nat, size: nat, ratio: nat)
    requires size > 0 && ratio > 0
    ensures size * ratio > 0 && k / size / ratio == k / (size * ratio)
  {
    var q := k / size;
    var c := q / ratio;
    BlockOf(k, size, q);
    BlockOf(q, ratio, c);
    Scale(c * ratio, q, size);
    Scale(q + 1, c * ratio + ratio, size);
    Regroup(c, size, ratio);
    Scale(1, ratio, size);
    BlockOf(k, size * ratio, c);
  }

  lemma Regroup(c: nat, size: nat, ratio: nat)
    ensures c * ratio * size == c * (size * ratio)
    ensures (c * ratio + ratio) * size == c * (size * ratio) + size * ratio
  {
  }
}

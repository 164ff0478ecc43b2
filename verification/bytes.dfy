/** Bytes and little-endian numbers. */
module Bytes {
  import opened Wrappers

  type byte = x: int | 0 <= x < 256

  function Pow256(n: nat): (p: nat)
    ensures p > 0
  {
    if n == 0 then 1 else 256 * Pow256(n - 1)
  }

  /** The low `n` bytes of `v`, least significant first. */
  function LittleEndian(v: nat, n: nat): (bs: seq<byte>)
    ensures |bs| == n
  {
    if n == 0 then [] else [v % 256] + LittleEndian(v / 256, n - 1)
  }

  function FromLittleEndian(bs: seq<byte>): nat {
    if bs == [] then 0 else bs[0] + 256 * FromLittleEndian(bs[1..])
  }

  lemma {:induction false} LittleEndianReads(v: nat, n: nat)
    requires v < Pow256(n)
    ensures FromLittleEndian(LittleEndian(v, n)) == v
  {
    if n > 0 {
      LittleEndianReads(v / 256, n - 1);
      assert LittleEndian(v, n)[1..] == LittleEndian(v / 256, n - 1);
    }
  }

  lemma {:induction false} LittleEndianWrites(bs: seq<byte>)
    ensures LittleEndian(FromLittleEndian(bs), |bs|) == bs && FromLittleEndian(bs) < Pow256(|bs|)
  {
    if bs != [] {
      LittleEndianWrites(bs[1..]);
      var rest := FromLittleEndian(bs[1..]);
      assert (bs[0] + 256 * rest) % 256 == bs[0] && (bs[0] + 256 * rest) / 256 == rest;
      assert [bs[0]] + bs[1..] == bs;
    }
  }

  /** Byte `i` is the i-th digit to the base 256. */
  lemma {:induction false} ByteAt(v: nat, n: nat, i: nat)
    requires i < n
    ensures LittleEndian(v, n)[i] == v / Pow256(i) % 256
  {
    if i > 0 {
      ByteAt(v / 256, n - 1, i - 1);
      DivTwice(v, Pow256(i - 1));
    }
  }

  lemma {:induction false} DivTwice(v: nat, p: nat)
    requires p > 0
    ensures v / 256 / p == v / (256 * p)
  {
    var q := v / 256;
    var r := q / p;
    assert v == 256 * q + v % 256 && q == p * r + q % p;
    var rest := 256 * (q % p) + v % 256;
    assert v == 256 * p * r + rest;
    assert 0 <= rest < 256 * p by { assert q % p <= p - 1; }
    QuotientIs(v, 256 * p, r, rest);
  }

  lemma {:induction false} QuotientIs(v: nat, d: nat, q: nat, r: nat)
    requires d > 0 && v == d * q + r && r < d
    ensures v / d == q
  {
    var e := v / d - q;
    assert e * d == r - v % d;
    MulBound(e, d);
  }

  /** First position at or after `i` where `stop` holds, or the length. */
  function Index(bs: seq<byte>, i: nat, stop: set<byte>): (j: nat)
    requires i <= |bs|
    ensures i <= j <= |bs|
    ensures forall k :: i <= k < j ==> bs[k] !in stop
    ensures j < |bs| ==> bs[j] in stop
    decreases |bs| - i
  {
    if i < |bs| && bs[i] !in stop then Index(bs, i + 1, stop) else i
  }

  lemma {:induction false} IndexIs(bs: seq<byte>, i: nat, stop: set<byte>, j: nat)
    requires i <= j < |bs| && bs[j] in stop && forall k :: i <= k < j ==> bs[k] !in stop
    ensures Index(bs, i, stop) == j
  {
  }
}

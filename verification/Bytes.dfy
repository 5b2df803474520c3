/** Bytes and the big-endian integers that NBD and qcow2 write. */
module Bytes {

  type byte = b: int | 0 <= b < 256
  type bytes = seq<byte>

  function Pow256(n: nat): nat
    ensures Pow256(n) > 0
  {
    if n == 0 then 1 else 256 * Pow256(n - 1)
  }

  /** `v` in `n` bytes, most significant first. */
  function ToBe(v: nat, n: nat): (r: bytes)
    ensures |r| == n
  {
    if n == 0 then [] else ToBe(v / 256, n - 1) + [v % 256]
  }

  function FromBe(s: bytes): nat {
    if s == [] then 0 else FromBe(s[..|s| - 1]) * 256 + s[|s| - 1]
  }

  lemma {:induction false} FromToBe(v: nat, n: nat)
    requires v < Pow256(n)
    ensures FromBe(ToBe(v, n)) == v
  {
    if n > 0 {
      FromToBe(v / 256, n - 1);
      assert ToBe(v, n)[..n - 1] == ToBe(v / 256, n - 1);
    }
  }

  lemma {:induction false} ToFromBe(s: bytes)
    ensures FromBe(s) < Pow256(|s|) && ToBe(FromBe(s), |s|) == s
  {
    if s != [] {
      var init, last := s[..|s| - 1], s[|s| - 1];
      ToFromBe(init);
      assert (FromBe(init) * 256 + last) / 256 == FromBe(init);
      assert (FromBe(init) * 256 + last) % 256 == last;
      assert s == init + [last];
    }
  }

  lemma Widths()
    ensures Pow256(1) == 0x100 && Pow256(2) == 0x1_0000 && Pow256(4) == 0x1_0000_0000
    ensures Pow256(8) == 0x1_0000_0000_0000_0000
  {
    assert Pow256(3) == 256 * Pow256(2) && Pow256(5) == 256 * Pow256(4) && Pow256(7) == 256 * Pow256(6);
  }
}

/** Bitmaps in byte arrays, as the writer keeps them. */
module Qcow2Bitmap {
  import opened Bytes
  import opened Qcow2Math

  /** `b & (1 << k) != 0` */
  predicate Bit(b: nat, k: nat) {
    if k == 0 then b % 2 == 1 else Bit(b / 2, k - 1)
  }

  /** `b | (1 << k)` */
  function OrBit(b: nat, k: nat): nat {
    if k == 0 then (if b % 2 == 1 then b else b + 1) else 2 * OrBit(b / 2, k - 1) + b % 2
  }

  lemma {:induction false} OrBitSets(b: nat, k: nat, j: nat)
    ensures Bit(OrBit(b, k), j) <==> j == k || Bit(b, j)
  {
    if k > 0 && j > 0 {
      OrBitSets(b / 2, k - 1, j - 1);
    }
  }

  lemma {:induction false} OrBitFits(b: nat, k: nat, n: nat)
    requires k < n && b < Pow2(n)
    ensures OrBit(b, k) < Pow2(n)
  {
    var half := Pow2(n - 1);
    if k > 0 {
      assert b / 2 < half;
      OrBitFits(b / 2, k - 1, n - 1);
    } else {
      assert b < 2 * half;
    }
  }

  lemma {:induction false} ZeroHasNoBit(k: nat)
    ensures !Bit(0, k)
  {
    if k > 0 {
      ZeroHasNoBit(k - 1);
    }
  }

  /** A byte array read as bits; `bits` is what it stands for. */
  class Bitmap {
    const bytes: array<byte>
    ghost var bits: seq<bool>

    predicate Holds(idx: nat)
      reads this, bytes
      requires idx / 8 < bytes.Length
    {
      Bit(bytes[idx / 8], idx % 8)
    }

    ghost predicate Valid()
      reads this, bytes
    {
      && |bits| == 8 * bytes.Length
      && forall i: nat {:trigger Holds(i)} :: i < |bits| ==> i / 8 < bytes.Length && bits[i] == Holds(i)
    }

    constructor (length: nat)
      ensures Valid() && fresh(bytes) && |bits| == 8 * length
      ensures forall i :: 0 <= i < |bits| ==> !bits[i]
    {
      bytes := new byte[length](_ => 0);
      bits := seq(8 * length, _ => false);
      new;
      forall i: nat | i < |bits| ensures i / 8 < bytes.Length && bits[i] == Holds(i) {
        ZeroHasNoBit(i % 8);
      }
    }

    /** `bitmap_set` */
    method Set(idx: nat)
      requires Valid() && idx < |bits|
      modifies this, bytes
      ensures Valid() && bits == old(bits)[idx := true]
    {
      assert idx / 8 < bytes.Length by { assert Holds(idx) == bits[idx]; }
      assert Pow2(8) == 256 by { assert Pow2(4) == 16; }
      OrBitFits(bytes[idx / 8], idx % 8, 8);
      bytes[idx / 8] := OrBit(bytes[idx / 8], idx % 8);
      bits := bits[idx := true];
      forall i: nat | i < |bits| ensures i / 8 < bytes.Length && bits[i] == Holds(i) {
        assert i / 8 < bytes.Length;
        assert old(Holds(i)) == old(bits)[i];
        if i / 8 == idx / 8 {
          OrBitSets(old(bytes[idx / 8]), idx % 8, i % 8);
        }
      }
    }

    /** `bitmap_is_set` */
    method IsSet(idx: nat) returns (b: bool)
      requires Valid() && idx < |bits|
      ensures b == bits[idx]
    {
      assert idx / 8 < bytes.Length;
      b := Holds(idx);
    }
  }
}

/** Arithmetic of the qcow2 writer: rounding up, powers of two, and ranks in bit sequences. */
module Qcow2Math {

  function Pow2(n: nat): (r: nat)
    ensures r > 0
  {
    if n == 0 then 1 else 2 * Pow2(n - 1)
  }

  lemma {:induction false} Pow2Add(a: nat, b: nat)
    ensures Pow2(a + b) == Pow2(a) * Pow2(b)
  {
    if b > 0 {
      Pow2Add(a, b - 1);
      assert Pow2(a + b) == 2 * Pow2(a + (b - 1));
    }
  }

  lemma {:induction false} Pow2Grows(a: nat, b: nat)
    requires a <= b
    ensures Pow2(a) <= Pow2(b)
  {
    if a < b {
      Pow2Grows(a, b - 1);
    }
  }

  /** `math.ceil(a / d)`, exact for the operands the writer has. */
  function CeilDiv(a: nat, d: nat): (r: nat)
    requires d > 0
  {
    Quotient(a + d - 1, d)
  }

  lemma CeilDivBounds(a: nat, d: nat)
    requires d > 0
    ensures var r := CeilDiv(a, d); r * d >= a && (r > 0 ==> (r - 1) * d < a)
  {
    QuotientIs(a + d - 1, d);
  }

  /** `align_up` */
  function AlignUp(a: nat, d: nat): (r: nat)
    requires d > 0
    ensures r >= a && r < a + d && r % d == 0
  {
    CeilDivBounds(a, d);
    DivModOf(CeilDiv(a, d), 0, d);
    d * CeilDiv(a, d)
  }

  /** `a // d` and `a % d` by repeated subtraction, which keeps the proofs free of division. */
  function Quotient(a: nat, d: nat): nat
    requires d > 0
  {
    if a < d then 0 else 1 + Quotient(a - d, d)
  }

  function Remainder(a: nat, d: nat): (r: nat)
    requires d > 0
    ensures r < d
  {
    if a < d then a else Remainder(a - d, d)
  }

  lemma {:induction false} QuotientIs(a: nat, d: nat)
    requires d > 0
    ensures a == Quotient(a, d) * d + Remainder(a, d)
    ensures Quotient(a, d) == a / d && Remainder(a, d) == a % d
  {
    if a >= d {
      QuotientIs(a - d, d);
      assert (1 + Quotient(a - d, d)) * d == d + Quotient(a - d, d) * d;
    }
    DivModOf(Quotient(a, d), Remainder(a, d), d);
  }

  /** A quotient and a remainder are what they look like. */
  lemma {:induction false} DivModOf(k: nat, i: nat, d: nat)
    requires 0 <= i < d
    ensures (k * d + i) / d == k && (k * d + i) % d == i
  {
    var a := k * d + i;
    if a / d < k {
      MulMonotone(a / d + 1, k, d);
    } else if a / d > k {
      MulMonotone(k + 1, a / d, d);
    }
  }

  lemma MulMonotone(a: nat, b: nat, d: nat)
    requires a <= b
    ensures a * d <= b * d
  {
    assert (b - a) * d >= 0;
  }

  /** The least multiple is unique. */
  lemma CeilDivIs(a: nat, d: nat, r: nat)
    requires d > 0 && r * d >= a && (r > 0 ==> (r - 1) * d < a)
    ensures CeilDiv(a, d) == r
  {
    var c := CeilDiv(a, d);
    CeilDivBounds(a, d);
    if c < r {
      MulMonotone(c, r - 1, d);
    } else if r < c {
      MulMonotone(r, c - 1, d);
    }
  }

  lemma CeilDivLeast(a: nat, d: nat, r: nat)
    requires d > 0 && r * d >= a
    ensures CeilDiv(a, d) <= r
  {
    CeilDivBounds(a, d);
    if r < CeilDiv(a, d) {
      MulMonotone(r, CeilDiv(a, d) - 1, d);
    }
  }

  lemma CeilDivMonotone(a: nat, b: nat, d: nat)
    requires d > 0 && a <= b
    ensures CeilDiv(a, d) <= CeilDiv(b, d)
  {
    CeilDivBounds(b, d);
    CeilDivLeast(a, d, CeilDiv(b, d));
  }

  lemma CeilDivAtMost(a: nat, d: nat)
    requires d > 0
    ensures CeilDiv(a, d) <= a
  {
    MulMonotone(1, d, a);
    CeilDivLeast(a, d, a);
  }

  /** Rounding up adds less than the divisor. */
  lemma RoundedUp(a: nat, d: nat)
    requires d > 0
    ensures a <= CeilDiv(a, d) * d <= a + d
  {
    var r := CeilDiv(a, d);
    CeilDivBounds(a, d);
    assert (r - 1) * d == r * d - d;
  }

  lemma BelowCeil(i: nat, a: nat, d: nat)
    requires d > 0 && i < a
    ensures i / d < CeilDiv(a, d)
  {
    CeilDivBounds(a, d);
    if i / d >= CeilDiv(a, d) {
      MulMonotone(CeilDiv(a, d), i / d, d);
    }
  }

  // ---------------------------------------------------------------------------------------
  // Ranks.

  /** How many of the first `n` bits are set. */
  function Rank(bits: seq<bool>, n: nat): (r: nat)
    requires n <= |bits|
    ensures r <= n
  {
    if n == 0 then 0 else Rank(bits, n - 1) + if bits[n - 1] then 1 else 0
  }

  function Count(bits: seq<bool>): nat {
    Rank(bits, |bits|)
  }

  lemma {:induction false} RankGrows(bits: seq<bool>, i: nat, j: nat)
    requires i <= j <= |bits|
    ensures Rank(bits, i) <= Rank(bits, j)
    ensures i < j && bits[i] ==> Rank(bits, i) < Rank(bits, j)
    decreases j
  {
    if i < j {
      RankGrows(bits, i, j - 1);
    }
  }

  /** Different set bits have different ranks, all below the count. */
  lemma RankInjective(bits: seq<bool>, i: nat, j: nat)
    requires i < |bits| && j < |bits| && bits[i] && bits[j] && i != j
    ensures Rank(bits, i) != Rank(bits, j) && Rank(bits, i) < Count(bits)
  {
    RankGrows(bits, i, |bits|);
    if i < j {
      RankGrows(bits, i, j);
    } else {
      RankGrows(bits, j, i);
    }
  }

  lemma {:induction false} RankSlice(bits: seq<bool>, from: nat, n: nat, to: nat)
    requires from + n <= to <= |bits|
    ensures Rank(bits, from + n) == Rank(bits, from) + Rank(bits[from..to], n)
    decreases n
  {
    if n > 0 {
      RankSlice(bits, from, n - 1, to);
      assert bits[from..to][n - 1] == bits[from + n - 1];
    }
  }

  lemma {:induction false} RankSame(a: seq<bool>, b: seq<bool>, n: nat)
    requires n <= |a| && n <= |b| && forall i :: 0 <= i < n ==> a[i] == b[i]
    ensures Rank(a, n) == Rank(b, n)
  {
    if n > 0 {
      RankSame(a, b, n - 1);
    }
  }

  lemma {:induction false} RankSet(bits: seq<bool>, i: nat, n: nat)
    requires i < |bits| && n <= |bits|
    ensures Rank(bits[i := true], n) == Rank(bits, n) + if i < n && !bits[i] then 1 else 0
  {
    if n > 0 {
      RankSet(bits, i, n - 1);
    }
  }

  lemma {:induction false} RankClear(bits: seq<bool>, from: nat, n: nat)
    requires from <= n <= |bits| && forall i :: from <= i < n ==> !bits[i]
    ensures Rank(bits, n) == Rank(bits, from)
  {
    if from < n {
      RankClear(bits, from, n - 1);
    }
  }
}

/** The ways of choosing the clusters to allocate. */
module Qcow2Modes {
  import opened Bytes
  import opened Qcow2Math
  import opened Qcow2Bitmap
  import opened Qcow2Format
  import opened Qcow2Writer
  import opened Qcow2Allocation
  import opened Qcow2Interval

  // ---------------------------------------------------------------------------------------
  // Reading the input, with or without an original to compare it with.

  /** What a cluster is compared with: the original as it is read, then zeros. */
  function Compared(diff: bytes, lastDiff: nat, cs: nat, j: nat): bytes {
    if j < lastDiff then ReadCluster(diff, j, cs) else Zeros(cs)
  }

  predicate Differs(input: bytes, diff: bytes, lastDiff: nat, cs: nat, j: nat) {
    PaddedCluster(input, j, cs) != Compared(diff, lastDiff, cs, j)
  }

  /** The clusters that are to be allocated, as a function. */
  function Unlike(input: bytes, diff: bytes, lastDiff: nat, cs: nat): nat -> bool {
    (j: nat) => Differs(input, diff, lastDiff, cs, j)
  }

  ghost predicate MarkedAt(bits: seq<bool>, n: nat, differs: nat -> bool, j: nat) {
    j < |bits| ==> (bits[j] <==> j < n && differs(j))
  }

  /** Of the first `n` clusters exactly those that differ are marked, and no other is. */
  ghost predicate MarkedTo(bits: seq<bool>, n: nat, differs: nat -> bool) {
    forall j: nat :: MarkedAt(bits, n, differs, j)
  }

  lemma {:induction false} MarkedNext(bits: seq<bool>, bits': seq<bool>, n: nat, m: nat, differs: nat -> bool)
    requires MarkedTo(bits, n, differs) && n < |bits| && m == n + 1
    requires bits' == if differs(n) then bits[n := true] else bits
    ensures MarkedTo(bits', m, differs)
    ensures Count(bits') == Count(bits) + if differs(n) then 1 else 0
  {
    assert MarkedAt(bits, n, differs, n);
    CountSet(bits, n);
    forall j: nat ensures MarkedAt(bits', m, differs, j) {
      assert MarkedAt(bits, n, differs, j);
    }
  }

  ghost predicate AllClear(bits: seq<bool>) {
    forall j :: 0 <= j < |bits| ==> !bits[j]
  }

  lemma {:induction false} UnlikeAt(input: bytes, diff: bytes, lastDiff: nat, cs: nat, j: nat)
    ensures Unlike(input, diff, lastDiff, cs)(j) <==> PaddedCluster(input, j, cs) != Compared(diff, lastDiff, cs, j)
  {
  }

  /** Compares the next cluster of the input. */
  method CheckCluster(a: Allocation, idx: nat, input: bytes, compared: bytes, cs: nat,
                      ghost diff: bytes, ghost lastDiff: nat, ghost differs: nat -> bool)
    requires a.Valid() && idx < a.s.clusters && cs == a.s.g.ClusterSize()
    requires differs == Unlike(input, diff, lastDiff, cs) && compared == Compared(diff, lastDiff, cs, idx)
    requires a.data == Count(a.l2.bits) && MarkedTo(a.l2.bits, idx, differs)
    modifies a, a.l1, a.l1.bytes, a.l2, a.l2.bytes
    ensures a.Valid() && a.data == Count(a.l2.bits) && MarkedTo(a.l2.bits, idx + 1, differs)
  {
    ghost var bits := a.l2.bits;
    UnlikeAt(input, diff, lastDiff, cs, idx);
    var cluster := ReadCluster(input, idx, cs);
    a.CheckAllocate(idx, cluster, compared);
    MarkedNext(bits, a.l2.bits, idx, idx + 1, differs);
  }

  /** Compares the clusters of `[0, lastDiff)` with the original's. */
  method ScanOriginal(a: Allocation, input: bytes, diff: bytes, lastDiff: nat, cs: nat, ghost differs: nat -> bool)
    requires a.Valid() && lastDiff <= a.s.clusters && cs == a.s.g.ClusterSize()
    requires differs == Unlike(input, diff, lastDiff, cs)
    requires a.data == Count(a.l2.bits) && MarkedTo(a.l2.bits, 0, differs)
    modifies a, a.l1, a.l1.bytes, a.l2, a.l2.bytes
    ensures a.Valid() && a.data == Count(a.l2.bits) && MarkedTo(a.l2.bits, lastDiff, differs)
  {
    for idx := 0 to lastDiff
      invariant a.Valid() && a.data == Count(a.l2.bits) && MarkedTo(a.l2.bits, idx, differs)
    {
      var original := ReadCluster(diff, idx, cs);
      CheckCluster(a, idx, input, original, cs, diff, lastDiff, differs);
    }
  }

  /** Compares the clusters of `[from, last)` with zeros. */
  method ScanZeros(a: Allocation, input: bytes, from: nat, last: nat, cs: nat, ghost diff: bytes, ghost differs: nat -> bool)
    requires a.Valid() && from <= last <= a.s.clusters && cs == a.s.g.ClusterSize()
    requires differs == Unlike(input, diff, from, cs)
    requires a.data == Count(a.l2.bits) && MarkedTo(a.l2.bits, from, differs)
    modifies a, a.l1, a.l1.bytes, a.l2, a.l2.bytes
    ensures a.Valid() && a.data == Count(a.l2.bits) && MarkedTo(a.l2.bits, last, differs)
  {
    var zeros := Zeros(cs);
    for idx := from to last
      invariant zeros == Zeros(cs) && a.Valid() && a.data == Count(a.l2.bits) && MarkedTo(a.l2.bits, idx, differs)
    {
      assert Compared(diff, from, cs, idx) == zeros;
      CheckCluster(a, idx, input, zeros, cs, diff, from, differs);
    }
  }

  /** No original: every cluster that is not all zeros. */
  method ScanInput(a: Allocation, input: bytes, last: nat, cs: nat)
    requires a.Valid() && last <= a.s.clusters && cs == a.s.g.ClusterSize()
    requires a.data == 0 && Count(a.l2.bits) == 0 && AllClear(a.l2.bits)
    modifies a, a.l1, a.l1.bytes, a.l2, a.l2.bytes
    ensures a.Valid() && a.data == Count(a.l2.bits) && MarkedTo(a.l2.bits, last, Unlike(input, [], 0, cs))
  {
    ghost var differs := Unlike(input, [], 0, cs);
    ScanZeros(a, input, 0, last, cs, [], differs);
  }

  /** An original no longer than the input. */
  method ScanDiff(a: Allocation, input: bytes, diff: bytes, last: nat, cs: nat)
    requires a.Valid() && last <= a.s.clusters && cs == a.s.g.ClusterSize() > 0 && CeilDiv(|diff|, cs) <= last
    requires a.data == 0 && Count(a.l2.bits) == 0 && AllClear(a.l2.bits)
    modifies a, a.l1, a.l1.bytes, a.l2, a.l2.bytes
    ensures a.Valid() && a.data == Count(a.l2.bits)
    ensures MarkedTo(a.l2.bits, last, Unlike(input, diff, CeilDiv(|diff|, cs), cs))
  {
    var lastDiff := CeilDiv(|diff|, cs);
    ghost var differs := Unlike(input, diff, lastDiff, cs);
    ScanOriginal(a, input, diff, lastDiff, cs, differs);
    ScanZeros(a, input, lastDiff, last, cs, diff, differs);
  }

  // What the comparison means.

  lemma {:induction false} PastEnd(file: bytes, j: nat, cs: nat)
    requires cs > 0 && CeilDiv(|file|, cs) <= j
    ensures PaddedCluster(file, j, cs) == Zeros(cs)
  {
    OffsetIsProduct(j, cs);
    CeilDivBounds(|file|, cs);
    MulMonotone(CeilDiv(|file|, cs), j, cs);
    assert ReadCluster(file, j, cs) == [];
    assert [] + Zeros(cs) == Zeros(cs);
  }

  lemma {:induction false} ShortIsPartial(file: bytes, j: nat, cs: nat)
    requires cs > 0 && j < CeilDiv(|file|, cs)
    ensures 0 < |ReadCluster(file, j, cs)|
  {
    OffsetIsProduct(j, cs);
    CeilDivBounds(|file|, cs);
    MulMonotone(j, CeilDiv(|file|, cs) - 1, cs);
  }

  /**
   Exactly when a cluster is left out: it reads the same in both images, and the original's
   does not end inside it. So no cluster that differs is left out; a short last cluster never is.
   */
  lemma {:induction false} DiffersMeans(input: bytes, diff: bytes, cs: nat, j: nat)
    requires cs > 0
    ensures !Differs(input, diff, CeilDiv(|diff|, cs), cs, j) <==>
            PaddedCluster(input, j, cs) == PaddedCluster(diff, j, cs) && !(0 < |ReadCluster(diff, j, cs)| < cs)
  {
    var lastDiff := CeilDiv(|diff|, cs);
    if j < lastDiff {
      ShortIsPartial(diff, j, cs);
      var read := ReadCluster(diff, j, cs);
      if |read| == cs {
        assert Pad(read, cs) == read;
      }
    } else {
      PastEnd(diff, j, cs);
      assert ReadCluster(diff, j, cs) == [] by {
        OffsetIsProduct(j, cs);
        CeilDivBounds(|diff|, cs);
        MulMonotone(lastDiff, j, cs);
      }
    }
  }

  /** What a guest sees that has the original below the image. */
  function Overlay(bits: seq<bool>, input: bytes, diff: bytes, cs: nat, j: nat): bytes {
    if j < |bits| && bits[j] then PaddedCluster(input, j, cs) else PaddedCluster(diff, j, cs)
  }

  /** The allocated clusters over the original are the input. */
  lemma {:induction false} OverlayIsInput(bits: seq<bool>, input: bytes, diff: bytes, cs: nat, n: nat, j: nat)
    requires cs > 0 && MarkedTo(bits, n, Unlike(input, diff, CeilDiv(|diff|, cs), cs)) && j < n <= |bits|
    ensures Overlay(bits, input, diff, cs, j) == PaddedCluster(input, j, cs)
  {
    assert MarkedAt(bits, n, Unlike(input, diff, CeilDiv(|diff|, cs), cs), j);
    DiffersMeans(input, diff, cs, j);
  }

  // ---------------------------------------------------------------------------------------
  // Raw external data: everything.

  ghost predicate SetBelow(bits: seq<bool>, n: nat) {
    forall j :: 0 <= j < |bits| ==> (bits[j] <==> j < n)
  }

  lemma {:induction false} CountBelow(bits: seq<bool>, n: nat, m: nat)
    requires SetBelow(bits, n) && m <= n <= |bits|
    ensures Rank(bits, m) == m && Count(bits) == n
  {
    RankClear(bits, n, |bits|);
    RankAll(bits, n);
    RankAll(bits, m);
  }

  lemma {:induction false} RankAll(bits: seq<bool>, m: nat)
    requires m <= |bits| && forall j :: 0 <= j < m ==> bits[j]
    ensures Rank(bits, m) == m
  {
    if m > 0 {
      RankAll(bits, m - 1);
    }
  }

  lemma {:induction false} AllAgree(s: Sizes, l1: seq<bool>, l2: seq<bool>)
    requires s.Valid() && |l1| == s.L1Bits() && |l2| == s.L2Bits()
    requires SetBelow(l1, s.l1Entries) && SetBelow(l2, s.clusters)
    ensures Agree(s, l1, l2)
  {
    RangesHold(s);
    var p := s.PlanOf(0, l1, l2, 0, false);
    forall j: int ensures p.MappedAt(j) {
      if 0 <= j < s.clusters {
        TableInRange(s, j);
      }
    }
  }

  /** Sets the first `n` bits, where no other is set. */
  method SetFirst(b: Bitmap, n: nat)
    requires b.Valid() && n <= |b.bits| && forall j :: n <= j < |b.bits| ==> !b.bits[j]
    modifies b, b.bytes
    ensures b.Valid() && |b.bits| == old(|b.bits|) && SetBelow(b.bits, n)
  {
    for idx := 0 to n
      invariant b.Valid() && |b.bits| == old(|b.bits|)
      invariant (forall j :: 0 <= j < idx ==> b.bits[j]) && forall j :: n <= j < |b.bits| ==> !b.bits[j]
    {
      b.Set(idx);
    }
  }

  /** Marks every cluster, and does not count them: they are not in the image. */
  method MarkAll(a: Allocation)
    requires a.Valid()
    modifies a, a.l1, a.l1.bytes, a.l2, a.l2.bytes
    ensures a.Valid() && SetBelow(a.l2.bits, a.s.clusters) && a.tables == a.s.l1Entries && a.data == old(a.data)
  {
    SetFirst(a.l1, a.s.l1Entries);
    SetFirst(a.l2, a.s.clusters);
    a.tables := a.s.l1Entries;
    AllAgree(a.s, a.l1.bits, a.l2.bits);
    CountBelow(a.l1.bits, a.s.l1Entries, 0);
  }

  // ---------------------------------------------------------------------------------------
  // Lists of ranges.

  function Length(r: Range): int {
    r.hi + 1 - r.lo
  }

  function Volume(list: seq<Range>): int {
    if list == [] then 0 else Volume(list[..|list| - 1]) + Length(list[|list| - 1])
  }

  ghost predicate InRange(list: seq<Range>, n: nat) {
    forall k :: 0 <= k < |list| ==> 0 <= list[k].lo <= list[k].hi < n
  }

  /** The bits set before, and those of a list. */
  ghost predicate Adds(before: seq<bool>, after: seq<bool>, list: seq<Range>) {
    && |after| == |before|
    && forall j :: 0 <= j < |before| ==> (after[j] <==> before[j] || Covers(list, j))
  }

  ghost predicate AddsRange(before: seq<bool>, after: seq<bool>, from: int, end: int) {
    && |after| == |before|
    && forall j :: 0 <= j < |before| ==> (after[j] <==> before[j] || from <= j < end)
  }

  /** Allocates the clusters of one range. */
  method MarkRange(a: Allocation, r: Range)
    requires a.Valid() && 0 <= r.lo <= r.hi < a.s.clusters
    modifies a, a.l1, a.l1.bytes, a.l2, a.l2.bytes
    ensures a.Valid() && a.data == old(a.data) + Length(r) && AddsRange(old(a.l2.bits), a.l2.bits, r.lo, r.hi + 1)
  {
    for cluster := r.lo to r.hi + 1
      invariant a.Valid() && a.data == old(a.data) + (cluster - r.lo)
      invariant AddsRange(old(a.l2.bits), a.l2.bits, r.lo, cluster)
    {
      a.Allocate(cluster);
    }
  }

  lemma {:induction false} AddsNext(before: seq<bool>, mid: seq<bool>, after: seq<bool>, list: seq<Range>, k: nat)
    requires k < |list| && Adds(before, mid, list[..k]) && AddsRange(mid, after, list[k].lo, list[k].hi + 1)
    ensures Adds(before, after, list[..k + 1])
  {
    assert list[..k + 1] == list[..k] + [list[k]];
    forall j | 0 <= j < |before| ensures after[j] <==> before[j] || Covers(list[..k + 1], j) {
      CoversConcat(list[..k], [list[k]], j);
      CoversOne(list[k], j);
    }
  }

  /** Allocates the clusters of all ranges. */
  method MarkList(a: Allocation, list: seq<Range>)
    requires a.Valid() && InRange(list, a.s.clusters)
    modifies a, a.l1, a.l1.bytes, a.l2, a.l2.bytes
    ensures a.Valid() && a.data == old(a.data) + Volume(list) && Adds(old(a.l2.bits), a.l2.bits, list)
  {
    for k := 0 to |list|
      invariant a.Valid() && a.data == old(a.data) + Volume(list[..k]) && Adds(old(a.l2.bits), a.l2.bits, list[..k])
    {
      ghost var mid := a.l2.bits;
      MarkRange(a, list[k]);
      AddsNext(old(a.l2.bits), mid, a.l2.bits, list, k);
      assert list[..k + 1][..k] == list[..k];
    }
    assert list[..|list|] == list;
  }

  // ---------------------------------------------------------------------------------------
  // Counting what a list adds.

  /** The clusters of a list, as bits. */
  ghost function CoverBits(list: seq<Range>, n: nat): seq<bool> {
    seq(n, j => Covers(list, j))
  }

  /** Setting a range that was clear adds as many bits as it has clusters. */
  lemma {:induction false} RankRange(before: seq<bool>, after: seq<bool>, from: nat, end: nat, n: nat)
    requires from <= end && AddsRange(before, after, from, end) && n <= |before|
    requires forall j :: from <= j < end && j < |before| ==> !before[j]
    ensures Rank(after, n) == Rank(before, n) + (if n < from then 0 else if n < end then n - from else end - from)
  {
    if n > 0 {
      RankRange(before, after, from, end, n - 1);
    }
  }

  /** Ranges that do not overlap have as many clusters as their lengths say. */
  lemma {:induction false} CoverCount(list: seq<Range>, n: nat)
    requires Disjoint(list) && InRange(list, n)
    ensures Count(CoverBits(list, n)) == Volume(list)
    decreases |list|
  {
    if list == [] {
      RankClear(CoverBits(list, n), 0, n);
    } else {
      var init, r := list[..|list| - 1], list[|list| - 1];
      var before, after := CoverBits(init, n), CoverBits(list, n);
      CoverCount(init, n);
      assert list == init + [r];
      forall j | 0 <= j < n ensures after[j] <==> before[j] || r.lo <= j < r.hi + 1 {
        CoversConcat(init, [r], j);
        CoversOne(r, j);
      }
      forall k | 0 <= k < |init| ensures Apart(init[k], r) {
        assert Apart(list[k], list[|list| - 1]);
      }
      forall j | r.lo <= j < r.hi + 1 ensures !before[j] {
        ApartLacks(init, r, j);
      }
      RankRange(before, after, r.lo, r.hi + 1, n);
    }
  }

  lemma {:induction false} ApartLacks(list: seq<Range>, r: Range, c: int)
    requires (forall k :: 0 <= k < |list| ==> Apart(list[k], r)) && r.Has(c)
    ensures !Covers(list, c)
  {
  }

  /** What is in one of two sets and what is in both. */
  lemma {:induction false} RankUnion(a: seq<bool>, b: seq<bool>, either: seq<bool>, both: seq<bool>, n: nat)
    requires |a| == |b| == |either| == |both| && n <= |a|
    requires forall j :: 0 <= j < |a| ==> (either[j] <==> a[j] || b[j]) && (both[j] <==> a[j] && b[j])
    ensures Rank(either, n) + Rank(both, n) == Rank(a, n) + Rank(b, n)
  {
    if n > 0 {
      RankUnion(a, b, either, both, n - 1);
    }
  }

  /** Allocating a list counts its clusters, those again that were allocated before. */
  lemma {:induction false} ListCount(before: seq<bool>, after: seq<bool>, list: seq<Range>, both: seq<bool>)
    requires Disjoint(list) && InRange(list, |before|) && Adds(before, after, list) && |both| == |before|
    requires forall j :: 0 <= j < |before| ==> (both[j] <==> before[j] && Covers(list, j))
    ensures Count(after) + Count(both) == Count(before) + Volume(list)
  {
    CoverCount(list, |before|);
    RankUnion(before, CoverBits(list, |before|), after, both, |before|);
  }

  /** A list of the clusters with data: exactly they are allocated, each counted once. */
  method MarkNonzero(a: Allocation, list: seq<Range>)
    requires a.Valid() && InRange(list, a.s.clusters) && Disjoint(list)
    requires a.data == 0 && AllClear(a.l2.bits)
    modifies a, a.l1, a.l1.bytes, a.l2, a.l2.bytes
    ensures a.Valid() && a.data == Count(a.l2.bits)
    ensures forall j :: 0 <= j < |a.l2.bits| ==> (a.l2.bits[j] <==> Covers(list, j))
  {
    ghost var before := a.l2.bits;
    MarkList(a, list);
    ListCount(before, a.l2.bits, list, before);
    RankClear(before, 0, |before|);
  }

  /** A cluster that no list has reads as zeros. */
  ghost predicate Truthful(list: seq<Range>, file: bytes, cs: nat) {
    forall j: nat :: Covers(list, j) || PaddedCluster(file, j, cs) == Zeros(cs)
  }
}

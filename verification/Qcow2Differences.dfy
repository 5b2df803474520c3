/** Allocation from two lists: the clusters of the input that have data, and those of the original. */
module Qcow2Differences {
  import opened Bytes
  import opened Qcow2Math
  import opened Qcow2Writer
  import opened Qcow2Allocation
  import opened Qcow2Interval
  import opened Qcow2Modes

  /** The two lists, where the original ends, and which clusters of the input are not the original's. */
  datatype Pair = Pair(lastDiff: nat, list: seq<Range>, original: seq<Range>, changed: nat -> bool)

  /** A short last cluster of the original is never the input's. */
  function Changed(input: bytes, diff: bytes, cs: nat): nat -> bool {
    (j: nat) => PaddedCluster(input, j, cs) != ReadCluster(diff, j, cs)
  }

  /** The clusters that the pass over the input's list allocates. */
  ghost predicate Chosen(p: Pair, x: int) {
    0 <= x && Covers(p.list, x) && (x >= p.lastDiff || !Covers(p.original, x) || p.changed(x))
  }

  // ---------------------------------------------------------------------------------------
  // The pass, in whatever order the list is. `done` are the clusters that have had their turn.

  ghost predicate ChosenAt(bits: seq<bool>, p: Pair, done: iset<int>, x: nat) {
    x < |bits| ==> (bits[x] <==> x in done && Chosen(p, x))
  }

  ghost predicate ChosenTo(bits: seq<bool>, p: Pair, done: iset<int>) {
    forall x: nat :: ChosenAt(bits, p, done, x)
  }

  /** A cluster can leave the original's list only in its turn, and none comes in. */
  ghost predicate KeptAt(p: Pair, left: seq<Range>, done: iset<int>, x: int) {
    && (Covers(left, x) ==> Covers(p.original, x))
    && (x !in done ==> (Covers(left, x) <==> Covers(p.original, x)))
  }

  ghost predicate Kept(p: Pair, left: seq<Range>, done: iset<int>) {
    forall x :: KeptAt(p, left, done, x)
  }

  lemma {:induction false} ChosenNext(bits: seq<bool>, bits': seq<bool>, p: Pair, done: iset<int>, done': iset<int>, f: nat)
    requires ChosenTo(bits, p, done) && f < |bits| && f !in done && done' == done + iset{f}
    requires bits' == if Chosen(p, f) then bits[f := true] else bits
    ensures ChosenTo(bits', p, done') && !bits[f]
  {
    assert ChosenAt(bits, p, done, f);
    forall x: nat ensures ChosenAt(bits', p, done', x) {
      assert ChosenAt(bits, p, done, x);
    }
  }

  lemma {:induction false} KeptNext(p: Pair, left: seq<Range>, left': seq<Range>, done: iset<int>, done': iset<int>, f: int)
    requires Kept(p, left, done) && done' == done + iset{f} && (left' == left || Asked(left, left', f))
    ensures Kept(p, left', done')
  {
    InsideIsCovered(left, f);
    forall x ensures KeptAt(p, left', done', x) {
      assert KeptAt(p, left, done, x);
    }
  }

  lemma {:induction false} InsideIsCovered(s: seq<Range>, x: int)
    ensures CoversInside(s, x) ==> Covers(s, x)
  {
    if k :| 0 <= k < |s| && s[k].HasInside(x) {
      assert s[k].Has(x);
    }
  }

  // ---------------------------------------------------------------------------------------
  /** A cluster that is asked for while it is inside its range, which the query then leaves there. */
  ghost predicate Skipped(list: seq<Range>, original: seq<Range>, x: int) {
    CoversInside(original, x) && Covers(list, x) && !Covers(list, x - 1)
  }

  // The input's list in ascending order: exactly what the queries leave.

  /** What the queries below `f` leave of the original's list. */
  ghost predicate LeftAt(list: seq<Range>, original: seq<Range>, left: seq<Range>, f: int, x: int) {
    Covers(left, x) <==> Covers(original, x) && (x < f && Covers(list, x) ==> Skipped(list, original, x))
  }

  ghost predicate InsideAt(list: seq<Range>, original: seq<Range>, left: seq<Range>, f: int, x: int) {
    x >= f ==> (CoversInside(left, x) <==> CoversInside(original, x) && !(x == f && Covers(list, f - 1)))
  }

  ghost predicate Progress(list: seq<Range>, original: seq<Range>, left: seq<Range>, f: int) {
    Ascending(left) && (forall x :: LeftAt(list, original, left, f, x)) && (forall x :: InsideAt(list, original, left, f, x))
  }

  /** One query, at the next cluster of the input's list. */
  lemma {:induction false} ProgressQuery(list: seq<Range>, original: seq<Range>, left: seq<Range>, left': seq<Range>, f: int)
    requires Progress(list, original, left, f) && Covers(list, f) && Asked(left, left', f)
    ensures Progress(list, original, left', f + 1)
  {
    var f' := f + 1;
    forall x ensures LeftAt(list, original, left', f', x) {
      assert LeftAt(list, original, left, f, x);
      assert InsideAt(list, original, left, f, f);
    }
    forall x ensures InsideAt(list, original, left', f', x) {
      assert InsideAt(list, original, left, f, x);
    }
  }

  /** A cluster past the original's end asks nothing. */
  lemma {:induction false} ProgressPast(list: seq<Range>, original: seq<Range>, left: seq<Range>, f: int, lastDiff: nat)
    requires Progress(list, original, left, f) && InRange(original, lastDiff) && lastDiff <= f
    ensures Progress(list, original, left, f + 1)
  {
    var f' := f + 1;
    forall x ensures LeftAt(list, original, left, f', x) {
      assert LeftAt(list, original, left, f, x);
    }
    forall x ensures InsideAt(list, original, left, f', x) {
      assert InsideAt(list, original, left, f, x);
    }
  }

  /** From one range of the input's list to the next. */
  lemma {:induction false} ProgressGap(list: seq<Range>, original: seq<Range>, left: seq<Range>, f: int, f': int)
    requires Progress(list, original, left, f) && f <= f' && forall x :: f <= x < f' ==> !Covers(list, x)
    ensures Progress(list, original, left, f')
  {
    forall x ensures LeftAt(list, original, left, f', x) {
      assert LeftAt(list, original, left, f, x);
    }
    forall x ensures InsideAt(list, original, left, f', x) {
      assert InsideAt(list, original, left, f, x);
    }
  }

  // ---------------------------------------------------------------------------------------
  // The pass itself.

  /** One cluster of the input's list: asked for in the original's, compared if found there. */
  method DecideCluster(a: Allocation, left: Interval, cluster: nat, input: bytes, diff: bytes, lastDiff: nat, cs: nat)
    requires a.Valid() && cluster < a.s.clusters && cs == a.s.g.ClusterSize() && Ascending(left.intervals)
    modifies a, a.l1, a.l1.bytes, a.l2, a.l2.bytes, left
    ensures a.Valid() && cluster < |old(a.l2.bits)|
    ensures if cluster >= lastDiff || !old(Covers(left.intervals, cluster)) || PaddedCluster(input, cluster, cs) != ReadCluster(diff, cluster, cs)
            then a.l2.bits == old(a.l2.bits)[cluster := true] && a.data == old(a.data) + 1
            else a.l2.bits == old(a.l2.bits) && a.data == old(a.data)
    ensures if cluster >= lastDiff then left.intervals == old(left.intervals)
            else Asked(old(left.intervals), left.intervals, cluster)
  {
    TableInRange(a.s, cluster);
    if cluster >= lastDiff {
      a.Allocate(cluster);
    } else {
      var found := left.Contains(cluster);
      if found {
        var data := ReadCluster(input, cluster, cs);
        var original := ReadCluster(diff, cluster, cs);
        a.CheckAllocate(cluster, data, original);
      } else {
        a.Allocate(cluster);
      }
    }
  }

  /** The state of the pass when `done` have had their turn, and `f` is the next in an ascending list. */
  ghost predicate Passed(bits: seq<bool>, data: nat, left: seq<Range>, p: Pair, done: iset<int>, f: int) {
    && data == Count(bits) && ChosenTo(bits, p, done) && Ascending(left) && Kept(p, left, done)
    && (Ascending(p.list) ==> Progress(p.list, p.original, left, f))
  }

  lemma {:induction false} PassedNext(bits: seq<bool>, bits': seq<bool>, data: nat, data': nat, left: seq<Range>, left': seq<Range>,
                                      p: Pair, done: iset<int>, f: nat)
    requires Passed(bits, data, left, p, done, f) && f < |bits| && f !in done && Covers(p.list, f) && InRange(p.original, p.lastDiff)
    requires if f >= p.lastDiff || !Covers(left, f) || p.changed(f)
             then bits' == bits[f := true] && data' == data + 1
             else bits' == bits && data' == data
    requires if f >= p.lastDiff then left' == left else Asked(left, left', f)
    ensures Passed(bits', data', left', p, done + iset{f}, f + 1)
  {
    assert KeptAt(p, left, done, f);
    CountSet(bits, f);
    ChosenNext(bits, bits', p, done, done + iset{f}, f);
    KeptNext(p, left, left', done, done + iset{f}, f);
    if Ascending(p.list) {
      if f >= p.lastDiff {
        ProgressPast(p.list, p.original, left, f, p.lastDiff);
      } else {
        ProgressQuery(p.list, p.original, left, left', f);
      }
    }
  }

  ghost function ClustersOf(r: Range): iset<int> {
    iset x | r.Has(x)
  }

  lemma {:induction false} ClustersNext(done: iset<int>, lo: int, c: int)
    requires lo <= c
    ensures done + ClustersOf(Range(lo, c - 1)) + iset{c} == done + ClustersOf(Range(lo, c))
  {
  }

  method PassRange(a: Allocation, left: Interval, r: Range, input: bytes, diff: bytes, lastDiff: nat, cs: nat,
                   ghost p: Pair, ghost done: iset<int>)
    requires a.Valid() && 0 <= r.lo <= r.hi < a.s.clusters && cs == a.s.g.ClusterSize()
    requires p == Pair(lastDiff, p.list, p.original, Changed(input, diff, cs)) && InRange(p.original, lastDiff)
    requires forall x :: r.Has(x) ==> Covers(p.list, x) && x !in done
    requires Passed(a.l2.bits, a.data, left.intervals, p, done, r.lo)
    modifies a, a.l1, a.l1.bytes, a.l2, a.l2.bytes, left
    ensures a.Valid() && Passed(a.l2.bits, a.data, left.intervals, p, done + ClustersOf(r), r.hi + 1)
  {
    assert done == done + ClustersOf(Range(r.lo, r.lo - 1));
    for cluster := r.lo to r.hi + 1
      invariant a.Valid() && Passed(a.l2.bits, a.data, left.intervals, p, done + ClustersOf(Range(r.lo, cluster - 1)), cluster)
    {
      ghost var bits, data, before, now := a.l2.bits, a.data, left.intervals, done + ClustersOf(Range(r.lo, cluster - 1));
      DecideCluster(a, left, cluster, input, diff, lastDiff, cs);
      assert r.Has(cluster);
      PassedNext(bits, a.l2.bits, data, a.data, before, left.intervals, p, now, cluster);
      ClustersNext(done, r.lo, cluster);
    }
    assert Range(r.lo, r.hi) == r;
  }

  /** The clusters of the first `k` ranges. */
  ghost function DoneBefore(list: seq<Range>, k: nat): iset<int>
    requires k <= |list|
  {
    iset x | Covers(list[..k], x)
  }

  lemma {:induction false} DoneNext(list: seq<Range>, k: nat)
    requires k < |list| && Disjoint(list)
    ensures DoneBefore(list, k + 1) == DoneBefore(list, k) + ClustersOf(list[k])
    ensures forall x :: list[k].Has(x) ==> Covers(list, x) && x !in DoneBefore(list, k)
  {
    var r := list[k];
    assert list[..k + 1] == list[..k] + [r];
    forall x ensures x in DoneBefore(list, k + 1) <==> x in DoneBefore(list, k) || r.Has(x) {
      CoversConcat(list[..k], [r], x);
      CoversOne(r, x);
    }
    forall x | r.Has(x) ensures x !in DoneBefore(list, k) {
      forall i | 0 <= i < k ensures !list[..k][i].Has(x) {
        assert Apart(list[i], list[k]);
      }
    }
  }

  /** Where the clusters before range `k` end. */
  function Frontier(list: seq<Range>, k: nat): int
    requires k <= |list|
  {
    if k == 0 then 0 else list[k - 1].hi + 1
  }

  lemma {:induction false} FrontierGap(list: seq<Range>, k: nat, n: nat)
    requires Ascending(list) && InRange(list, n) && k <= |list|
    ensures var end := if k < |list| then list[k].lo else n;
            Frontier(list, k) <= end && forall x :: Frontier(list, k) <= x < end ==> !Covers(list, x)
  {
    var end := if k < |list| then list[k].lo else n;
    forall x | Frontier(list, k) <= x < end ensures !Covers(list, x) {
      forall i | 0 <= i < |list| ensures !list[i].Has(x) {
        if i < k {
          assert i < k - 1 ==> list[i].hi < list[k - 1].lo;
        } else {
          assert k < i ==> list[k].hi < list[i].lo;
        }
      }
    }
  }

  lemma {:induction false} PassedTo(bits: seq<bool>, data: nat, left: seq<Range>, p: Pair, k: nat, n: nat)
    requires Disjoint(p.list) && InRange(p.list, n) && k <= |p.list|
    requires Passed(bits, data, left, p, DoneBefore(p.list, k), Frontier(p.list, k))
    ensures Passed(bits, data, left, p, DoneBefore(p.list, k), if k < |p.list| then p.list[k].lo else n)
  {
    if Ascending(p.list) {
      FrontierGap(p.list, k, n);
      ProgressGap(p.list, p.original, left, Frontier(p.list, k), if k < |p.list| then p.list[k].lo else n);
    }
  }

  /** The pass over the input's list. */
  method PassList(a: Allocation, left: Interval, list: seq<Range>, input: bytes, diff: bytes, lastDiff: nat, cs: nat, ghost p: Pair)
    requires a.Valid() && cs == a.s.g.ClusterSize()
    requires p == Pair(lastDiff, list, p.original, Changed(input, diff, cs)) && InRange(p.original, lastDiff)
    requires Disjoint(list) && InRange(list, a.s.clusters)
    requires Passed(a.l2.bits, a.data, left.intervals, p, DoneBefore(list, 0), 0)
    modifies a, a.l1, a.l1.bytes, a.l2, a.l2.bytes, left
    ensures a.Valid() && Passed(a.l2.bits, a.data, left.intervals, p, DoneBefore(list, |list|), a.s.clusters)
  {
    for k := 0 to |list|
      invariant a.Valid() && Passed(a.l2.bits, a.data, left.intervals, p, DoneBefore(list, k), Frontier(list, k))
    {
      PassedTo(a.l2.bits, a.data, left.intervals, p, k, a.s.clusters);
      DoneNext(list, k);
      PassRange(a, left, list[k], input, diff, lastDiff, cs, p, DoneBefore(list, k));
      assert Frontier(list, k + 1) == list[k].hi + 1;
    }
    PassedTo(a.l2.bits, a.data, left.intervals, p, |list|, a.s.clusters);
  }

  lemma {:induction false} PassedNothing(bits: seq<bool>, left: seq<Range>, p: Pair, n: nat)
    requires AllClear(bits) && Ascending(left) && InRange(p.list, n)
    requires forall x :: Covers(left, x) <==> Covers(p.original, x)
    requires forall x :: CoversInside(left, x) <==> CoversInside(p.original, x)
    ensures Passed(bits, 0, left, p, DoneBefore(p.list, 0), 0)
  {
    RankClear(bits, 0, |bits|);
    var none := DoneBefore(p.list, 0);
    assert none == iset{};
    forall x: nat ensures ChosenAt(bits, p, none, x) {
    }
    forall x ensures KeptAt(p, left, none, x) {
    }
    forall x ensures LeftAt(p.list, p.original, left, 0, x) && InsideAt(p.list, p.original, left, 0, x) {
    }
  }

  // ---------------------------------------------------------------------------------------
  // What is allocated, and what is counted twice.

  /** The clusters that are counted twice. */
  ghost predicate Doubled(p: Pair, x: int) {
    0 <= x && Skipped(p.list, p.original, x) && p.changed(x)
  }

  ghost predicate DoubledBits(p: Pair, doubled: seq<bool>) {
    forall j :: 0 <= j < |doubled| ==> (doubled[j] <==> Doubled(p, j))
  }

  /** The clusters that are allocated in the end. */
  ghost predicate Marked(p: Pair, x: int) {
    || Chosen(p, x)
    || (Covers(p.original, x) && (Covers(p.list, x) ==> Skipped(p.list, p.original, x)))
  }

  /**
   Every cluster the pass chose, and every one that only the original has; of the others, none that
   the original does not have.
   */
  ghost predicate MarkedEnough(bits: seq<bool>, p: Pair) {
    forall j :: 0 <= j < |bits| ==>
      && (Chosen(p, j) || (Covers(p.original, j) && !Covers(p.list, j)) ==> bits[j])
      && (bits[j] ==> Chosen(p, j) || Covers(p.original, j))
  }

  lemma {:induction false} AscendingDisjoint(s: seq<Range>)
    requires Ascending(s)
    ensures Disjoint(s)
  {
  }

  lemma {:induction false} InRangeWider(s: seq<Range>, m: nat, n: nat)
    requires InRange(s, m) && m <= n
    ensures InRange(s, n)
  {
  }

  ghost predicate MarkedAll(bits: seq<bool>, p: Pair) {
    forall j :: 0 <= j < |bits| ==> (bits[j] <==> Marked(p, j))
  }

  /** The counter is ahead by as many clusters as were counted twice. */
  ghost predicate CountsDoubled(bits: seq<bool>, data: nat, p: Pair) {
    && data <= 2 * |bits|
    && forall doubled :: |doubled| == |bits| && DoubledBits(p, doubled) ==> data == Count(bits) + Count(doubled)
  }

  /** At the end of the pass, in whatever order it was. */
  lemma {:induction false} PassedAll(bits: seq<bool>, data: nat, left: seq<Range>, p: Pair, n: nat, j: nat)
    requires Passed(bits, data, left, p, DoneBefore(p.list, |p.list|), n) && j < |bits|
    ensures bits[j] <==> Chosen(p, j)
    ensures Covers(left, j) ==> Covers(p.original, j)
    ensures !Covers(p.list, j) ==> (Covers(left, j) <==> Covers(p.original, j))
  {
    var done := DoneBefore(p.list, |p.list|);
    assert p.list[..|p.list|] == p.list;
    assert ChosenAt(bits, p, done, j) && KeptAt(p, left, done, j);
  }

  /** In an ascending list, what was allocated and is still in the original's list is what is doubled. */
  lemma {:induction false} DoubledLeft(bits: seq<bool>, data: nat, left: seq<Range>, p: Pair, n: nat, j: nat)
    requires Passed(bits, data, left, p, DoneBefore(p.list, |p.list|), n) && j < |bits|
    requires Ascending(p.list) && InRange(p.list, n) && InRange(p.original, p.lastDiff)
    ensures bits[j] && Covers(left, j) <==> Doubled(p, j)
    ensures bits[j] || Covers(left, j) <==> Marked(p, j)
  {
    PassedAll(bits, data, left, p, n, j);
    InsideIsCovered(p.original, j);
    assert LeftAt(p.list, p.original, left, n, j);
  }

  lemma {:induction false} PassedRange(bits: seq<bool>, data: nat, left: seq<Range>, p: Pair, done: iset<int>, n: nat)
    requires Passed(bits, data, left, p, done, n) && InRange(p.original, p.lastDiff)
    ensures InRange(left, p.lastDiff)
  {
    forall k | 0 <= k < |left| ensures 0 <= left[k].lo <= left[k].hi < p.lastDiff {
      assert left[k].Has(left[k].lo) && left[k].Has(left[k].hi);
      assert KeptAt(p, left, done, left[k].lo);
      assert KeptAt(p, left, done, left[k].hi);
    }
  }

  /** In any order: what is allocated, and that the counter is not behind. */
  lemma {:induction false} DifferencesDone(bits: seq<bool>, bits': seq<bool>, data: nat, data': nat, left: seq<Range>, p: Pair, n: nat)
    requires Passed(bits, data, left, p, DoneBefore(p.list, |p.list|), n) && p.lastDiff <= |bits| && InRange(p.original, p.lastDiff)
    requires Adds(bits, bits', left) && data' == data + Volume(left)
    ensures MarkedEnough(bits', p) && Count(bits') <= data' <= 2 * |bits|
  {
    PassedRange(bits, data, left, p, DoneBefore(p.list, |p.list|), n);
    InRangeWider(left, p.lastDiff, |bits|);
    AscendingDisjoint(left);
    forall j | 0 <= j < |bits|
      ensures Chosen(p, j) || (Covers(p.original, j) && !Covers(p.list, j)) ==> bits'[j]
      ensures bits'[j] ==> Chosen(p, j) || Covers(p.original, j)
    {
      PassedAll(bits, data, left, p, n, j);
    }
    ListCount(bits, bits', left, seq(|bits|, j requires 0 <= j < |bits| => bits[j] && Covers(left, j)));
  }

  /** In ascending order: exactly what is allocated, and by how much the counter is ahead. */
  lemma {:induction false} AscendingDone(bits: seq<bool>, bits': seq<bool>, data: nat, data': nat, left: seq<Range>, p: Pair, n: nat)
    requires Passed(bits, data, left, p, DoneBefore(p.list, |p.list|), n) && p.lastDiff <= |bits| && InRange(p.original, p.lastDiff)
    requires Adds(bits, bits', left) && data' == data + Volume(left)
    requires Ascending(p.list) && InRange(p.list, n)
    ensures MarkedAll(bits', p) && CountsDoubled(bits', data', p)
  {
    PassedRange(bits, data, left, p, DoneBefore(p.list, |p.list|), n);
    InRangeWider(left, p.lastDiff, |bits|);
    AscendingDisjoint(left);
    forall j | 0 <= j < |bits| ensures (bits[j] && Covers(left, j) <==> Doubled(p, j)) && (bits'[j] <==> Marked(p, j)) {
      DoubledLeft(bits, data, left, p, n, j);
    }
    var twice := seq(|bits|, j => Doubled(p, j));
    ListCount(bits, bits', left, twice);
    forall doubled | |doubled| == |bits| && DoubledBits(p, doubled) ensures doubled == twice {
    }
  }

  /**
   Allocates what differs between two images of which the clusters with data are listed: first
   along the input's list, then whatever that has left of the original's.
   */
  method MarkDifferences(a: Allocation, list: seq<Range>, original: seq<Range>, input: bytes, diff: bytes, lastDiff: nat, cs: nat)
    requires a.Valid() && cs == a.s.g.ClusterSize() && lastDiff <= a.s.clusters
    requires Disjoint(list) && InRange(list, a.s.clusters) && Disjoint(original) && InRange(original, lastDiff)
    requires a.data == 0 && AllClear(a.l2.bits)
    modifies a, a.l1, a.l1.bytes, a.l2, a.l2.bytes
    ensures a.Valid() && Count(a.l2.bits) <= a.data <= 2 * |a.l2.bits|
    ensures MarkedEnough(a.l2.bits, Pair(lastDiff, list, original, Changed(input, diff, cs)))
    ensures Ascending(list) ==> MarkedAll(a.l2.bits, Pair(lastDiff, list, original, Changed(input, diff, cs)))
    ensures Ascending(list) ==> CountsDoubled(a.l2.bits, a.data, Pair(lastDiff, list, original, Changed(input, diff, cs)))
  {
    ghost var p := Pair(lastDiff, list, original, Changed(input, diff, cs));
    var left := new Interval(original);
    PassedNothing(a.l2.bits, left.intervals, p, a.s.clusters);
    PassList(a, left, list, input, diff, lastDiff, cs, p);
    ghost var bits, data := a.l2.bits, a.data;
    PassedRange(bits, data, left.intervals, p, DoneBefore(list, |list|), a.s.clusters);
    InRangeWider(left.intervals, lastDiff, a.s.clusters);
    MarkList(a, left.intervals);
    DifferencesDone(bits, a.l2.bits, data, a.data, left.intervals, p, a.s.clusters);
    if Ascending(list) {
      AscendingDone(bits, a.l2.bits, data, a.data, left.intervals, p, a.s.clusters);
    }
  }

  /** The count is right exactly if no cluster is doubled. */
  lemma {:induction false} CountedOnceIff(bits: seq<bool>, data: nat, p: Pair)
    requires CountsDoubled(bits, data, p)
    ensures data == Count(bits) <==> forall j :: 0 <= j < |bits| ==> !Doubled(p, j)
  {
    var doubled := seq(|bits|, j => Doubled(p, j));
    assert DoubledBits(p, doubled);
    if j :| 0 <= j < |bits| && Doubled(p, j) {
      RankGrows(doubled, j, |doubled|);
    } else {
      RankClear(doubled, 0, |doubled|);
    }
  }

  /** With lists that leave nothing out, the allocated clusters over the original are the input. */
  lemma {:induction false} ListedOverlayIsInput(bits: seq<bool>, p: Pair, input: bytes, diff: bytes, cs: nat, j: nat)
    requires p.changed == Changed(input, diff, cs) && MarkedEnough(bits, p) && j < |bits|
    requires Truthful(p.list, input, cs) && Truthful(p.original, diff, cs)
    ensures Overlay(bits, input, diff, cs, j) == PaddedCluster(input, j, cs)
  {
    if !bits[j] && Covers(p.list, j) {
      var read := ReadCluster(diff, j, cs);
      assert read == PaddedCluster(input, j, cs);
      assert Pad(read, cs) == read;
    }
  }
}

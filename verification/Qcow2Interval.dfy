/** `Interval`: a sorted list of cluster ranges that shrinks as it is asked. */
module Qcow2Interval {

  /** A range of clusters, both ends included. */
  datatype Range = Range(lo: int, hi: int) {
    predicate Has(c: int) {
      lo <= c <= hi
    }

    predicate HasInside(c: int) {
      lo < c < hi
    }
  }

  /** The clusters that a list of ranges stands for. */
  ghost predicate Covers(s: seq<Range>, c: int) {
    exists k :: 0 <= k < |s| && s[k].Has(c)
  }

  /** Clusters that are neither the first nor the last of their range. */
  ghost predicate CoversInside(s: seq<Range>, c: int) {
    exists k :: 0 <= k < |s| && s[k].HasInside(c)
  }

  /** Sorted, disjoint, and no range is empty. */
  ghost predicate Ascending(s: seq<Range>) {
    && (forall k :: 0 <= k < |s| ==> s[k].lo <= s[k].hi)
    && forall i, j :: 0 <= i < j < |s| ==> s[i].hi < s[j].lo
  }

  lemma {:induction false} CoversConcat(a: seq<Range>, b: seq<Range>, c: int)
    ensures Covers(a + b, c) <==> Covers(a, c) || Covers(b, c)
    ensures CoversInside(a + b, c) <==> CoversInside(a, c) || CoversInside(b, c)
  {
    var s := a + b;
    if k :| 0 <= k < |a| && a[k].Has(c) {
      assert s[k].Has(c);
    }
    if k :| 0 <= k < |b| && b[k].Has(c) {
      assert s[|a| + k].Has(c);
    }
    if k :| 0 <= k < |a| && a[k].HasInside(c) {
      assert s[k].HasInside(c);
    }
    if k :| 0 <= k < |b| && b[k].HasInside(c) {
      assert s[|a| + k].HasInside(c);
    }
  }

  lemma {:induction false} CoversOne(r: Range, c: int)
    ensures Covers([r], c) <==> r.Has(c)
    ensures CoversInside([r], c) <==> r.HasInside(c)
  {
    assert [r][0] == r;
  }

  lemma {:induction false} CoversTwo(q: Range, r: Range, c: int)
    ensures Covers([q, r], c) <==> q.Has(c) || r.Has(c)
    ensures CoversInside([q, r], c) <==> q.HasInside(c) || r.HasInside(c)
  {
    assert [q, r] == [q] + [r];
    CoversConcat([q], [r], c);
    CoversOne(q, c);
    CoversOne(r, c);
  }

  // ---------------------------------------------------------------------------------------
  // What a query leaves of the range that has the cluster.

  /** An inner cluster stays in the left half. */
  function Cut(r: Range, c: int): seq<Range> {
    if c == r.lo && c == r.hi then []
    else if c == r.lo then [Range(r.lo + 1, r.hi)]
    else if c == r.hi then [Range(r.lo, r.hi - 1)]
    else [Range(r.lo, c), Range(c + 1, r.hi)]
  }

  lemma {:induction false} CutLeaves(r: Range, c: int, x: int)
    requires r.Has(c)
    ensures x != c ==> (Covers(Cut(r, c), x) <==> r.Has(x))
    ensures Covers(Cut(r, c), c) <==> r.HasInside(c)
    ensures x > c ==> (CoversInside(Cut(r, c), x) <==> r.HasInside(x) && x != c + 1)
  {
    CoversOne(Range(r.lo + 1, r.hi), x);
    CoversOne(Range(r.lo + 1, r.hi), c);
    CoversOne(Range(r.lo, r.hi - 1), x);
    CoversOne(Range(r.lo, r.hi - 1), c);
    CoversTwo(Range(r.lo, c), Range(c + 1, r.hi), x);
    CoversTwo(Range(r.lo, c), Range(c + 1, r.hi), c);
  }

  lemma {:induction false} CoversAround(s: seq<Range>, k: nat, mid: seq<Range>, x: int)
    requires k < |s|
    ensures Covers(s[..k] + mid + s[k + 1..], x) <==> Covers(s[..k], x) || Covers(mid, x) || Covers(s[k + 1..], x)
    ensures CoversInside(s[..k] + mid + s[k + 1..], x) <==>
            CoversInside(s[..k], x) || CoversInside(mid, x) || CoversInside(s[k + 1..], x)
  {
    CoversConcat(s[..k] + mid, s[k + 1..], x);
    CoversConcat(s[..k], mid, x);
  }

  lemma {:induction false} CutInPlace(s: seq<Range>, k: nat, c: int, x: int)
    requires Ascending(s) && k < |s| && s[k].Has(c)
    ensures var t := s[..k] + Cut(s[k], c) + s[k + 1..];
            && (x != c ==> (Covers(t, x) <==> Covers(s, x)))
            && (Covers(t, c) <==> CoversInside(s, c))
            && (x > c ==> (CoversInside(t, x) <==> CoversInside(s, x) && x != c + 1))
  {
    CutLeaves(s[k], c, x);
    CoversAround(s, k, Cut(s[k], c), x);
    CoversAround(s, k, Cut(s[k], c), c);
    CoversAround(s, k, [s[k]], x);
    CoversAround(s, k, [s[k]], c);
    CoversOne(s[k], x);
    CoversOne(s[k], c);
  }

  /** A list left alone answers for itself. */
  lemma {:induction false} LackHasNoInside(s: seq<Range>, c: int)
    requires !Covers(s, c)
    ensures !CoversInside(s, c) && !CoversInside(s, c + 1)
  {
    if k :| 0 <= k < |s| && s[k].HasInside(c) {
      assert s[k].Has(c);
    }
    if k :| 0 <= k < |s| && s[k].HasInside(c + 1) {
      assert s[k].Has(c);
    }
  }

  /** What one query does to the list, apart from the answer. */
  ghost predicate Asked(before: seq<Range>, after: seq<Range>, c: int) {
    && Ascending(after)
    && (forall x :: x != c ==> (Covers(after, x) <==> Covers(before, x)))
    && (Covers(after, c) <==> CoversInside(before, c))
    && (forall x :: x > c ==> (CoversInside(after, x) <==> CoversInside(before, x) && x != c + 1))
  }

  lemma {:induction false} AskedCut(s: seq<Range>, k: nat, c: int)
    requires Ascending(s) && k < |s| && s[k].Has(c)
    ensures Asked(s, s[..k] + Cut(s[k], c) + s[k + 1..], c)
  {
    CutInPlace(s, k, c, c);
    forall x ensures var t := s[..k] + Cut(s[k], c) + s[k + 1..];
                     && (x != c ==> (Covers(t, x) <==> Covers(s, x)))
                     && (x > c ==> (CoversInside(t, x) <==> CoversInside(s, x) && x != c + 1))
    {
      CutInPlace(s, k, c, x);
    }
  }

  /** `lists` are what a sequence of queries leaves, one after the other. */
  ghost predicate AskedAll(lists: seq<seq<Range>>, queries: seq<int>) {
    && |lists| == |queries| + 1 && Ascending(lists[0])
    && forall i :: 0 <= i < |queries| ==> Asked(lists[i], lists[i + 1], queries[i])
  }

  /** Whatever is asked, only what was asked for can go, and nothing comes. */
  lemma {:induction false} QueriesKeep(lists: seq<seq<Range>>, queries: seq<int>, x: int)
    requires AskedAll(lists, queries)
    ensures Ascending(lists[|queries|])
    ensures Covers(lists[|queries|], x) ==> Covers(lists[0], x)
    ensures x !in queries ==> (Covers(lists[|queries|], x) <==> Covers(lists[0], x))
    decreases |queries|
  {
    if queries != [] {
      var n := |queries| - 1;
      QueriesKeep(lists[..n + 1], queries[..n], x);
      assert Asked(lists[n], lists[n + 1], queries[n]);
    }
  }

  // ---------------------------------------------------------------------------------------
  // Sorting.

  ghost predicate Apart(q: Range, r: Range) {
    q.hi < r.lo || r.hi < q.lo
  }

  /** No range is empty and no two overlap, in whatever order they are. */
  ghost predicate Disjoint(s: seq<Range>) {
    && (forall k :: 0 <= k < |s| ==> s[k].lo <= s[k].hi)
    && forall i, j :: 0 <= i < j < |s| ==> Apart(s[i], s[j])
  }

  function Insert(s: seq<Range>, r: Range): seq<Range> {
    if s == [] || s[|s| - 1].lo <= r.lo then s + [r] else Insert(s[..|s| - 1], r) + [s[|s| - 1]]
  }

  /** `sort(key=lambda x: x[0])` */
  function Sorted(s: seq<Range>): seq<Range> {
    if s == [] then [] else Insert(Sorted(s[..|s| - 1]), s[|s| - 1])
  }

  lemma {:induction false} InsertElements(s: seq<Range>, r: Range)
    ensures multiset(Insert(s, r)) == multiset(s) + multiset{r}
  {
    if s != [] && s[|s| - 1].lo > r.lo {
      InsertElements(s[..|s| - 1], r);
      assert s == s[..|s| - 1] + [s[|s| - 1]];
    }
  }

  lemma {:induction false} SortedElements(s: seq<Range>)
    ensures multiset(Sorted(s)) == multiset(s)
  {
    if s != [] {
      SortedElements(s[..|s| - 1]);
      InsertElements(Sorted(s[..|s| - 1]), s[|s| - 1]);
      assert s == s[..|s| - 1] + [s[|s| - 1]];
    }
  }

  lemma {:induction false} InsertMember(s: seq<Range>, r: Range, x: Range)
    ensures x in Insert(s, r) <==> x in s || x == r
  {
    InsertElements(s, r);
    assert x in Insert(s, r) <==> x in multiset(Insert(s, r));
    assert x in s <==> x in multiset(s);
  }

  lemma {:induction false} SortedMember(s: seq<Range>, x: Range)
    ensures x in Sorted(s) <==> x in s
  {
    SortedElements(s);
    assert x in Sorted(s) <==> x in multiset(Sorted(s));
    assert x in s <==> x in multiset(s);
  }

  lemma {:induction false} CoversMember(s: seq<Range>, c: int)
    ensures Covers(s, c) <==> exists r :: r in s && r.Has(c)
    ensures CoversInside(s, c) <==> exists r :: r in s && r.HasInside(c)
  {
    if r :| r in s && r.Has(c) {
      var k :| 0 <= k < |s| && s[k] == r;
      assert s[k].Has(c);
    }
    if r :| r in s && r.HasInside(c) {
      var k :| 0 <= k < |s| && s[k] == r;
      assert s[k].HasInside(c);
    }
  }

  lemma {:induction false} SortedCovers(s: seq<Range>, c: int)
    ensures Covers(Sorted(s), c) <==> Covers(s, c)
    ensures CoversInside(Sorted(s), c) <==> CoversInside(s, c)
  {
    CoversMember(s, c);
    CoversMember(Sorted(s), c);
    forall r ensures r in Sorted(s) <==> r in s {
      SortedMember(s, r);
    }
  }

  lemma {:induction false} InsertAscends(s: seq<Range>, r: Range)
    requires Ascending(s) && r.lo <= r.hi && forall k :: 0 <= k < |s| ==> Apart(s[k], r)
    ensures Ascending(Insert(s, r))
  {
    if s != [] && s[|s| - 1].lo > r.lo {
      var init, last := s[..|s| - 1], s[|s| - 1];
      InsertAscends(init, r);
      var t := Insert(init, r);
      forall k | 0 <= k < |t| ensures t[k].hi < last.lo {
        InsertMember(init, r, t[k]);
        assert Apart(s[|s| - 1], r);
      }
    } else if s != [] {
      assert Apart(s[|s| - 1], r);
    }
  }

  lemma {:induction false} SortedAscends(s: seq<Range>)
    requires Disjoint(s)
    ensures Ascending(Sorted(s))
  {
    if s != [] {
      var init, last := s[..|s| - 1], s[|s| - 1];
      SortedAscends(init);
      var t := Sorted(init);
      forall k | 0 <= k < |t| ensures Apart(t[k], last) {
        SortedMember(init, t[k]);
      }
      InsertAscends(t, last);
    }
  }

  class Interval {
    var intervals: seq<Range>

    /** Sorts the list. */
    constructor (list: seq<Range>)
      requires Disjoint(list)
      ensures Ascending(intervals)
      ensures forall c :: Covers(intervals, c) <==> Covers(list, c)
      ensures forall c :: CoversInside(intervals, c) <==> CoversInside(list, c)
    {
      intervals := Sorted(list);
      new;
      SortedAscends(list);
      forall c ensures (Covers(intervals, c) <==> Covers(list, c)) && (CoversInside(intervals, c) <==> CoversInside(list, c)) {
        SortedCovers(list, c);
      }
    }

    /** `__contains__`: a binary search that also takes the cluster out, unless it is inside its range. */
    method Contains(cluster: int) returns (found: bool)
      requires Ascending(intervals)
      modifies this
      ensures found <==> old(Covers(intervals, cluster))
      ensures Asked(old(intervals), intervals, cluster)
    {
      if |intervals| == 0 || intervals[|intervals| - 1].hi < cluster || intervals[0].lo > cluster {
        return false;
      }
      var l, h := 0, |intervals| - 1;
      while l <= h
        invariant intervals == old(intervals) && 0 <= l <= h + 1 <= |intervals|
        invariant forall k :: 0 <= k < l ==> intervals[k].hi < cluster
        invariant forall k :: h < k < |intervals| ==> cluster < intervals[k].lo
      {
        var mid := (l + h) / 2;
        var current := intervals[mid];
        if cluster >= current.lo && cluster <= current.hi {
          Remove(mid, cluster);
          return true;
        } else if cluster < current.lo {
          h := mid - 1;
        } else {
          l := mid + 1;
        }
      }
      LackHasNoInside(intervals, cluster);
      return false;
    }

    /** Takes the cluster out of the range that has it. */
    method Remove(mid: nat, cluster: int)
      requires Ascending(intervals) && mid < |intervals| && intervals[mid].Has(cluster)
      modifies this
      ensures Asked(old(intervals), intervals, cluster)
      ensures old(Covers(intervals, cluster))
    {
      var current := intervals[mid];
      AskedCut(intervals, mid, cluster);
      if cluster == current.lo && cluster == current.hi {
        intervals := intervals[..mid] + intervals[mid + 1..];
        assert intervals == old(intervals)[..mid] + [] + old(intervals)[mid + 1..];
        return;
      }
      var left, right := current.lo, current.hi;
      if cluster == current.lo {
        left := current.lo + 1;
      } else if cluster == current.hi {
        right := current.hi - 1;
      } else {
        right := cluster;
        intervals := intervals[..mid + 1] + [Range(cluster + 1, current.hi)] + intervals[mid + 1..];
      }
      intervals := intervals[mid := Range(left, right)];
      assert intervals == old(intervals)[..mid] + Cut(current, cluster) + old(intervals)[mid + 1..];
    }
  }

}

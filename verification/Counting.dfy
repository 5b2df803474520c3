/** Counting and pigeonhole facts about sequences of descriptors. */
module Counting {
  import opened Collections

  /** `fds` with everything on `from` put on `to`. */
  function Remap(fds: seq<int>, from: int, to: int): (r: seq<int>)
    ensures |r| == |fds|
  {
    seq(|fds|, i requires 0 <= i < |fds| => if fds[i] == from then to else fds[i])
  }

  lemma {:induction false} RemapCounts(fds: seq<int>, from: int, to: int, f: int)
    requires from != to
    ensures var n := multiset(fds);
            multiset(Remap(fds, from, to))[f] == if f == from then 0 else if f == to then n[from] + n[to] else n[f]
  {
    if fds != [] {
      var init, last := fds[..|fds| - 1], fds[|fds| - 1];
      RemapCounts(init, from, to, f);
      assert fds == init + [last];
      assert Remap(fds, from, to) == Remap(init, from, to) + [if last == from then to else last];
    }
  }

  lemma CountedOnce(fds: seq<int>, i: int)
    requires 0 <= i < |fds|
    ensures multiset(fds)[fds[i]] == 1 <==> forall j :: 0 <= j < |fds| && j != i ==> fds[j] != fds[i]
    ensures multiset(fds)[fds[i]] >= 1
  {
    assert fds == fds[..i] + [fds[i]] + fds[i + 1..];
    if j :| 0 <= j < |fds| && j != i && fds[j] == fds[i] {
      assert fds[j] in fds[..i] || fds[j] in fds[i + 1..] by {
        if j < i { assert fds[..i][j] == fds[j]; } else { assert fds[i + 1..][j - i - 1] == fds[j]; }
      }
    } else {
      assert fds[i] !in fds[..i] && fds[i] !in fds[i + 1..];
    }
  }

  /** The descriptors in `[lo, hi)` that someone sits on. */
  ghost function Occupied(fds: seq<int>, lo: int, hi: int): set<int> {
    set f | lo <= f < hi && f in fds
  }

  /** The integers in `[lo, hi)`. */
  ghost function Range(lo: int, hi: int): (r: set<int>)
    requires lo <= hi
    ensures forall f :: f in r <==> lo <= f < hi
    ensures |r| == hi - lo
    decreases hi - lo
  {
    if lo == hi then {} else Range(lo, hi - 1) + {hi - 1}
  }

  ghost function Image(fds: seq<int>, at: set<int>): set<int>
    requires forall j :: j in at ==> 0 <= j < |fds|
  {
    set j | j in at :: fds[j]
  }

  /** Pigeonhole: no more values than positions, and as many if no value repeats. */
  lemma {:induction false} ImageSize(fds: seq<int>, at: set<int>)
    requires forall j :: j in at ==> 0 <= j < |fds|
    ensures |Image(fds, at)| <= |at|
    ensures (forall j, k :: j in at && k in at && j != k ==> fds[j] != fds[k]) ==> |Image(fds, at)| == |at|
    decreases |at|
  {
    if at != {} {
      var j := Member(at);
      ImageSize(fds, at - {j});
      assert Image(fds, at) == Image(fds, at - {j}) + {fds[j]};
    }
  }

  /** Values that do not repeat, as many as there are places for them, take every place. */
  lemma TakesAll(fds: seq<int>, from: int, lo: int, hi: int)
    requires 0 <= from <= |fds| && |fds| - from == hi - lo
    requires forall j :: from <= j < |fds| ==> lo <= fds[j] < hi
    requires forall j, k :: from <= j < k < |fds| ==> fds[j] != fds[k]
    ensures forall f :: lo <= f < hi ==> f in fds
  {
    var at := Range(from, |fds|);
    ImageSize(fds, at);
    SubsetSize(Image(fds, at), Range(lo, hi));
    forall f | lo <= f < hi ensures f in fds {
      assert f in Image(fds, at);
    }
  }

  /** Fewer than `hi - lo` mappings cannot fill `[lo, hi)`. */
  lemma RoomLeft(fds: seq<int>, at: set<int>, lo: int, hi: int)
    requires forall j :: j in at ==> 0 <= j < |fds|
    requires lo <= hi && |at| < hi - lo
    requires forall j :: 0 <= j < |fds| && lo <= fds[j] < hi ==> exists k :: k in at && fds[k] == fds[j]
    ensures exists f :: lo <= f < hi && f !in fds
  {
    ImageSize(fds, at);
    if forall f :: lo <= f < hi ==> f in fds {
      forall f | f in Range(lo, hi) ensures f in Image(fds, at) {
        assert f in fds;
        var j :| 0 <= j < |fds| && fds[j] == f;
        assert lo <= fds[j] < hi;
      }
      SubsetSize(Range(lo, hi), Image(fds, at));
    }
  }
}

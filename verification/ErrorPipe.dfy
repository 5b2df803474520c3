/**
 Which mapping the helper's error descriptor ends on. Several mappings may have come in on that
 descriptor; they share it until one of them is moved alone, and the error descriptor goes with it.
 */
module ErrorPipe {
  import opened FdTable
  import opened Counting
  import opened RedirectPlan

  /** Where the helper follows its error descriptor to. */
  function Follow(e: int, op: FdOp): int {
    match op
    case Dup(from, to) => if from == e then to else e
    case Move(from, to) => if from == e then to else e
    case DevNullAt(_) => e
    case CloseFrom(_) => e
  }

  function ErrorAfter(e: int, ops: seq<FdOp>): int {
    if ops == [] then e else Follow(ErrorAfter(e, ops[..|ops| - 1]), ops[|ops| - 1])
  }

  lemma {:induction false} ErrorAppend(e: int, ops: seq<FdOp>, op: FdOp)
    ensures ErrorAfter(e, ops + [op]) == Follow(ErrorAfter(e, ops), op)
  {
    assert (ops + [op])[..|ops|] == ops;
  }

  /** A program that succeeds leaves the error descriptor there, in every process. */
  lemma {:induction false} RunFollows(p: Process, ops: seq<FdOp>, clears: bool)
    requires Run(p, ops, clears).ok
    ensures Run(p, ops, clears).process.errorFd == ErrorAfter(p.errorFd, ops)
  {
    if ops != [] {
      RunFollows(p, ops[..|ops| - 1], clears);
    }
  }

  // ---------------------------------------------------------------------------------------
  // The heir.

  /** The first mapping on `e`, from `from` on, or the number of mappings if there is none. */
  function FirstOn(fds: seq<int>, e: int, from: nat): (r: nat)
    requires from <= |fds|
    ensures from <= r <= |fds| && (r < |fds| ==> fds[r] == e)
    ensures forall k :: from <= k < r ==> fds[k] != e
    decreases |fds| - from
  {
    if from == |fds| || fds[from] == e then from else FirstOn(fds, e, from + 1)
  }

  /** The mappings on `e` are below `n` once the first loop has moved them off 0, 1 and 2. */
  predicate Near(fds0: seq<int>, e: int)
    requires e in fds0
  {
    MoveAway(Plan(fds0, []), 0).fds[FirstOn(fds0, e, 0)] < |fds0|
  }

  /**
   The mapping that keeps the error descriptor: the first that came in on it; but if they all are
   beyond `n` they first move together, and then it is the second, if there is one.
   */
  function Heir(fds0: seq<int>, e: int): (r: nat)
    requires e in fds0
    ensures r < |fds0| && fds0[r] == e
  {
    var first := FirstOn(fds0, e, 0);
    var second := FirstOn(fds0, e, first + 1);
    if Near(fds0, e) || second == |fds0| then first else second
  }

  /** The mappings that came in on `e0`, and no others, are on `e`. */
  ghost predicate Whole(fds0: seq<int>, e0: int, fds: seq<int>, e: int) {
    && |fds| == |fds0| && e >= 0
    && forall i :: 0 <= i < |fds| ==> (fds[i] == e <==> fds0[i] == e0)
  }

  /** Mapping `w` alone is on `e`. */
  ghost predicate Owned(fds: seq<int>, e: int, w: nat) {
    e >= 0 && w < |fds| && forall i :: 0 <= i < |fds| ==> (fds[i] == e <==> i == w)
  }

  /** Where the error descriptor is when the mappings below `i` have had their turn. */
  ghost predicate Tracks(fds0: seq<int>, e0: int, fds: seq<int>, e: int, i: nat)
    requires e0 in fds0
  {
    && |fds| == |fds0|
    && if i <= FirstOn(fds0, e0, 0) then Whole(fds0, e0, fds, e) && (Near(fds0, e0) <==> e < |fds|)
       else if i <= Heir(fds0, e0) then Whole(fds0, e0, fds, e) && e < |fds|
       else Owned(fds, e, Heir(fds0, e0))
  }

  /** Among the mappings that share the descriptor, only the first two can have their turn before it is settled. */
  lemma {:induction false} TurnOf(fds0: seq<int>, e0: int, i: nat)
    requires e0 in fds0 && i < |fds0| && (fds0[i] == e0 || i == Heir(fds0, e0))
    ensures i <= FirstOn(fds0, e0, 0) ==> i == FirstOn(fds0, e0, 0)
    ensures FirstOn(fds0, e0, 0) < i <= Heir(fds0, e0) ==> i == Heir(fds0, e0)
  {
  }

  lemma {:induction false} WholeAlone(fds0: seq<int>, e0: int, fds: seq<int>, e: int)
    requires e0 in fds0 && Whole(fds0, e0, fds, e) && FirstOn(fds0, e0, FirstOn(fds0, e0, 0) + 1) == |fds0|
    ensures Owned(fds, e, FirstOn(fds0, e0, 0))
  {
  }

  /** A mapping that is not on the error descriptor does not matter. */
  lemma {:induction false} TrackOther(fds0: seq<int>, e0: int, fds: seq<int>, fds': seq<int>, e: int, i: nat)
    requires e0 in fds0 && Tracks(fds0, e0, fds, e, i) && i < |fds| == |fds'| && fds[i] != e
    requires forall j :: 0 <= j < |fds| ==> (fds'[j] == e <==> fds[j] == e)
    ensures Tracks(fds0, e0, fds', e, i + 1)
  {
  }

  /** The first of a far group takes it along. */
  lemma {:induction false} TrackGroup(fds0: seq<int>, e0: int, fds: seq<int>, i: nat, to: nat)
    requires e0 in fds0 && |fds| == |fds0| && i < |fds| && Whole(fds0, e0, fds, fds[i])
    requires i == FirstOn(fds0, e0, 0) && !Near(fds0, e0) && to !in fds && to < |fds|
    ensures Tracks(fds0, e0, Remap(fds, fds[i], to), to, i + 1)
  {
    var fds' := Remap(fds, fds[i], to);
    assert Whole(fds0, e0, fds', to);
    if Heir(fds0, e0) == i {
      WholeAlone(fds0, e0, fds', to);
    }
  }

  /** A mapping that is moved. */
  lemma {:induction false} TrackShift(fds0: seq<int>, e0: int, fds: seq<int>, e: int, i: nat, to: nat)
    requires e0 in fds0 && Tracks(fds0, e0, fds, e, i)
    requires i < |fds| && fds[i] >= 0 && to !in fds && to < |fds|
    ensures Tracks(fds0, e0, Shifted(fds, i, to), Follow(e, ShiftOp(fds, i, to)), i + 1)
  {
    var fds' := Shifted(fds, i, to);
    assert fds[Heir(fds0, e0)] == e;
    if fds[i] != e {
      TrackOther(fds0, e0, fds, fds', e, i);
    } else {
      TurnOf(fds0, e0, i);
      if i == FirstOn(fds0, e0, 0) && !Near(fds0, e0) {
        TrackGroup(fds0, e0, fds, i, to);
      } else {
        assert Owned(fds', to, i);
      }
    }
  }

  /** A mapping that is missing, or stays because it is alone where it is. */
  lemma {:induction false} TrackSkip(fds0: seq<int>, e0: int, fds: seq<int>, e: int, i: nat)
    requires e0 in fds0 && Tracks(fds0, e0, fds, e, i)
    requires i < |fds| && (fds[i] < 0 || Alone(fds, i))
    ensures Tracks(fds0, e0, fds, e, i + 1)
  {
    CountedOnce(fds, i);
    if fds[i] != e {
      TrackOther(fds0, e0, fds, fds, e, i);
    } else {
      var first := FirstOn(fds0, e0, 0);
      TurnOf(fds0, e0, i);
      assert fds[first] == e;
      var second := FirstOn(fds0, e0, first + 1);
      assert second == |fds0|;
      WholeAlone(fds0, e0, fds, e);
    }
  }

  // ---------------------------------------------------------------------------------------
  // The loops.

  lemma {:induction false} AwayTracks(fds0: seq<int>, e0: int, plan: Plan, i: nat)
    requires e0 in fds0 && i <= |fds0| && Whole(fds0, e0, plan.fds, ErrorAfter(e0, plan.ops))
    ensures var r := MoveAway(plan, i); Whole(fds0, e0, r.fds, ErrorAfter(e0, r.ops))
    decreases |fds0| - i
  {
    if i < |fds0| {
      if 0 <= plan.fds[i] <= 2 {
        var to := FirstFree(plan.fds, 3);
        var next := Plan(Remap(plan.fds, plan.fds[i], to), plan.ops + [Dup(plan.fds[i], to)]);
        ErrorAppend(e0, plan.ops, Dup(plan.fds[i], to));
        assert plan.fds[FirstOn(fds0, e0, 0)] == ErrorAfter(e0, plan.ops);
        AwayTracks(fds0, e0, next, i + 1);
      } else {
        AwayTracks(fds0, e0, plan, i + 1);
      }
    }
  }

  lemma {:induction false} PlaceTrack(fds0: seq<int>, e0: int, plan: Plan, i: nat)
    requires e0 in fds0 && |plan.fds| == |fds0| >= 3 && i < 3 && (plan.fds[i] >= 0 ==> i !in plan.fds)
    requires Tracks(fds0, e0, plan.fds, ErrorAfter(e0, plan.ops), i)
    ensures var next := PlaceNext(plan, i); Tracks(fds0, e0, next.fds, ErrorAfter(e0, next.ops), i + 1)
  {
    if plan.fds[i] >= 0 {
      ErrorAppend(e0, plan.ops, ShiftOp(plan.fds, i, i));
      TrackShift(fds0, e0, plan.fds, ErrorAfter(e0, plan.ops), i, i);
    } else {
      TrackSkip(fds0, e0, plan.fds, ErrorAfter(e0, plan.ops), i);
    }
  }

  lemma {:induction false} PlaceTracks(fds0: seq<int>, e0: int, plan: Plan, i: nat)
    requires e0 in fds0 && |plan.fds| == |fds0| >= 3 && i <= 3 && Placed(fds0, plan.fds, plan.ops, i)
    requires Tracks(fds0, e0, plan.fds, ErrorAfter(e0, plan.ops), i)
    ensures var r := PlaceStandard(plan, i); Tracks(fds0, e0, r.fds, ErrorAfter(e0, r.ops), 3)
    decreases 3 - i
  {
    if i < 3 {
      var next := PlacedNext(fds0, plan, i);
      PlaceTrack(fds0, e0, plan, i);
      PlaceTracks(fds0, e0, next, i + 1);
    }
  }

  /** What the third loop does with a descriptor. */
  function ClearNext(plan: Plan, fd: nat): Plan {
    if fd in plan.fds then plan.(ops := plan.ops + [Dup(fd, fd)]) else plan
  }

  lemma {:induction false} ClearTrack(e0: int, plan: Plan, fd: nat)
    ensures ErrorAfter(e0, ClearNext(plan, fd).ops) == ErrorAfter(e0, plan.ops)
  {
    ErrorAppend(e0, plan.ops, Dup(fd, fd));
  }

  lemma {:induction false} ClearTracks(e0: int, plan: Plan, fd: nat)
    requires fd <= |plan.fds|
    ensures ErrorAfter(e0, RemoveCloexec(plan, fd).ops) == ErrorAfter(e0, plan.ops)
    decreases |plan.fds| - fd
  {
    if fd < |plan.fds| {
      ClearTrack(e0, plan, fd);
      ClearTracks(e0, ClearNext(plan, fd), fd + 1);
    }
  }

  lemma {:induction false} ClearStays(plan: Plan, fd: nat)
    requires fd <= |plan.fds|
    ensures RemoveCloexec(plan, fd).fds == plan.fds
    decreases |plan.fds| - fd
  {
    if fd < |plan.fds| {
      ClearStays(ClearNext(plan, fd), fd + 1);
    }
  }

  lemma {:induction false} FillTracks(fds0: seq<int>, e0: int, plan: Plan, i: nat)
    requires e0 in fds0 && |plan.fds| == |fds0| >= i >= 3 && Packed(fds0, plan.fds, plan.ops, i)
    requires forall j :: 3 <= j < |fds0| ==> fds0[j] >= 0
    requires Tracks(fds0, e0, plan.fds, ErrorAfter(e0, plan.ops), i)
    ensures var r := FillRange(plan, i); Tracks(fds0, e0, r.fds, ErrorAfter(e0, r.ops), |fds0|)
    decreases |fds0| - i
  {
    if i < |fds0| {
      var next := FillTrack(fds0, e0, plan, i);
      FillTracks(fds0, e0, next, i + 1);
    }
  }

  lemma {:induction false} FillTrack(fds0: seq<int>, e0: int, plan: Plan, i: nat) returns (next: Plan)
    requires e0 in fds0 && |plan.fds| == |fds0| > i >= 3 && Packed(fds0, plan.fds, plan.ops, i)
    requires forall j :: 3 <= j < |fds0| ==> fds0[j] >= 0
    requires Tracks(fds0, e0, plan.fds, ErrorAfter(e0, plan.ops), i)
    ensures |next.fds| == |fds0| && Packed(fds0, next.fds, next.ops, i + 1) && FillRange(plan, i) == FillRange(next, i + 1)
    ensures Tracks(fds0, e0, next.fds, ErrorAfter(e0, next.ops), i + 1)
  {
    next := FillStep(fds0, plan, i);
    FillTrackNext(fds0, e0, plan, i);
  }

  lemma {:induction false} FillTrackNext(fds0: seq<int>, e0: int, plan: Plan, i: nat)
    requires e0 in fds0 && |plan.fds| == |fds0| > i >= 3 && plan.fds[i] >= 0
    requires Homed(plan.fds) && Tracks(fds0, e0, plan.fds, ErrorAfter(e0, plan.ops), i)
    ensures var next := FillNext(plan, i); Tracks(fds0, e0, next.fds, ErrorAfter(e0, next.ops), i + 1)
  {
    var e := ErrorAfter(e0, plan.ops);
    if Alone(plan.fds, i) {
      TrackSkip(fds0, e0, plan.fds, e, i);
    } else {
      var to := FirstFree(plan.fds, 3);
      SlotLeft(plan.fds, i);
      ErrorAppend(e0, plan.ops, ShiftOp(plan.fds, i, to));
      TrackShift(fds0, e0, plan.fds, e, i, to);
    }
  }

  lemma {:induction false} MissingTracks(e0: int, plan: Plan, k: nat)
    requires k <= 3
    ensures ErrorAfter(e0, FillMissing(plan, k).ops) == ErrorAfter(e0, plan.ops)
    decreases 3 - k
  {
    if k < 3 {
      ErrorAppend(e0, plan.ops, DevNullAt(k));
      MissingTracks(e0, if k in plan.fds then plan else plan.(ops := plan.ops + [DevNullAt(k)]), k + 1);
    }
  }

  /** The whole program takes the error descriptor to its heir, whatever shares it. */
  lemma {:induction false} HeirKeeps(fds0: seq<int>, e0: int)
    requires Given(fds0) && e0 >= 0 && e0 in fds0
    ensures ErrorAfter(e0, Redirect(fds0).ops) == Redirect(fds0).fds[Heir(fds0, e0)]
  {
    GatherTracks(fds0, e0);
    GatherKeeps(fds0);
    FillTracks(fds0, e0, Gather(fds0), 3);
    var packed := FillRange(Gather(fds0), 3);
    ErrorAppend(e0, packed.ops, CloseFrom(|fds0|));
    MissingTracks(e0, packed.(ops := packed.ops + [CloseFrom(|fds0|)]), 0);
  }

  lemma {:induction false} GatherTracks(fds0: seq<int>, e0: int)
    requires |fds0| >= 3 && e0 >= 0 && e0 in fds0
    ensures Tracks(fds0, e0, Gather(fds0).fds, ErrorAfter(e0, Gather(fds0).ops), 3)
  {
    var start := Plan(fds0, []);
    AwayTracks(fds0, e0, start, 0);
    AwayStart(fds0);
    MoveAwayKeeps(fds0, start, 0);
    var away := MoveAway(start, 0);
    PlaceTracks(fds0, e0, away, 0);
    ClearTracks(e0, PlaceStandard(away, 0), 3);
    ClearStays(PlaceStandard(away, 0), 3);
  }

  /** A descriptor from 3 on is not moved by the first loop, so its number decides. */
  lemma {:induction false} NearMeans(fds0: seq<int>, e0: int)
    requires e0 >= 3 && e0 in fds0
    ensures Near(fds0, e0) <==> e0 < |fds0|
  {
    HighStays(Plan(fds0, []), 0, FirstOn(fds0, e0, 0));
  }

  lemma {:induction false} HighStays(plan: Plan, i: nat, j: nat)
    requires i <= |plan.fds| && j < |plan.fds| && plan.fds[j] >= 3
    ensures MoveAway(plan, i).fds[j] == plan.fds[j]
    decreases |plan.fds| - i
  {
    if i < |plan.fds| {
      if 0 <= plan.fds[i] <= 2 {
        var to := FirstFree(plan.fds, 3);
        HighStays(Plan(Remap(plan.fds, plan.fds[i], to), plan.ops + [Dup(plan.fds[i], to)]), i + 1, j);
      } else {
        HighStays(plan, i + 1, j);
      }
    }
  }
}

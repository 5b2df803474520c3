/** What the program of `redirect_mappings` leaves open on the way, before it closes the rest. */
module Leftovers {
  import opened FdTable
  import opened Relocation
  import opened Counting
  import opened RedirectPlan

  /** From 3 on, a descriptor is open only if a mapping is on it, or was open already and none started on it. */
  ghost predicate Tidy(p: Process, fds0: seq<int>, fds: seq<int>, t: Table) {
    forall f :: f >= 3 && f in t ==> f in fds || (f in p.fds && f !in fds0)
  }

  ghost predicate TidyRun(p: Process, fds0: seq<int>, plan: Plan, clears: bool) {
    var r := Run(p, plan.ops, clears);
    r.ok ==> Tidy(p, fds0, plan.fds, r.process.fds)
  }

  /** A DUP must leave someone behind, unless it is from a standard descriptor. */
  lemma {:induction false} TidyStep(p: Process, fds0: seq<int>, plan: Plan, fds': seq<int>, from: nat, to: nat, op: FdOp, clears: bool)
    requires TidyRun(p, fds0, plan, clears) && Relocated(plan.fds, fds', from, to)
    requires op == Move(from, to) || (op == Dup(from, to) && (from < 3 || from in fds'))
    ensures TidyRun(p, fds0, Plan(fds', plan.ops + [op]), clears)
  {
    RunAppend(p, plan.ops, op, clears);
    var r, r' := Run(p, plan.ops, clears), Run(p, plan.ops + [op], clears);
    if r'.ok {
      forall f | f >= 3 && f in r'.process.fds ensures f in fds' || (f in p.fds && f !in fds0) {
        if f != to && f in plan.fds {
          var i :| 0 <= i < |plan.fds| && plan.fds[i] == f;
          assert f != from ==> fds'[i] == f;
        }
      }
    }
  }

  lemma {:induction false} AwayTidy(p: Process, fds0: seq<int>, plan: Plan, i: nat, clears: bool)
    requires TidyRun(p, fds0, plan, clears) && i <= |plan.fds|
    ensures TidyRun(p, fds0, MoveAway(plan, i), clears)
    decreases |plan.fds| - i
  {
    if i < |plan.fds| {
      var from, to := plan.fds[i], FirstFree(plan.fds, 3);
      if 0 <= from <= 2 {
        var next := Plan(Remap(plan.fds, from, to), plan.ops + [Dup(from, to)]);
        RemapRelocates(plan.fds, i, to);
        TidyStep(p, fds0, plan, next.fds, from, to, Dup(from, to), clears);
        AwayTidy(p, fds0, next, i + 1, clears);
      } else {
        AwayTidy(p, fds0, plan, i + 1, clears);
      }
    }
  }

  lemma {:induction false} ShiftTidy(p: Process, fds0: seq<int>, plan: Plan, i: nat, to: nat, clears: bool)
    requires TidyRun(p, fds0, plan, clears) && i < |plan.fds| && plan.fds[i] >= 0 && to !in plan.fds
    ensures TidyRun(p, fds0, Shift(plan, i, to), clears)
  {
    ShiftRelocates(plan.fds, i, to);
    TidyStep(p, fds0, plan, Shifted(plan.fds, i, to), plan.fds[i], to, ShiftOp(plan.fds, i, to), clears);
  }

  lemma {:induction false} PlaceTidy(p: Process, fds0: seq<int>, plan: Plan, i: nat, clears: bool)
    requires |plan.fds| == |fds0| >= 3 && i <= 3 && Placed(fds0, plan.fds, plan.ops, i)
    requires TidyRun(p, fds0, plan, clears)
    ensures TidyRun(p, fds0, PlaceStandard(plan, i), clears)
    decreases 3 - i
  {
    if i < 3 {
      var next := PlacedNext(fds0, plan, i);
      if plan.fds[i] >= 0 {
        ShiftTidy(p, fds0, plan, i, i, clears);
      }
      PlaceTidy(p, fds0, next, i + 1, clears);
    }
  }

  lemma {:induction false} ClearTidy(p: Process, fds0: seq<int>, plan: Plan, fd: nat, clears: bool)
    requires TidyRun(p, fds0, plan, clears) && fd <= |plan.fds|
    ensures TidyRun(p, fds0, RemoveCloexec(plan, fd), clears)
    decreases |plan.fds| - fd
  {
    if fd < |plan.fds| {
      if fd in plan.fds {
        RunAppend(p, plan.ops, Dup(fd, fd), clears);
        ClearTidy(p, fds0, plan.(ops := plan.ops + [Dup(fd, fd)]), fd + 1, clears);
      } else {
        ClearTidy(p, fds0, plan, fd + 1, clears);
      }
    }
  }

  lemma {:induction false} FillTidy(p: Process, fds0: seq<int>, plan: Plan, i: nat, clears: bool)
    requires |plan.fds| == |fds0| >= i >= 3 && Packed(fds0, plan.fds, plan.ops, i)
    requires forall j :: 3 <= j < |fds0| ==> fds0[j] >= 0
    requires TidyRun(p, fds0, plan, clears)
    ensures TidyRun(p, fds0, FillRange(plan, i), clears)
    decreases |fds0| - i
  {
    if i < |fds0| {
      var next := FillStep(fds0, plan, i);
      if !Alone(plan.fds, i) {
        ShiftTidy(p, fds0, plan, i, FirstFree(plan.fds, 3), clears);
      }
      FillTidy(p, fds0, next, i + 1, clears);
    }
  }

  /**
   No descriptor from 3 on is left open when its last mapping has gone elsewhere: neither once the standard
   mappings are in place, nor once the range is filled, before the rest is closed.
   */
  lemma {:induction false} NothingStranded(p: Process, fds0: seq<int>, clears: bool)
    requires Given(fds0)
    ensures TidyRun(p, fds0, PlaceStandard(MoveAway(Plan(fds0, []), 0), 0), clears)
    ensures TidyRun(p, fds0, FillRange(Gather(fds0), 3), clears)
  {
    var start := Plan(fds0, []);
    var away := MoveAway(start, 0);
    AwayStart(fds0);
    MoveAwayKeeps(fds0, start, 0);
    AwayTidy(p, fds0, start, 0, clears);
    PlaceTidy(p, fds0, away, 0, clears);
    ClearTidy(p, fds0, PlaceStandard(away, 0), 3, clears);
    GatherKeeps(fds0);
    FillTidy(p, fds0, Gather(fds0), 3, clears);
  }
}

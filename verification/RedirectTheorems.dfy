/** What running the plan of `redirect_mappings` means for every process, in plain terms. */
module RedirectTheorems {
  import opened FdTable
  import opened Relocation
  import opened Counting
  import opened RedirectPlan
  import opened Redirect
  import opened VforkHelper
  import opened ErrorPipe

  /** No two mappings that are given end on the same descriptor. */
  ghost predicate AllDistinct(fds: seq<int>) {
    forall i, j :: 0 <= i < j < |fds| && fds[i] >= 0 && fds[j] >= 0 ==> fds[i] != fds[j]
  }

  /** The exact number of operations, and that the buffer always holds them. */
  lemma OperationCount(fds0: seq<int>)
    requires Given(fds0)
    ensures |RedirectPlan.Redirect(fds0).ops| == |fds0| + 1 + LowNamed(fds0) <= MAX_OPERATIONS
  {
    RedirectCorrect(fds0);
  }

  /** Clearing close-on-exec and filling the range take one operation per non-standard mapping. */
  lemma RangeOperationCount(fds0: seq<int>)
    requires Given(fds0)
    ensures var placed := PlaceStandard(MoveAway(Plan(fds0, []), 0), 0);
            |FillRange(RemoveCloexec(placed, 3), 3).ops| == |placed.ops| + |fds0| - 3
  {
    AwayStart(fds0);
    MoveAwayKeeps(fds0, Plan(fds0, []), 0);
    var away := MoveAway(Plan(fds0, []), 0);
    PlaceStandardKeeps(fds0, away, 0);
    PackedCount(fds0);
  }

  lemma PackedCount(fds0: seq<int>)
    requires Given(fds0)
    ensures |FillRange(Gather(fds0), 3).ops| == LowNamed(fds0) + Present(fds0, 3) + |fds0| - 3
  {
    GatherKeeps(fds0);
    FillRangeKeeps(fds0, Gather(fds0), 3);
    var packed := FillRange(Gather(fds0), 3);
    PackedSettles(fds0, packed.fds, packed.ops);
  }

  /** Where the mappings end: apart, in range, the standard ones where they want to be. */
  lemma FinalMappings(fds0: seq<int>)
    requires Given(fds0)
    ensures var fds := RedirectPlan.Redirect(fds0).fds;
            && |fds| == |fds0| && AllDistinct(fds)
            && (forall i :: 0 <= i < |fds| ==> fds[i] < |fds| && (fds[i] < 0 <==> fds0[i] < 0))
            && (forall m :: 0 <= m < 3 && fds0[m] >= 0 ==> fds[m] == m)
  {
    RedirectCorrect(fds0);
  }

  /**
   The fuzzer's assertions, for every table: the program fails exactly if a mapping named a
   closed descriptor; otherwise 0 to n-1 are open and nothing else, none closes on exec, every
   mapping has its file and every missing standard descriptor is a null device.
   */
  lemma FuzzerPostconditions(p: Process, fds0: seq<int>)
    requires Given(fds0)
    ensures var plan := RedirectPlan.Redirect(fds0);
            var r := Run(p, plan.ops, true);
            && (r.ok <==> NamesOpen(fds0, p.fds))
            && (r.ok ==>
                  && r.process.fds.Keys == Range(0, |fds0|)
                  && (forall f :: f in r.process.fds ==> !r.process.fds[f].cloexec)
                  && (forall i :: 0 <= i < |fds0| && fds0[i] >= 0 ==>
                        plan.fds[i] in r.process.fds && r.process.fds[plan.fds[i]].file == p.fds[fds0[i]].file)
                  && (forall m :: 0 <= m < 3 && fds0[m] < 0 ==> r.process.fds[m].file == DevNull))
  {
    RedirectCorrect(fds0);
    var plan := RedirectPlan.Redirect(fds0);
    assert ClosedRun(p, fds0, plan.fds, plan.ops, 3, true);
    if NamesOpen(fds0, p.fds) {
      FinalTable(p, fds0, plan.fds, Run(p, plan.ops, true).process.fds, true);
    }
  }

  lemma {:induction false} FinalKeys(p: Process, fds0: seq<int>, fds: seq<int>, t: Table, clears: bool)
    requires Settles(fds0, fds) && ClosedTable(p, fds0, fds, t, 3, clears)
    ensures t.Keys == Range(0, |fds0|) && forall f :: 3 <= f < |fds0| ==> f in fds
  {
    TakesAll(fds, 3, 3, |fds|);
    forall f: int ensures f in t <==> 0 <= f < |fds0| {
    }
  }

  lemma {:induction false} FinalFlag(p: Process, fds0: seq<int>, fds: seq<int>, t: Table, clears: bool, f: int)
    requires |fds| == |fds0| >= 3 && ClosedTable(p, fds0, fds, t, 3, clears) && f in t && (f >= 3 ==> f in fds)
    ensures t[f].cloexec <==> f >= 3 && KeepsCloexec(p, fds0, f, clears)
  {
    if f !in fds {
      assert t[f] == Entry(DevNull, false);
    }
  }

  /** The table at the end, from what the closing loops establish. */
  lemma {:induction false} FinalTable(p: Process, fds0: seq<int>, fds: seq<int>, t: Table, clears: bool)
    requires Settles(fds0, fds) && ClosedTable(p, fds0, fds, t, 3, clears)
    ensures t.Keys == Range(0, |fds0|)
    ensures forall f :: f in t ==> (t[f].cloexec <==> f >= 3 && KeepsCloexec(p, fds0, f, clears))
    ensures forall m :: 0 <= m < 3 && fds0[m] < 0 ==> m in t && t[m].file == DevNull
  {
    FinalKeys(p, fds0, fds, t, clears);
    forall f | f in t ensures t[f].cloexec <==> f >= 3 && KeepsCloexec(p, fds0, f, clears) {
      FinalFlag(p, fds0, fds, t, clears, f);
    }
    forall m | 0 <= m < 3 && fds0[m] < 0 ensures m in t && t[m].file == DevNull {
      assert m !in fds;
    }
  }

  /**
   The helper skips a DUP of a descriptor onto itself, so a close-on-exec flag can survive:
   none does exactly if no non-standard mapping came in on a flagged descriptor of `[3, n)`.
   */
  lemma HelperCloexec(p: Process, fds0: seq<int>)
    requires Given(fds0) && NamesOpen(fds0, p.fds)
    ensures var r := Run(p, RedirectPlan.Redirect(fds0).ops, false);
            && r.ok && r.process.fds.Keys == Range(0, |fds0|)
            && ((forall f :: f in r.process.fds ==> !r.process.fds[f].cloexec) <==>
                (forall j :: 3 <= j < |fds0| && 3 <= fds0[j] < |fds0| ==> !p.fds[fds0[j]].cloexec))
  {
    RedirectCorrect(fds0);
    var plan := RedirectPlan.Redirect(fds0);
    assert ClosedRun(p, fds0, plan.fds, plan.ops, 3, false);
    var t := Run(p, plan.ops, false).process.fds;
    FinalTable(p, fds0, plan.fds, t, false);
    FlagsKept(p, fds0, t);
  }

  lemma FlagsKept(p: Process, fds0: seq<int>, t: Table)
    requires Given(fds0) && NamesOpen(fds0, p.fds) && t.Keys == Range(0, |fds0|)
    requires forall f :: f in t ==> (t[f].cloexec <==> f >= 3 && KeepsCloexec(p, fds0, f, false))
    ensures (forall f :: f in t ==> !t[f].cloexec) <==>
            (forall j :: 3 <= j < |fds0| && 3 <= fds0[j] < |fds0| ==> !p.fds[fds0[j]].cloexec)
  {
    if j :| 3 <= j < |fds0| && 3 <= fds0[j] < |fds0| && p.fds[fds0[j]].cloexec {
      assert fds0[j] in Range(0, |fds0|);
      assert t[fds0[j]].cloexec;
    }
    if f :| f in t && t[f].cloexec {
      var j :| 3 <= j < |fds0| && fds0[j] == f;
    }
  }

  /** No descriptor that is flagged comes through an exec, and then none is flagged at the end either. */
  lemma HelperUnflagged(p: Process, fds0: seq<int>)
    requires Given(fds0) && NamesOpen(fds0, p.fds) && forall f :: f in p.fds ==> !p.fds[f].cloexec
    ensures var r := Run(p, RedirectPlan.Redirect(fds0).ops, false);
            r.ok && forall f :: f in r.process.fds ==> !r.process.fds[f].cloexec
  {
    HelperCloexec(p, fds0);
  }

  /** In the fuzzer's table, where every descriptor is flagged, skipping would leave a flag: one mapping on 3. */
  lemma SkippingKeepsFlag()
    ensures var p := Process(map[3 := Entry(Inherited(0), true)], -1);
            var r := Run(p, RedirectPlan.Redirect([-1, -1, -1, 3]).ops, false);
            r.ok && exists f :: f in r.process.fds && r.process.fds[f].cloexec
  {
    var p, fds0 := Process(map[3 := Entry(Inherited(0), true)], -1), [-1, -1, -1, 3];
    HelperCloexec(p, fds0);
    assert p.fds[fds0[3]].cloexec;
  }

  // ---------------------------------------------------------------------------------------
  // The error descriptor.

  /** It ends on its heir, whatever mappings share it. */
  lemma ErrorPipeEnds(p: Process, fds0: seq<int>, clears: bool)
    requires Given(fds0) && HasPipe(p, fds0)
    ensures var plan := RedirectPlan.Redirect(fds0);
            var r := Run(p, plan.ops, clears);
            r.ok && r.process.errorFd == plan.fds[Heir(fds0, p.errorFd)]
  {
    RedirectCorrect(fds0);
    var plan := RedirectPlan.Redirect(fds0);
    assert ClosedRun(p, fds0, plan.fds, plan.ops, 3, clears);
    RunFollows(p, plan.ops, clears);
    HeirKeeps(fds0, p.errorFd);
  }

  ghost predicate Unshared(fds: seq<int>, j: int)
    requires 0 <= j < |fds|
  {
    forall i :: 0 <= i < |fds| && i != j ==> fds[i] != fds[j]
  }

  /**
   After every prefix of the program the error descriptor is open on the pipe it was opened on;
   if no other mapping names that descriptor it ends on the descriptor of its own mapping.
   */
  lemma ErrorPipeFollowed(p: Process, fds0: seq<int>, clears: bool, k: nat, j: nat)
    requires Given(fds0) && HasPipe(p, fds0)
    requires j < |fds0| && fds0[j] == p.errorFd
    requires k <= |RedirectPlan.Redirect(fds0).ops|
    ensures HoldsPipe(p, Run(p, RedirectPlan.Redirect(fds0).ops[..k], clears))
    ensures Unshared(fds0, j) ==>
              Run(p, RedirectPlan.Redirect(fds0).ops, clears).process.errorFd == RedirectPlan.Redirect(fds0).fds[j]
  {
    RedirectCorrect(fds0);
    var plan := RedirectPlan.Redirect(fds0);
    assert FollowsPipe(p, fds0, plan.fds, plan.ops, clears);
    ErrorPipeEnds(p, fds0, clears);
  }

  /** Mapping `i` has its file once the error descriptor has been closed, too. */
  ghost predicate KeepsFile(p: Process, fds0: seq<int>, clears: bool, i: nat)
    requires Given(fds0) && NamesOpen(fds0, p.fds) && i < |fds0| && fds0[i] >= 0
  {
    var plan := RedirectPlan.Redirect(fds0);
    var q := Run(p, plan.ops, clears).process;
    var t := q.fds - {q.errorFd};
    plan.fds[i] in t && t[plan.fds[i]].file == p.fds[fds0[i]].file
  }

  /** Closing the error descriptor before the exec costs its heir its file, and no other mapping. */
  lemma HeirLosesFile(p: Process, fds0: seq<int>, clears: bool, i: nat)
    requires Given(fds0) && HasPipe(p, fds0) && i < |fds0| && fds0[i] >= 0
    ensures KeepsFile(p, fds0, clears, i) <==> i != Heir(fds0, p.errorFd)
  {
    RedirectCorrect(fds0);
    FinalMappings(fds0);
    ErrorPipeEnds(p, fds0, clears);
    var plan, w := RedirectPlan.Redirect(fds0), Heir(fds0, p.errorFd);
    assert ClosedRun(p, fds0, plan.fds, plan.ops, 3, clears);
    assert i != w ==> plan.fds[i] != plan.fds[w];
  }

  /** So no mapping but the error pipe's own, `j`, loses its file if and only if `j` is the heir. */
  lemma PipeClosed(p: Process, fds0: seq<int>, clears: bool, j: nat)
    requires Given(fds0) && HasPipe(p, fds0) && j < |fds0| && fds0[j] == p.errorFd
    ensures (forall i: nat :: i < |fds0| && i != j && fds0[i] >= 0 ==> KeepsFile(p, fds0, clears, i)) <==>
            Heir(fds0, p.errorFd) == j
  {
    forall i: nat | i < |fds0| && fds0[i] >= 0 ensures KeepsFile(p, fds0, clears, i) <==> i != Heir(fds0, p.errorFd) {
      HeirLosesFile(p, fds0, clears, i);
    }
  }

  /** An error descriptor of its own is always safe to close. */
  lemma PipeClosedAlone(p: Process, fds0: seq<int>, clears: bool, j: nat, i: nat)
    requires Given(fds0) && HasPipe(p, fds0)
    requires j < |fds0| && fds0[j] == p.errorFd && Unshared(fds0, j)
    requires i < |fds0| && i != j && fds0[i] >= 0
    ensures KeepsFile(p, fds0, clears, i)
  {
    HeirLosesFile(p, fds0, clears, i);
  }

  /** A shared one need not be: with stdout and the error pipe both on 3, stdout is closed. */
  lemma PipeClosedShared(p: Process, fds0: seq<int>, clears: bool)
    requires p.errorFd == 3 && 3 in p.fds && fds0 == [-1, 3, -1, 3]
    ensures Given(fds0) && NamesOpen(fds0, p.fds) && !KeepsFile(p, fds0, clears, 1)
  {
    assert fds0[1] == 3;
    NearMeans(fds0, 3);
    HeirLosesFile(p, fds0, clears, 1);
  }

  /** But it can be: two mappings on 3, the first of which is the error pipe's. */
  lemma PipeClosedFirst(p: Process, fds0: seq<int>, clears: bool)
    requires p.errorFd == 3 && 3 in p.fds && fds0 == [-1, -1, -1, 3, 3]
    ensures Given(fds0) && NamesOpen(fds0, p.fds) && KeepsFile(p, fds0, clears, 4)
  {
    assert fds0[3] == 3;
    NearMeans(fds0, 3);
    HeirLosesFile(p, fds0, clears, 4);
  }

  /** An argument that ended in a uuid ends in the number of the descriptor with its file. */
  lemma ArgumentNamesFile(p: Process, fds0: seq<int>, ms: seq<Mapping>, ops: seq<FdOp>, clears: bool,
                          prefix: string, uuid: string)
    requires |fds0| == |ms| && WellNamed(ms) && |uuid| == UUID_LENGTH
    requires Redirected(fds0, Fds(ms), ops) && NamesOpen(fds0, p.fds)
    requires FirstOf(ms, uuid, 0) < |ms| && fds0[FirstOf(ms, uuid, 0)] >= 0
    ensures var j := FirstOf(ms, uuid, 0);
            var text := Adjusted(prefix + uuid, ms)[|prefix|..];
            var t := Run(p, ops, clears).process.fds;
            && Adjusted(prefix + uuid, ms)[..|prefix|] == prefix
            && DecimalValue(text) in t && t[DecimalValue(text)].file == p.fds[fds0[j]].file
  {
    var j := FirstOf(ms, uuid, 0);
    var arg := prefix + uuid;
    assert arg[|prefix|..] == uuid && arg[..|prefix|] == prefix;
    var r := Adjusted(arg, ms);
    assert r[|prefix|..] == Decimal(ms[j].currentFd);
    DecimalRoundTrip(ms[j].currentFd);
    assert ClosedRun(p, fds0, Fds(ms), ops, 3, clears);
    assert Fds(ms)[j] == ms[j].currentFd;
  }
}

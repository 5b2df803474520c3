/**
 `redirect_mappings` as the source writes it: loops that update the mappings and a table of
 use counts in place and append to a fixed buffer of operations. Each loop is proved to
 compute its part of `RedirectPlan`.
 */
module Redirect {
  import opened FdTable
  import opened Counting
  import opened RedirectPlan
  import opened Wrappers

  datatype Mapping = Mapping(uuid: Option<string>, currentFd: int, wantedFd: int)

  function Fds(ms: seq<Mapping>): (r: seq<int>)
    ensures |r| == |ms|
  {
    seq(|ms|, i requires 0 <= i < |ms| => ms[i].currentFd)
  }

  /** The first three mappings want 0, 1 and 2, the others want nothing in particular. */
  ghost predicate WantsStandard(ms: seq<Mapping>) {
    forall i :: 0 <= i < |ms| ==> ms[i].wantedFd == if i < 3 then i else -1
  }

  /** Only the descriptors of the mappings changed. */
  ghost predicate SameWants(ms0: seq<Mapping>, ms: seq<Mapping>) {
    && |ms| == |ms0|
    && forall i :: 0 <= i < |ms| ==> ms[i].uuid == ms0[i].uuid && ms[i].wantedFd == ms0[i].wantedFd
  }

  /** `used[f]` is the number of mappings on `f`, for every `f` below `hi`. */
  ghost predicate Counts(fds: seq<int>, used: seq<nat>, hi: nat) {
    && hi <= |used|
    && forall f :: 0 <= f < hi ==> used[f] == multiset(fds)[f]
  }

  /** Moves every mapping on `from` to `to` and says how many there were. */
  method RemapFds(mappings: array<Mapping>, from: int, to: int) returns (res: nat)
    modifies mappings
    ensures Fds(mappings[..]) == Remap(old(Fds(mappings[..])), from, to)
    ensures SameWants(old(mappings[..]), mappings[..])
    ensures res == multiset(old(Fds(mappings[..])))[from]
  {
    ghost var ms := mappings[..];
    res := 0;
    for i := 0 to mappings.Length
      invariant forall j :: i <= j < mappings.Length ==> mappings[j] == ms[j]
      invariant forall j :: 0 <= j < i ==>
        mappings[j] == if ms[j].currentFd == from then ms[j].(currentFd := to) else ms[j]
      invariant res == multiset(Fds(ms)[..i])[from]
    {
      assert Fds(ms)[..i + 1] == Fds(ms)[..i] + [ms[i].currentFd];
      if mappings[i].currentFd == from {
        mappings[i] := mappings[i].(currentFd := to);
        res := res + 1;
      }
    }
    assert Fds(ms)[..|ms|] == Fds(ms);
  }

  /** The initial counters: how many mappings sit on each descriptor below `MAX_OPERATIONS`. */
  method CountUsed(mappings: array<Mapping>) returns (used: array<nat>)
    ensures fresh(used) && used.Length == MAX_OPERATIONS
    ensures Counts(Fds(mappings[..]), used[..], MAX_OPERATIONS)
  {
    used := new nat[MAX_OPERATIONS](_ => 0);
    ghost var fds := Fds(mappings[..]);
    for i := 0 to mappings.Length
      invariant forall f :: 0 <= f < MAX_OPERATIONS ==> used[f] == multiset(fds[..i])[f]
      invariant Fds(mappings[..]) == fds
    {
      assert fds[..i + 1] == fds[..i] + [fds[i]];
      var fd := mappings[i].currentFd;
      if 0 <= fd < MAX_OPERATIONS {
        used[fd] := used[fd] + 1;
      }
    }
    assert fds[..|fds|] == fds;
  }

  /** Scans the counters from `from` on; `hi` bounds where they are up to date. */
  method ScanFree(used: array<nat>, from: nat, ghost fds: seq<int>, ghost hi: nat) returns (fd: nat)
    requires hi <= used.Length && Counts(fds, used[..], hi) && from <= FirstFree(fds, 3) < hi && 3 <= from
    ensures fd == FirstFree(fds, 3)
  {
    ghost var free := FirstFree(fds, 3);
    fd := from;
    assert used[..][free] == multiset(fds)[free];
    while used[fd] != 0
      invariant from <= fd <= free
      decreases free - fd
    {
      fd := fd + 1;
    }
    assert used[..][fd] == multiset(fds)[fd];
    FirstFreeIsFirst(fds, 3, fd);
  }

  method Emit(operations: array<FdOp>, count: nat, op: FdOp) returns (next: nat)
    requires count < operations.Length
    modifies operations
    ensures next == count + 1
    ensures operations[..next] == old(operations[..count]) + [op]
  {
    operations[count] := op;
    next := count + 1;
  }

  /** Moves everyone on the standard descriptor `current` to the first free one from 3 on. */
  method Vacate(mappings: array<Mapping>, used: array<nat>, current: nat) returns (fd: nat)
    requires used.Length == MAX_OPERATIONS && current <= 2
    requires Counts(Fds(mappings[..]), used[..], MAX_OPERATIONS)
    requires FirstFree(Fds(mappings[..]), 3) < MAX_OPERATIONS
    modifies mappings, used
    ensures SameWants(old(mappings[..]), mappings[..])
    ensures fd == FirstFree(old(Fds(mappings[..])), 3)
    ensures Fds(mappings[..]) == Remap(old(Fds(mappings[..])), current, fd)
    ensures Counts(Fds(mappings[..]), used[..], MAX_OPERATIONS)
  {
    ghost var fds := Fds(mappings[..]);
    fd := ScanFree(used, 3, fds, MAX_OPERATIONS);
    var changed := RemapFds(mappings, current, fd);
    used[current] := 0;
    used[fd] := changed;
    forall f | 0 <= f < MAX_OPERATIONS ensures used[f] == multiset(Fds(mappings[..]))[f] {
      RemapCounts(fds, current, fd, f);
    }
  }

  /** First loop: gets everything off the standard descriptors. */
  method MoveAllAway(mappings: array<Mapping>, used: array<nat>, operations: array<FdOp>) returns (count: nat)
    requires mappings.Length <= MAX_TOTAL_MAPPINGS
    requires used.Length == operations.Length == MAX_OPERATIONS
    requires Counts(Fds(mappings[..]), used[..], MAX_OPERATIONS)
    requires |MoveAway(Plan(Fds(mappings[..]), []), 0).ops| <= MAX_OPERATIONS
    modifies mappings, used, operations
    ensures SameWants(old(mappings[..]), mappings[..])
    ensures Counts(Fds(mappings[..]), used[..], MAX_OPERATIONS)
    ensures count <= operations.Length
    ensures Plan(Fds(mappings[..]), operations[..count]) == MoveAway(Plan(old(Fds(mappings[..])), []), 0)
  {
    ghost var ms0, goal := mappings[..], MoveAway(Plan(Fds(mappings[..]), []), 0);
    count := 0;
    assert operations[..0] == [];
    for i := 0 to mappings.Length
      invariant SameWants(ms0, mappings[..])
      invariant Counts(Fds(mappings[..]), used[..], MAX_OPERATIONS)
      invariant count <= operations.Length
      invariant MoveAway(Plan(Fds(mappings[..]), operations[..count]), i) == goal
    {
      var current := mappings[i].currentFd;
      if 0 <= current <= 2 {
        ghost var plan := Plan(Fds(mappings[..]), operations[..count]);
        RoomAway(plan.fds, i);
        MoveAwayGrows(plan, i);
        var fd := Vacate(mappings, used, current);
        count := Emit(operations, count, Dup(current, fd));
      }
    }
  }

  lemma {:induction false} MoveAwayGrows(plan: Plan, i: nat)
    requires i <= |plan.fds|
    ensures |plan.ops| <= |MoveAway(plan, i).ops|
    ensures i < |plan.fds| && 0 <= plan.fds[i] <= 2 ==> |plan.ops| < |MoveAway(plan, i).ops|
    decreases |plan.fds| - i
  {
    if i < |plan.fds| {
      if 0 <= plan.fds[i] <= 2 {
        var to := FirstFree(plan.fds, 3);
        MoveAwayGrows(Plan(Remap(plan.fds, plan.fds[i], to), plan.ops + [Dup(plan.fds[i], to)]), i + 1);
      } else {
        MoveAwayGrows(plan, i + 1);
      }
    }
  }

  /** The step both later loops share: a far group moves as a whole, a near mapping alone. */
  method ShiftTo(mappings: array<Mapping>, used: array<nat>, i: nat, to: nat) returns (op: FdOp)
    requires i < mappings.Length <= used.Length && to < mappings.Length
    requires mappings[i].currentFd >= 0 && to !in Fds(mappings[..])
    requires Counts(Fds(mappings[..]), used[..], mappings.Length)
    modifies mappings, used
    ensures SameWants(old(mappings[..]), mappings[..])
    ensures Fds(mappings[..]) == Shifted(old(Fds(mappings[..])), i, to)
    ensures op == ShiftOp(old(Fds(mappings[..])), i, to)
    ensures Counts(Fds(mappings[..]), used[..], mappings.Length)
  {
    ghost var fds := Fds(mappings[..]);
    var current := mappings[i].currentFd;
    CountedOnce(fds, i);
    if current >= mappings.Length {
      op := Move(current, to);
      var changed := RemapFds(mappings, current, to);
      used[to] := changed;
      forall f | 0 <= f < mappings.Length ensures used[f] == multiset(Fds(mappings[..]))[f] {
        RemapCounts(fds, current, to, f);
      }
    } else {
      mappings[i] := mappings[i].(currentFd := to);
      assert Fds(mappings[..]) == fds[i := to];
      used[current] := used[current] - 1;
      op := if used[current] == 0 then Move(current, to) else Dup(current, to);
      used[to] := 1;
    }
  }

  lemma ShiftKeepsLow(fds: seq<int>, i: nat)
    requires |fds| >= 3 > i && LowOwned(fds, i) && fds[i] >= 0
    ensures i !in fds
    ensures LowOwned(Shifted(fds, i, i), i + 1)
  {
    ShiftRelocates(fds, i, i);
  }

  /** Second loop: puts the standard mappings where they want to be. */
  method PlaceAll(mappings: array<Mapping>, used: array<nat>, operations: array<FdOp>, start: nat)
    returns (count: nat)
    requires 3 <= mappings.Length <= used.Length && operations.Length == MAX_OPERATIONS
    requires WantsStandard(mappings[..]) && LowOwned(Fds(mappings[..]), 0)
    requires Counts(Fds(mappings[..]), used[..], mappings.Length)
    requires start + 3 <= MAX_OPERATIONS
    modifies mappings, used, operations
    ensures SameWants(old(mappings[..]), mappings[..])
    ensures Counts(Fds(mappings[..]), used[..], mappings.Length)
    ensures count <= operations.Length
    ensures Plan(Fds(mappings[..]), operations[..count])
         == PlaceStandard(Plan(old(Fds(mappings[..])), old(operations[..start])), 0)
  {
    ghost var ms0, goal := mappings[..], PlaceStandard(Plan(Fds(mappings[..]), operations[..start]), 0);
    count := start;
    for i := 0 to mappings.Length
      invariant SameWants(ms0, mappings[..])
      invariant Counts(Fds(mappings[..]), used[..], mappings.Length)
      invariant LowOwned(Fds(mappings[..]), if i < 3 then i else 3)
      invariant count <= start + if i < 3 then i else 3
      invariant PlaceStandard(Plan(Fds(mappings[..]), operations[..count]), if i < 3 then i else 3) == goal
    {
      if mappings[i].currentFd >= 0 && mappings[i].wantedFd >= 0 {
        ShiftKeepsLow(Fds(mappings[..]), i);
        var op := ShiftTo(mappings, used, i, mappings[i].wantedFd);
        count := Emit(operations, count, op);
      }
    }
  }

  /** Third loop: clears close-on-exec on the descriptors of `[3, n)` that are in use. */
  method ClearAll(mappings: array<Mapping>, used: array<nat>, operations: array<FdOp>, start: nat)
    returns (count: nat)
    requires 3 <= mappings.Length <= used.Length && start <= operations.Length
    requires Counts(Fds(mappings[..]), used[..], mappings.Length)
    requires |RemoveCloexec(Plan(Fds(mappings[..]), operations[..start]), 3).ops| <= operations.Length
    modifies operations
    ensures count <= operations.Length
    ensures Plan(Fds(mappings[..]), operations[..count])
         == RemoveCloexec(Plan(Fds(mappings[..]), old(operations[..start])), 3)
  {
    ghost var fds := Fds(mappings[..]);
    ghost var goal := RemoveCloexec(Plan(fds, operations[..start]), 3);
    count := start;
    for fd := 3 to mappings.Length
      invariant count <= operations.Length
      invariant RemoveCloexec(Plan(fds, operations[..count]), fd) == goal
    {
      assert used[..][fd] == multiset(fds)[fd];
      if used[fd] != 0 {
        RemoveCloexecGrows(Plan(fds, operations[..count]), fd);
        count := Emit(operations, count, Dup(fd, fd));
      }
    }
  }

  lemma {:induction false} RemoveCloexecGrows(plan: Plan, fd: nat)
    requires fd <= |plan.fds|
    ensures |plan.ops| <= |RemoveCloexec(plan, fd).ops|
    ensures fd < |plan.fds| && fd in plan.fds ==> |plan.ops| < |RemoveCloexec(plan, fd).ops|
    decreases |plan.fds| - fd
  {
    if fd < |plan.fds| {
      RemoveCloexecGrows(if fd in plan.fds then plan.(ops := plan.ops + [Dup(fd, fd)]) else plan, fd + 1);
    }
  }

  /** A step of the last loop frees no slot, so `FirstFree` never goes back. */
  lemma FillKeeps(fds: seq<int>, i: nat)
    requires Homed(fds) && 3 <= i < |fds| && !Alone(fds, i)
    ensures var to := FirstFree(fds, 3);
            && 3 <= to < |fds| && to !in fds
            && Homed(Shifted(fds, i, to))
            && to <= FirstFree(Shifted(fds, i, to), 3)
  {
    SlotLeft(fds, i);
    var to := FirstFree(fds, 3);
    var fds' := Shifted(fds, i, to);
    ShiftRelocates(fds, i, to);
    ShiftKeepsFull(fds, i, to);
    var f := FirstFree(fds', 3);
    if f < to {
      assert f !in fds;
      FirstFreeIsFirst(fds, 3, f);
    }
  }

  method FillOne(mappings: array<Mapping>, used: array<nat>, operations: array<FdOp>, start: nat, i: nat, from: nat)
    returns (count: nat, fd: nat)
    requires i < mappings.Length <= used.Length && start < operations.Length
    requires mappings[i].currentFd >= 0
    requires Counts(Fds(mappings[..]), used[..], mappings.Length)
    requires 3 <= from <= FirstFree(Fds(mappings[..]), 3) < mappings.Length
    modifies mappings, used, operations
    ensures SameWants(old(mappings[..]), mappings[..])
    ensures Counts(Fds(mappings[..]), used[..], mappings.Length)
    ensures count == start + 1 && fd == FirstFree(old(Fds(mappings[..])), 3)
    ensures Plan(Fds(mappings[..]), operations[..count])
         == Shift(Plan(old(Fds(mappings[..])), old(operations[..start])), i, fd)
  {
    fd := ScanFree(used, from, Fds(mappings[..]), mappings.Length);
    var op := ShiftTo(mappings, used, i, fd);
    count := Emit(operations, start, op);
  }

  /** Fourth loop: gives every non-standard mapping a descriptor of its own in `[3, n)`. */
  method FillAll(mappings: array<Mapping>, used: array<nat>, operations: array<FdOp>, start: nat)
    returns (count: nat)
    requires mappings.Length <= used.Length && start <= operations.Length
    requires WantsStandard(mappings[..]) && Homed(Fds(mappings[..]))
    requires Counts(Fds(mappings[..]), used[..], mappings.Length)
    requires |FillRange(Plan(Fds(mappings[..]), operations[..start]), 3).ops| <= operations.Length
    modifies mappings, used, operations
    ensures SameWants(old(mappings[..]), mappings[..])
    ensures Counts(Fds(mappings[..]), used[..], mappings.Length)
    ensures count <= operations.Length
    ensures Plan(Fds(mappings[..]), operations[..count])
         == FillRange(Plan(old(Fds(mappings[..])), old(operations[..start])), 3)
  {
    ghost var ms0, goal := mappings[..], FillRange(Plan(Fds(mappings[..]), operations[..start]), 3);
    var n, lastFree := mappings.Length, 3;
    count := start;
    for i := 0 to n
      invariant SameWants(ms0, mappings[..])
      invariant Counts(Fds(mappings[..]), used[..], n)
      invariant Homed(Fds(mappings[..]))
      invariant count <= operations.Length
      invariant 3 <= lastFree <= FirstFree(Fds(mappings[..]), 3)
      invariant FillRange(Plan(Fds(mappings[..]), operations[..count]), if i < 3 then 3 else i) == goal
    {
      ghost var plan := Plan(Fds(mappings[..]), operations[..count]);
      var current := mappings[i].currentFd;
      if mappings[i].wantedFd < 0 {
        assert current < n ==> used[..][current] == multiset(plan.fds)[current];
        if !(current < n && used[current] == 1) {
          FillKeeps(plan.fds, i);
          FillRangeGrows(plan, i);
          count, lastFree := FillOne(mappings, used, operations, count, i, lastFree);
        }
      }
    }
  }

  lemma {:induction false} FillRangeGrows(plan: Plan, i: nat)
    requires i <= |plan.fds|
    ensures |plan.ops| <= |FillRange(plan, i).ops|
    ensures i < |plan.fds| && plan.fds[i] >= 0 && !Alone(plan.fds, i) ==> |plan.ops| < |FillRange(plan, i).ops|
    decreases |plan.fds| - i
  {
    if i < |plan.fds| {
      if plan.fds[i] < 0 || Alone(plan.fds, i) {
        FillRangeGrows(plan, i + 1);
      } else {
        FillRangeGrows(Shift(plan, i, FirstFree(plan.fds, 3)), i + 1);
      }
    }
  }

  /** Fifth loop: a null device for every standard descriptor that is missing. */
  method FillStandardFds(used: array<nat>, operations: array<FdOp>, start: nat, ghost fds: seq<int>)
    returns (count: nat)
    requires 3 <= used.Length && Counts(fds, used[..], 3) && start <= operations.Length
    requires |FillMissing(Plan(fds, operations[..start]), 0).ops| <= operations.Length
    modifies operations
    ensures count <= operations.Length
    ensures Plan(fds, operations[..count]) == FillMissing(Plan(fds, old(operations[..start])), 0)
  {
    ghost var goal := FillMissing(Plan(fds, operations[..start]), 0);
    count := start;
    for fd := 0 to 3
      invariant count <= operations.Length
      invariant FillMissing(Plan(fds, operations[..count]), fd) == goal
    {
      assert used[..][fd] == multiset(fds)[fd];
      if used[fd] == 0 {
        FillMissingGrows(Plan(fds, operations[..count]), fd);
        count := Emit(operations, count, DevNullAt(fd));
      }
    }
  }

  lemma {:induction false} FillMissingGrows(plan: Plan, k: nat)
    requires k <= 3
    ensures |plan.ops| <= |FillMissing(plan, k).ops|
    ensures k < 3 && k !in plan.fds ==> |plan.ops| < |FillMissing(plan, k).ops|
    decreases 3 - k
  {
    if k < 3 {
      FillMissingGrows(if k in plan.fds then plan else plan.(ops := plan.ops + [DevNullAt(k)]), k + 1);
    }
  }

  lemma AwayFits(fds: seq<int>)
    requires |fds| >= 3
    ensures var away := MoveAway(Plan(fds, []), 0); |away.ops| <= 3 && LowOwned(away.fds, 0)
  {
    AwayStart(fds);
    MoveAwayKeeps(fds, Plan(fds, []), 0);
  }

  lemma PackedHomed(fds0: seq<int>, fds: seq<int>, ops: seq<FdOp>)
    requires Given(fds0) && |fds| == |fds0| && Packed(fds0, fds, ops, 3)
    ensures Homed(fds)
  {
  }

  /** What the loops need to know of the plan to stay inside the buffer of operations. */
  lemma PlanFits(fds: seq<int>)
    requires Given(fds)
    ensures |Gather(fds).ops| <= MAX_OPERATIONS && Homed(Gather(fds).fds)
    ensures |FillRange(Gather(fds), 3).ops| < MAX_OPERATIONS
    ensures |RedirectPlan.Redirect(fds).ops| <= MAX_OPERATIONS
  {
    GatherKeeps(fds);
    PackedHomed(fds, Gather(fds).fds, Gather(fds).ops);
    FillRangeKeeps(fds, Gather(fds), 3);
    FillRangeGrows(Gather(fds), 3);
    var packed := FillRange(Gather(fds), 3);
    PackedSettles(fds, packed.fds, packed.ops);
    RedirectCorrect(fds);
  }

  /** The whole of `redirect_mappings`. */
  method RedirectMappings(mappings: array<Mapping>, operations: array<FdOp>) returns (numOperations: nat)
    requires WantsStandard(mappings[..]) && Given(Fds(mappings[..]))
    requires operations.Length == MAX_OPERATIONS
    modifies mappings, operations
    ensures SameWants(old(mappings[..]), mappings[..])
    ensures numOperations <= MAX_OPERATIONS
    ensures Plan(Fds(mappings[..]), operations[..numOperations]) == RedirectPlan.Redirect(old(Fds(mappings[..])))
    ensures Redirected(old(Fds(mappings[..])), Fds(mappings[..]), operations[..numOperations])
  {
    ghost var fds0 := Fds(mappings[..]);
    AwayFits(fds0);
    PlanFits(fds0);
    RedirectCorrect(fds0);
    var used := CountUsed(mappings);
    var count := MoveAllAway(mappings, used, operations);
    count := PlaceAll(mappings, used, operations, count);
    count := ClearAll(mappings, used, operations, count);
    count := FillAll(mappings, used, operations, count);
    count := Emit(operations, count, CloseFrom(mappings.Length));
    numOperations := FillStandardFds(used, operations, count, Fds(mappings[..]));
  }
}

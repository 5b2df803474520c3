/**
 The plan `redirect_mappings` computes, as a function of the descriptors of the mappings, and
 the proof that running it redirects every process correctly.
 */
module RedirectPlan {
  import opened FdTable
  import opened Relocation
  import opened Counting

  const MAX_OPERATIONS: nat := 1024
  const MAX_TOTAL_MAPPINGS: nat := MAX_OPERATIONS - 4

  /** Only a standard mapping may be missing. */
  ghost predicate Given(fds: seq<int>) {
    && 3 <= |fds| <= MAX_TOTAL_MAPPINGS
    && forall i :: 0 <= i < |fds| ==> fds[i] >= if i < 3 then -1 else 0
  }

  ghost function One(b: bool): nat {
    if b then 1 else 0
  }

  /** How many of the descriptors 0, 1 and 2 are named by a mapping. */
  ghost function LowNamed(fds: seq<int>): nat {
    One(0 in fds) + One(1 in fds) + One(2 in fds)
  }

  /** How many of the first `i` standard mappings are given. */
  ghost function Present(fds: seq<int>, i: nat): nat
    requires |fds| >= 3
  {
    One(i > 0 && fds[0] >= 0) + One(i > 1 && fds[1] >= 0) + One(i > 2 && fds[2] >= 0)
  }

  // ---------------------------------------------------------------------------------------
  // What the four relocating loops keep.

  /** Some non-standard mapping sits on `f`. */
  ghost predicate NonStandard(fds: seq<int>, f: int) {
    exists j :: 3 <= j < |fds| && fds[j] == f
  }

  /**
   In `[3, n)`, what a non-standard mapping named at the start is never written to and stays
   occupied, and what such a mapping sits on now was named so or has been written to.
   */
  ghost predicate ResidueAt(fds0: seq<int>, fds: seq<int>, ops: seq<FdOp>, f: int) {
    3 <= f < |fds| ==>
      && (NonStandard(fds0, f) ==> f in fds && !IsTarget(ops, f, false))
      && (NonStandard(fds, f) ==> IsTarget(ops, f, false) || NonStandard(fds0, f))
  }

  ghost predicate Residue(fds0: seq<int>, fds: seq<int>, ops: seq<FdOp>) {
    forall f: int :: ResidueAt(fds0, fds, ops, f)
  }

  lemma ResidueRelocate(fds0: seq<int>, fds: seq<int>, ops: seq<FdOp>, fds': seq<int>, from: nat, to: nat, op: FdOp)
    requires |fds0| == |fds| >= 3
    requires Residue(fds0, fds, ops)
    requires Relocated(fds, fds', from, to) && Carries(op, fds', from, to)
    requires 3 <= from < |fds| && NonStandard(fds0, from) ==> from in fds'
    ensures Residue(fds0, fds', ops + [op])
  {
    forall f: int ensures ResidueAt(fds0, fds', ops + [op], f) {
      assert ResidueAt(fds0, fds, ops, f);
      TargetAppend(ops, op, f, false);
      if 3 <= f < |fds| && NonStandard(fds0, f) {
        var i :| 0 <= i < |fds| && fds[i] == f;
        assert f != from ==> fds'[i] == f;
      }
      if 3 <= f < |fds| && NonStandard(fds', f) && f != to {
        var j :| 3 <= j < |fds'| && fds'[j] == f;
        assert fds[j] == f;
      }
    }
  }

  /** The first loop has moved the first `i` mappings off the standard descriptors. */
  ghost predicate Away(fds0: seq<int>, fds: seq<int>, ops: seq<FdOp>, i: nat)
    requires |fds0| == |fds| >= 3
  {
    && Sound(fds0, fds, ops) && Residue(fds0, fds, ops)
    && (forall j :: 0 <= j < |fds| ==> fds[j] == fds0[j] || (0 <= fds0[j] <= 2 && fds[j] >= 3))
    && (forall j :: 0 <= j < i && j < |fds| ==> !(0 <= fds[j] <= 2))
    && |ops| + LowNamed(fds) == LowNamed(fds0)
  }

  lemma AwayStart(fds: seq<int>)
    requires |fds| >= 3
    ensures Away(fds, fds, [], 0)
  {
    SoundStart(fds);
    forall f: int ensures ResidueAt(fds, fds, [], f) {
      if NonStandard(fds, f) {
        var j :| 3 <= j < |fds| && fds[j] == f;
        assert fds[j] in fds;
      }
    }
  }

  lemma RemapRelocates(fds: seq<int>, i: nat, to: nat)
    requires i < |fds| && fds[i] >= 0 && to !in fds
    ensures Relocated(fds, Remap(fds, fds[i], to), fds[i], to) && fds[i] !in Remap(fds, fds[i], to)
  {
    assert Remap(fds, fds[i], to)[i] == to;
  }

  lemma AwayStep(fds0: seq<int>, fds: seq<int>, ops: seq<FdOp>, i: nat, to: nat)
    requires |fds0| == |fds| >= 3 && i < |fds|
    requires Away(fds0, fds, ops, i) && 0 <= fds[i] <= 2 && to >= 3 && to !in fds
    ensures Away(fds0, Remap(fds, fds[i], to), ops + [Dup(fds[i], to)], i + 1)
  {
    var from, fds' := fds[i], Remap(fds, fds[i], to);
    RemapRelocates(fds, i, to);
    SoundRelocate(fds0, fds, ops, fds', from, to, Dup(from, to));
    ResidueRelocate(fds0, fds, ops, fds', from, to, Dup(from, to));
    forall f | 0 <= f <= 2 && f != from ensures f in fds' <==> f in fds {
      if f in fds {
        var j :| 0 <= j < |fds| && fds[j] == f;
        assert fds'[j] == f;
      }
    }
  }

  lemma AwaySkip(fds0: seq<int>, fds: seq<int>, ops: seq<FdOp>, i: nat)
    requires |fds0| == |fds| >= 3 && i < |fds|
    requires Away(fds0, fds, ops, i) && !(0 <= fds[i] <= 2)
    ensures Away(fds0, fds, ops, i + 1)
  {
  }

  /** A descriptor below 3 is taken only by placed standard mappings, with its owner on it. */
  ghost predicate LowOwned(fds: seq<int>, i: nat)
    requires |fds| >= 3
  {
    && (0 in fds ==> 0 < i && fds[0] == 0)
    && (1 in fds ==> 1 < i && fds[1] == 1)
    && (2 in fds ==> 2 < i && fds[2] == 2)
  }

  /** The program has written to every occupied descriptor of `[lo, hi)`. */
  ghost predicate TouchedAt(fds: seq<int>, ops: seq<FdOp>, lo: int, hi: int, clears: bool, f: int) {
    lo <= f < hi && f in fds ==> IsTarget(ops, f, clears)
  }

  ghost predicate Touched(fds: seq<int>, ops: seq<FdOp>, lo: int, hi: int, clears: bool) {
    forall f: int :: TouchedAt(fds, ops, lo, hi, clears, f)
  }

  lemma TouchedShift(fds: seq<int>, ops: seq<FdOp>, fds': seq<int>, from: nat, to: nat, op: FdOp,
                     lo: int, hi: int, clears: bool)
    requires Touched(fds, ops, lo, hi, clears) && Relocated(fds, fds', from, to) && Carries(op, fds', from, to)
    ensures Touched(fds', ops + [op], lo, hi, clears)
  {
    forall f: int ensures TouchedAt(fds', ops + [op], lo, hi, clears, f) {
      assert TouchedAt(fds, ops, lo, hi, clears, f);
      TargetAppend(ops, op, f, clears);
      assert f in fds' && f != to ==> f in fds;
    }
  }

  /** The second loop has put the first `i` standard mappings where they want to be. */
  ghost predicate Placed(fds0: seq<int>, fds: seq<int>, ops: seq<FdOp>, i: nat)
    requires |fds0| == |fds| >= 3
  {
    && Sound(fds0, fds, ops) && Residue(fds0, fds, ops) && LowOwned(fds, i)
    && (forall m :: 0 <= m < i && m < 3 && fds0[m] >= 0 ==> fds[m] == m)
    && (forall j :: 3 <= j < |fds| && 3 <= fds0[j] < |fds| ==> fds[j] == fds0[j])
    && Touched(fds, ops, 0, 3, false)
    && |ops| == LowNamed(fds0) + Present(fds0, i)
  }

  /** Where a shift of mapping `i` to `to` leaves the mappings: all of a far group, or just `i`. */
  function Shifted(fds: seq<int>, i: nat, to: nat): (r: seq<int>)
    requires i < |fds|
    ensures |r| == |fds|
  {
    if fds[i] >= |fds| then Remap(fds, fds[i], to) else fds[i := to]
  }

  function ShiftOp(fds: seq<int>, i: nat, to: nat): FdOp
    requires i < |fds| && fds[i] >= 0
  {
    if fds[i] >= |fds| || multiset(fds)[fds[i]] == 1 then Move(fds[i], to) else Dup(fds[i], to)
  }

  lemma ShiftRelocates(fds: seq<int>, i: nat, to: nat)
    requires i < |fds| && fds[i] >= 0 && to !in fds
    ensures Relocated(fds, Shifted(fds, i, to), fds[i], to)
    ensures Carries(ShiftOp(fds, i, to), Shifted(fds, i, to), fds[i], to)
    ensures fds[i] < |fds| && multiset(fds)[fds[i]] != 1 ==> fds[i] in Shifted(fds, i, to)
  {
    var fds' := Shifted(fds, i, to);
    CountedOnce(fds, i);
    assert fds'[i] == to;
    if fds[i] < |fds| && multiset(fds)[fds[i]] != 1 {
      var j :| 0 <= j < |fds| && j != i && fds[j] == fds[i];
      assert fds'[j] == fds[i];
    }
  }

  lemma PlacedStep(fds0: seq<int>, fds: seq<int>, ops: seq<FdOp>, i: nat)
    requires |fds0| == |fds| && 3 <= |fds| && i < 3
    requires Placed(fds0, fds, ops, i) && fds[i] >= 0
    ensures i !in fds
    ensures Placed(fds0, Shifted(fds, i, i), ops + [ShiftOp(fds, i, i)], i + 1)
  {
    var from, fds', op := fds[i], Shifted(fds, i, i), ShiftOp(fds, i, i);
    ShiftRelocates(fds, i, i);
    SoundRelocate(fds0, fds, ops, fds', from, i, op);
    if 3 <= from < |fds| && NonStandard(fds0, from) {
      var j :| 3 <= j < |fds0| && fds0[j] == from;
      assert fds'[j] == from;
    }
    ResidueRelocate(fds0, fds, ops, fds', from, i, op);
    TouchedShift(fds, ops, fds', from, i, op, 0, 3, false);
  }

  /** The third loop has cleared close-on-exec on the occupied descriptors of `[3, hi)`. */
  ghost predicate Cleared(fds0: seq<int>, fds: seq<int>, ops: seq<FdOp>, hi: nat)
    requires |fds0| == |fds| >= 3
  {
    && Sound(fds0, fds, ops) && Residue(fds0, fds, ops) && LowOwned(fds, 3)
    && (forall m :: 0 <= m < 3 && fds0[m] >= 0 ==> fds[m] == m)
    && Touched(fds, ops, 0, 3, false) && Touched(fds, ops, 3, hi, true)
    && |ops| == LowNamed(fds0) + Present(fds0, 3) + |Occupied(fds, 3, hi)|
  }

  lemma ClearedSkip(fds0: seq<int>, fds: seq<int>, ops: seq<FdOp>, fd: nat)
    requires |fds0| == |fds| >= 3 && Cleared(fds0, fds, ops, fd) && fd !in fds
    ensures Cleared(fds0, fds, ops, fd + 1)
  {
    assert Occupied(fds, 3, fd + 1) == Occupied(fds, 3, fd);
    var next := fd + 1;
    forall f: int ensures TouchedAt(fds, ops, 3, next, true, f) {
      assert TouchedAt(fds, ops, 3, fd, true, f);
    }
  }

  lemma ClearedStep(fds0: seq<int>, fds: seq<int>, ops: seq<FdOp>, fd: nat)
    requires |fds0| == |fds| >= 3 && Cleared(fds0, fds, ops, fd) && fd in fds && fd >= 3
    ensures Cleared(fds0, fds, ops + [Dup(fd, fd)], fd + 1)
  {
    SoundClear(fds0, fds, ops, fd);
    assert Occupied(fds, 3, fd + 1) == Occupied(fds, 3, fd) + {fd};
    var ops', next := ops + [Dup(fd, fd)], fd + 1;
    forall f: int
      ensures ResidueAt(fds0, fds, ops', f)
      ensures TouchedAt(fds, ops', 0, 3, false, f)
      ensures TouchedAt(fds, ops', 3, next, true, f)
    {
      assert ResidueAt(fds0, fds, ops, f) && TouchedAt(fds, ops, 0, 3, false, f) && TouchedAt(fds, ops, 3, fd, true, f);
      TargetAppend(ops, Dup(fd, fd), f, false);
      TargetAppend(ops, Dup(fd, fd), f, true);
    }
  }

  ghost predicate ApartAt(fds: seq<int>, i: nat, j: int, k: int) {
    3 <= j < k < i && k < |fds| ==> fds[j] != fds[k]
  }

  /** The non-standard mappings below `i` are on descriptors of their own. */
  ghost predicate Apart(fds: seq<int>, i: nat) {
    forall j: int, k: int :: ApartAt(fds, i, j, k)
  }

  /** The last loop has given each of the first `i` mappings a descriptor of its own. */
  ghost predicate Packed(fds0: seq<int>, fds: seq<int>, ops: seq<FdOp>, i: nat)
    requires |fds0| == |fds| >= 3
  {
    && Sound(fds0, fds, ops) && Residue(fds0, fds, ops) && LowOwned(fds, 3)
    && (forall m :: 0 <= m < 3 && fds0[m] >= 0 ==> fds[m] == m)
    && (forall j :: 3 <= j < i && j < |fds| ==> 3 <= fds[j] < |fds|)
    && Apart(fds, i)
    && Touched(fds, ops, 0, 3, false) && Touched(fds, ops, 3, |fds|, true)
    && |ops| == LowNamed(fds0) + Present(fds0, 3) + |Occupied(fds, 3, |fds|)|
  }

  /** Standard mappings are home or missing, and share their descriptor only with their guests. */
  ghost predicate Homed(fds: seq<int>) {
    && |fds| >= 3 && LowOwned(fds, 3)
    && (forall m :: 0 <= m < 3 ==> fds[m] < 3)
    && (forall j :: 3 <= j < |fds| ==> fds[j] >= 0)
  }

  /** A non-standard mapping that shares its descriptor or sits too high leaves room below `n`. */
  lemma SlotLeft(fds: seq<int>, i: nat)
    requires Homed(fds) && 3 <= i < |fds| && !Alone(fds, i)
    ensures 3 <= FirstFree(fds, 3) < |fds|
  {
    var others := Range(3, |fds|) - {i};
    assert |others| == |fds| - 4;
    CountedOnce(fds, i);
    forall j | 0 <= j < |fds| && 3 <= fds[j] < |fds| ensures exists k :: k in others && fds[k] == fds[j] {
      if j == i {
        var k :| 0 <= k < |fds| && k != i && fds[k] == fds[i];
        assert k in others;
      } else {
        assert j in others;
      }
    }
    RoomLeft(fds, others, 3, |fds|);
    var f :| 3 <= f < |fds| && f !in fds;
    FirstFreeIsFirst(fds, 3, f);
  }

  /** A mapping on a standard descriptor leaves room below `MAX_OPERATIONS`. */
  lemma RoomAway(fds: seq<int>, i: nat)
    requires |fds| <= MAX_TOTAL_MAPPINGS && i < |fds| && 0 <= fds[i] <= 2
    ensures 3 <= FirstFree(fds, 3) < MAX_OPERATIONS
  {
    RoomLeft(fds, Range(0, |fds|) - {i}, 3, MAX_OPERATIONS);
    var f :| 3 <= f < MAX_OPERATIONS && f !in fds;
    FirstFreeIsFirst(fds, 3, f);
  }

  lemma OwnerShares(fds: seq<int>, i: nat)
    requires |fds| >= 3 && LowOwned(fds, 3) && 3 <= i < |fds| && 0 <= fds[i] < 3
    ensures multiset(fds)[fds[i]] != 1
  {
    CountedOnce(fds, i);
    assert fds[fds[i]] == fds[i];
  }

  lemma LoneIsHigh(fds: seq<int>, i: nat)
    requires |fds| >= 3 && LowOwned(fds, 3) && 3 <= i < |fds| && fds[i] >= 0 && multiset(fds)[fds[i]] == 1
    ensures fds[i] >= 3
    ensures forall j :: 0 <= j < |fds| && j != i ==> fds[j] != fds[i]
  {
    if fds[i] < 3 {
      OwnerShares(fds, i);
    }
    CountedOnce(fds, i);
  }

  lemma PackedKeep(fds0: seq<int>, fds: seq<int>, ops: seq<FdOp>, i: nat)
    requires |fds0| == |fds| && 3 <= i < |fds| && fds0[i] >= 0
    requires Packed(fds0, fds, ops, i) && fds[i] < |fds| && multiset(fds)[fds[i]] == 1
    ensures Packed(fds0, fds, ops, i + 1)
  {
    LoneIsHigh(fds, i);
    var next := i + 1;
    forall j: int, k: int ensures ApartAt(fds, next, j, k) {
      assert ApartAt(fds, i, j, k);
    }
  }

  lemma OccupiedShift(fds: seq<int>, fds': seq<int>, from: nat, to: nat)
    requires Relocated(fds, fds', from, to) && 3 <= to < |fds| && (from < |fds| ==> from in fds')
    ensures |Occupied(fds', 3, |fds|)| == |Occupied(fds, 3, |fds|)| + 1
  {
    assert Occupied(fds', 3, |fds|) == Occupied(fds, 3, |fds|) + {to} by {
      forall f | 3 <= f < |fds| && f in fds ensures f in fds' {
        var j :| 0 <= j < |fds| && fds[j] == f;
        assert f != from ==> fds'[j] == f;
      }
    }
  }

  /** The shift keeps the standard mappings home and the packed ones apart. */
  lemma ShiftKeepsApart(fds: seq<int>, i: nat, to: nat)
    requires 3 <= i < |fds| && 3 <= to < |fds| && to !in fds && LowOwned(fds, 3)
    requires forall j :: 3 <= j < i ==> 3 <= fds[j] < |fds|
    requires Apart(fds, i)
    requires forall m :: 0 <= m < 3 ==> fds[m] < 3
    ensures var fds' := Shifted(fds, i, to);
            && LowOwned(fds', 3)
            && (forall m :: 0 <= m < 3 ==> fds'[m] == fds[m])
            && (forall j :: 3 <= j < i + 1 ==> 3 <= fds'[j] < |fds|)
            && Apart(fds', i + 1)
  {
    var fds', next := Shifted(fds, i, to), i + 1;
    forall j: int, k: int ensures ApartAt(fds', next, j, k) {
      assert ApartAt(fds, i, j, k);
    }
  }

  /** No slot of `[3, n)` is freed by the last loop. */
  lemma ShiftKeepsFull(fds: seq<int>, i: nat, to: nat)
    requires i < |fds| && fds[i] >= 0 && to !in fds && !(fds[i] < |fds| && multiset(fds)[fds[i]] == 1)
    ensures forall f :: 0 <= f < |fds| && f in fds ==> f in Shifted(fds, i, to)
  {
    ShiftRelocates(fds, i, to);
    forall f | 0 <= f < |fds| && f in fds ensures f in Shifted(fds, i, to) {
      var j :| 0 <= j < |fds| && fds[j] == f;
      assert f != fds[i] ==> Shifted(fds, i, to)[j] == f;
    }
  }

  lemma PackedStep(fds0: seq<int>, fds: seq<int>, ops: seq<FdOp>, i: nat, to: nat)
    requires |fds0| == |fds| && 3 <= i < |fds| && fds0[i] >= 0
    requires Packed(fds0, fds, ops, i) && !(fds[i] < |fds| && multiset(fds)[fds[i]] == 1)
    requires 3 <= to < |fds| && to !in fds
    ensures Packed(fds0, Shifted(fds, i, to), ops + [ShiftOp(fds, i, to)], i + 1)
  {
    var from, fds', op := fds[i], Shifted(fds, i, to), ShiftOp(fds, i, to);
    ShiftRelocates(fds, i, to);
    SoundRelocate(fds0, fds, ops, fds', from, to, op);
    ResidueRelocate(fds0, fds, ops, fds', from, to, op);
    OccupiedShift(fds, fds', from, to);
    TouchedShift(fds, ops, fds', from, to, op, 0, 3, false);
    TouchedShift(fds, ops, fds', from, to, op, 3, |fds|, true);
    ShiftKeepsApart(fds, i, to);
  }

  /** The non-standard mappings, apart and inside `[3, n)`, fill it. */
  lemma ApartFills(fds: seq<int>)
    requires |fds| >= 3
    requires forall j :: 3 <= j < |fds| ==> 3 <= fds[j] < |fds|
    requires Apart(fds, |fds|)
    ensures Occupied(fds, 3, |fds|) == Range(3, |fds|)
    ensures forall j, k :: 3 <= j < k < |fds| ==> fds[j] != fds[k]
  {
    forall j, k | 3 <= j < k < |fds| ensures fds[j] != fds[k] {
      assert ApartAt(fds, |fds|, j, k);
    }
    TakesAll(fds, 3, 3, |fds|);
  }

  // ---------------------------------------------------------------------------------------
  // Closing the rest.

  /** What the helper leaves of a close-on-exec flag, given that it skips a DUP onto itself. */
  ghost predicate KeepsCloexec(p: Process, fds0: seq<int>, f: int, clears: bool)
    requires |fds0| >= 3
  {
    !clears && NonStandard(fds0, f) && f >= 3 && f in p.fds && p.fds[f].cloexec
  }

  /** The table once everything from `n` on is closed and the missing ones below `k` are filled. */
  ghost predicate ClosedTable(p: Process, fds0: seq<int>, fds: seq<int>, t: Table, k: nat, clears: bool)
    requires |fds| == |fds0| >= 3
  {
    && (forall f :: f in t ==> f < |fds|)
    && (forall f :: 0 <= f < |fds| && (f < k || f >= 3 || f in fds) ==> f in t)
    && (forall i :: 0 <= i < |fds| && fds0[i] >= 0 ==>
          fds[i] in t && fds0[i] in p.fds && t[fds[i]].file == p.fds[fds0[i]].file)
    && (forall f :: 0 <= f < k && f !in fds ==> f in t && t[f] == Entry(DevNull, false))
    && (forall f :: f >= 0 && f in fds ==> f in t && (t[f].cloexec <==> KeepsCloexec(p, fds0, f, clears)))
  }

  ghost predicate ClosedRun(p: Process, fds0: seq<int>, fds: seq<int>, ops: seq<FdOp>, k: nat, clears: bool)
    requires |fds| == |fds0| >= 3
  {
    var r := Run(p, ops, clears);
    && (clears && r.ok ==> NamesOpen(fds0, p.fds))
    && (NamesOpen(fds0, p.fds) ==> r.ok && ClosedTable(p, fds0, fds, r.process.fds, k, clears))
  }

  ghost predicate Closed(fds0: seq<int>, fds: seq<int>, ops: seq<FdOp>, k: nat)
    requires |fds| == |fds0| >= 3
  {
    && (forall p: Process, clears: bool :: ClosedRun(p, fds0, fds, ops, k, clears))
    && (forall p: Process, clears: bool :: FollowsPipe(p, fds0, fds, ops, clears))
  }

  /** Every mapping has a descriptor of its own below `n`, a standard one its wanted one. */
  ghost predicate Settles(fds0: seq<int>, fds: seq<int>) {
    && 3 <= |fds| == |fds0|
    && (forall m :: 0 <= m < 3 ==> fds[m] == if fds0[m] >= 0 then m else fds0[m])
    && (forall j :: 3 <= j < |fds| ==> 3 <= fds[j] < |fds|)
    && (forall j, k :: 3 <= j < k < |fds| ==> fds[j] != fds[k])
  }

  lemma PackedOpen(p: Process, fds0: seq<int>, fds: seq<int>, ops: seq<FdOp>)
    requires |fds| == |fds0| >= 3 && Settles(fds0, fds) && Packed(fds0, fds, ops, |fds|)
    requires Run(p, ops, true).ok
    ensures NamesOpen(fds0, p.fds)
  {
    assert Simulates(p, fds0, fds, ops, true);
    forall i | 0 <= i < |fds0| && fds0[i] >= 0 ensures fds0[i] in p.fds {
      var f: nat := fds[i];
      assert f in fds && TouchedAt(fds, ops, 0, 3, false, f) && TouchedAt(fds, ops, 3, |fds|, true, f);
      TargetEither(ops, f);
    }
  }

  lemma PackedCloexec(p: Process, fds0: seq<int>, fds: seq<int>, ops: seq<FdOp>, clears: bool, f: nat)
    requires |fds| == |fds0| >= 3 && Settles(fds0, fds) && Packed(fds0, fds, ops, |fds|)
    requires NamesOpen(fds0, p.fds) && f in fds
    ensures var r := Run(p, ops, clears);
            r.ok && f in r.process.fds && (r.process.fds[f].cloexec <==> KeepsCloexec(p, fds0, f, clears))
  {
    assert Simulates(p, fds0, fds, ops, clears);
    var i :| 0 <= i < |fds| && fds[i] == f;
    TargetEither(ops, f);
    assert TouchedAt(fds, ops, 0, 3, false, f) && TouchedAt(fds, ops, 3, |fds|, true, f);
    assert ResidueAt(fds0, fds, ops, f);
  }

  lemma CloseRest(fds0: seq<int>, fds: seq<int>, ops: seq<FdOp>)
    requires |fds| == |fds0| >= 3 && Settles(fds0, fds) && Packed(fds0, fds, ops, |fds|)
    ensures Closed(fds0, fds, ops + [CloseFrom(|fds|)], 0)
  {
    var ops' := ops + [CloseFrom(|fds|)];
    forall p: Process, clears: bool ensures ClosedRun(p, fds0, fds, ops', 0, clears) {
      CloseRestRun(p, fds0, fds, ops, clears);
    }
    forall p: Process, clears: bool ensures FollowsPipe(p, fds0, fds, ops', clears) {
      CloseRestFollows(p, fds0, fds, ops, clears);
    }
  }

  lemma CloseRestRun(p: Process, fds0: seq<int>, fds: seq<int>, ops: seq<FdOp>, clears: bool)
    requires |fds| == |fds0| >= 3 && Settles(fds0, fds) && Packed(fds0, fds, ops, |fds|)
    ensures ClosedRun(p, fds0, fds, ops + [CloseFrom(|fds|)], 0, clears)
  {
    RunAppend(p, ops, CloseFrom(|fds|), clears);
    if clears && Run(p, ops, clears).ok {
      PackedOpen(p, fds0, fds, ops);
    }
    if NamesOpen(fds0, p.fds) {
      assert Simulates(p, fds0, fds, ops, clears);
      TakesAll(fds, 3, 3, |fds|);
      forall f | f >= 0 && f in fds
        ensures f < |fds| && f in Run(p, ops, clears).process.fds
        ensures Run(p, ops, clears).process.fds[f].cloexec <==> KeepsCloexec(p, fds0, f, clears)
      {
        PackedCloexec(p, fds0, fds, ops, clears, f);
      }
    }
  }

  lemma CloseRestFollows(p: Process, fds0: seq<int>, fds: seq<int>, ops: seq<FdOp>, clears: bool)
    requires |fds| == |fds0| >= 3 && Settles(fds0, fds) && Packed(fds0, fds, ops, |fds|)
    ensures FollowsPipe(p, fds0, fds, ops + [CloseFrom(|fds|)], clears)
  {
    RunAppend(p, ops, CloseFrom(|fds|), clears);
    assert FollowsPipe(p, fds0, fds, ops, clears);
    if HasPipe(p, fds0) {
      assert ops[..|ops|] == ops;
      assert HoldsPipe(p, Run(p, ops, clears));
      PrefixesExtend(p, ops, CloseFrom(|fds|), clears);
    }
  }

  lemma FillStandard(fds0: seq<int>, fds: seq<int>, ops: seq<FdOp>, k: nat)
    requires |fds| == |fds0| >= 3 && Closed(fds0, fds, ops, k) && k < 3
    ensures Closed(fds0, fds, if k in fds then ops else ops + [DevNullAt(k)], k + 1)
  {
    var ops', next := if k in fds then ops else ops + [DevNullAt(k)], k + 1;
    forall p: Process, clears: bool ensures ClosedRun(p, fds0, fds, ops', next, clears) {
      assert ClosedRun(p, fds0, fds, ops, k, clears);
      if k !in fds {
        FillRun(p, fds0, fds, ops, k, clears);
      }
    }
    forall p: Process, clears: bool ensures FollowsPipe(p, fds0, fds, ops', clears) {
      assert FollowsPipe(p, fds0, fds, ops, clears) && ClosedRun(p, fds0, fds, ops, k, clears);
      if k !in fds {
        FillFollows(p, fds0, fds, ops, k, clears);
      }
    }
  }

  lemma FillRun(p: Process, fds0: seq<int>, fds: seq<int>, ops: seq<FdOp>, k: nat, clears: bool)
    requires |fds| == |fds0| >= 3 && ClosedRun(p, fds0, fds, ops, k, clears) && k < 3 && k !in fds
    ensures ClosedRun(p, fds0, fds, ops + [DevNullAt(k)], k + 1, clears)
  {
    RunAppend(p, ops, DevNullAt(k), clears);
  }

  lemma FillFollows(p: Process, fds0: seq<int>, fds: seq<int>, ops: seq<FdOp>, k: nat, clears: bool)
    requires |fds| == |fds0| >= 3 && ClosedRun(p, fds0, fds, ops, k, clears) && k < 3 && k !in fds
    requires FollowsPipe(p, fds0, fds, ops, clears)
    ensures FollowsPipe(p, fds0, fds, ops + [DevNullAt(k)], clears)
  {
    RunAppend(p, ops, DevNullAt(k), clears);
    if HasPipe(p, fds0) {
      assert ops[..|ops|] == ops;
      assert HoldsPipe(p, Run(p, ops, clears));
      PrefixesExtend(p, ops, DevNullAt(k), clears);
    }
  }

  // ---------------------------------------------------------------------------------------
  // The plan.

  datatype Plan = Plan(fds: seq<int>, ops: seq<FdOp>)

  /** The first descriptor, from `from` on, that no mapping sits on. */
  function FirstFree(fds: seq<int>, from: nat): (r: nat)
    ensures from <= r && r !in fds
    decreases NamedFrom(fds, from)
  {
    if from !in fds then from else
      assert from in NamedFrom(fds, from) && from !in NamedFrom(fds, from + 1);
      FirstFree(fds, from + 1)
  }

  lemma {:induction false} FirstFreeIsFirst(fds: seq<int>, from: nat, f: nat)
    requires from <= f && f !in fds
    ensures FirstFree(fds, from) <= f
    decreases f - from
  {
    if from in fds {
      FirstFreeIsFirst(fds, from + 1, f);
    }
  }

  ghost function NamedFrom(fds: seq<int>, from: nat): set<int> {
    set f | f in fds && f >= from
  }

  /** First loop, from mapping `i` on. */
  function MoveAway(plan: Plan, i: nat): (r: Plan)
    requires i <= |plan.fds|
    ensures |r.fds| == |plan.fds|
    decreases |plan.fds| - i
  {
    if i == |plan.fds| then plan
    else if 0 <= plan.fds[i] <= 2 then
      var to := FirstFree(plan.fds, 3);
      MoveAway(Plan(Remap(plan.fds, plan.fds[i], to), plan.ops + [Dup(plan.fds[i], to)]), i + 1)
    else MoveAway(plan, i + 1)
  }

  /** The step both later relocating loops share. */
  function Shift(plan: Plan, i: nat, to: nat): (r: Plan)
    requires i < |plan.fds| && plan.fds[i] >= 0
    ensures |r.fds| == |plan.fds|
  {
    Plan(Shifted(plan.fds, i, to), plan.ops + [ShiftOp(plan.fds, i, to)])
  }

  /** Second loop: only the three standard mappings want a descriptor. */
  function PlaceStandard(plan: Plan, i: nat): (r: Plan)
    requires i <= 3 <= |plan.fds|
    ensures |r.fds| == |plan.fds|
    decreases 3 - i
  {
    if i == 3 then plan
    else PlaceStandard(if plan.fds[i] >= 0 then Shift(plan, i, i) else plan, i + 1)
  }

  /** Third loop, from descriptor `fd` on. */
  function RemoveCloexec(plan: Plan, fd: nat): (r: Plan)
    requires fd <= |plan.fds|
    ensures |r.fds| == |plan.fds|
    decreases |plan.fds| - fd
  {
    if fd == |plan.fds| then plan
    else RemoveCloexec(if fd in plan.fds then plan.(ops := plan.ops + [Dup(fd, fd)]) else plan, fd + 1)
  }

  /** A mapping the last loop leaves where it is. */
  predicate Alone(fds: seq<int>, i: nat)
    requires i < |fds|
  {
    fds[i] < |fds| && multiset(fds)[fds[i]] == 1
  }

  /** Fourth loop, from the non-standard mapping `i` on. */
  function FillRange(plan: Plan, i: nat): (r: Plan)
    requires i <= |plan.fds|
    ensures |r.fds| == |plan.fds|
    decreases |plan.fds| - i
  {
    if i == |plan.fds| then plan
    else if plan.fds[i] < 0 || Alone(plan.fds, i) then FillRange(plan, i + 1)
    else FillRange(Shift(plan, i, FirstFree(plan.fds, 3)), i + 1)
  }

  /** Fifth loop: a null device on every standard descriptor, from `k` on, that is missing. */
  function FillMissing(plan: Plan, k: nat): (r: Plan)
    requires k <= 3
    ensures r.fds == plan.fds
    decreases 3 - k
  {
    if k == 3 then plan
    else FillMissing(if k in plan.fds then plan else plan.(ops := plan.ops + [DevNullAt(k)]), k + 1)
  }

  /** Everything up to the loop that fills the range. */
  function Gather(fds: seq<int>): (r: Plan)
    requires |fds| >= 3
    ensures |r.fds| == |fds|
  {
    RemoveCloexec(PlaceStandard(MoveAway(Plan(fds, []), 0), 0), 3)
  }

  function Redirect(fds: seq<int>): (r: Plan)
    requires Given(fds)
    ensures |r.fds| == |fds|
  {
    var packed := FillRange(Gather(fds), 3);
    FillMissing(packed.(ops := packed.ops + [CloseFrom(|fds|)]), 0)
  }

  lemma {:induction false} MoveAwayKeeps(fds0: seq<int>, plan: Plan, i: nat)
    requires |plan.fds| == |fds0| >= 3 && i <= |fds0| && Away(fds0, plan.fds, plan.ops, i)
    ensures var r := MoveAway(plan, i); Away(fds0, r.fds, r.ops, |fds0|)
    decreases |fds0| - i
  {
    if i < |fds0| {
      if 0 <= plan.fds[i] <= 2 {
        var to := FirstFree(plan.fds, 3);
        AwayStep(fds0, plan.fds, plan.ops, i, to);
        MoveAwayKeeps(fds0, Plan(Remap(plan.fds, plan.fds[i], to), plan.ops + [Dup(plan.fds[i], to)]), i + 1);
      } else {
        AwaySkip(fds0, plan.fds, plan.ops, i);
        MoveAwayKeeps(fds0, plan, i + 1);
      }
    }
  }

  /** What the second loop does with a standard mapping. */
  function PlaceNext(plan: Plan, i: nat): Plan
    requires i < |plan.fds|
  {
    if plan.fds[i] >= 0 then Shift(plan, i, i) else plan
  }

  lemma {:induction false} PlacedNext(fds0: seq<int>, plan: Plan, i: nat) returns (next: Plan)
    requires |plan.fds| == |fds0| >= 3 && i < 3 && Placed(fds0, plan.fds, plan.ops, i)
    ensures plan.fds[i] >= 0 ==> i !in plan.fds
    ensures next == PlaceNext(plan, i) && |next.fds| == |fds0| && Placed(fds0, next.fds, next.ops, i + 1)
    ensures PlaceStandard(plan, i) == PlaceStandard(next, i + 1)
  {
    next := PlaceNext(plan, i);
    if plan.fds[i] >= 0 {
      PlacedStep(fds0, plan.fds, plan.ops, i);
    }
  }

  lemma {:induction false} PlaceStandardKeeps(fds0: seq<int>, plan: Plan, i: nat)
    requires |plan.fds| == |fds0| >= 3 && i <= 3 && Placed(fds0, plan.fds, plan.ops, i)
    ensures var r := PlaceStandard(plan, i); Placed(fds0, r.fds, r.ops, 3)
    decreases 3 - i
  {
    if i < 3 {
      var next := PlacedNext(fds0, plan, i);
      PlaceStandardKeeps(fds0, next, i + 1);
    }
  }

  lemma {:induction false} RemoveCloexecKeeps(fds0: seq<int>, plan: Plan, fd: nat)
    requires |plan.fds| == |fds0| >= fd >= 3 && Cleared(fds0, plan.fds, plan.ops, fd)
    ensures var r := RemoveCloexec(plan, fd); r.fds == plan.fds && Cleared(fds0, r.fds, r.ops, |fds0|)
    decreases |fds0| - fd
  {
    if fd < |fds0| {
      if fd in plan.fds {
        ClearedStep(fds0, plan.fds, plan.ops, fd);
        RemoveCloexecKeeps(fds0, plan.(ops := plan.ops + [Dup(fd, fd)]), fd + 1);
      } else {
        ClearedSkip(fds0, plan.fds, plan.ops, fd);
        RemoveCloexecKeeps(fds0, plan, fd + 1);
      }
    }
  }

  lemma {:induction false} FillRangeKeeps(fds0: seq<int>, plan: Plan, i: nat)
    requires |plan.fds| == |fds0| >= i >= 3 && Packed(fds0, plan.fds, plan.ops, i)
    requires forall j :: 3 <= j < |fds0| ==> fds0[j] >= 0
    ensures var r := FillRange(plan, i); Packed(fds0, r.fds, r.ops, |fds0|)
    decreases |fds0| - i
  {
    if i < |fds0| {
      var next := FillStep(fds0, plan, i);
      FillRangeKeeps(fds0, next, i + 1);
    }
  }

  /** What the fourth loop does with a mapping that is given. */
  function FillNext(plan: Plan, i: nat): Plan
    requires i < |plan.fds| && plan.fds[i] >= 0
  {
    if Alone(plan.fds, i) then plan else Shift(plan, i, FirstFree(plan.fds, 3))
  }

  lemma {:induction false} FillStep(fds0: seq<int>, plan: Plan, i: nat) returns (next: Plan)
    requires |plan.fds| == |fds0| > i >= 3 && Packed(fds0, plan.fds, plan.ops, i)
    requires forall j :: 3 <= j < |fds0| ==> fds0[j] >= 0
    ensures plan.fds[i] >= 0
    ensures next == FillNext(plan, i) && |next.fds| == |fds0| && Packed(fds0, next.fds, next.ops, i + 1)
    ensures FillRange(plan, i) == FillRange(next, i + 1)
  {
    assert fds0[i] >= 0;
    next := FillNext(plan, i);
    if Alone(plan.fds, i) {
      PackedKeep(fds0, plan.fds, plan.ops, i);
    } else {
      SlotLeft(plan.fds, i);
      PackedStep(fds0, plan.fds, plan.ops, i, FirstFree(plan.fds, 3));
    }
  }

  lemma {:induction false} FillMissingKeeps(fds0: seq<int>, plan: Plan, k: nat)
    requires |plan.fds| == |fds0| >= 3 && k <= 3 && Closed(fds0, plan.fds, plan.ops, k)
    ensures var r := FillMissing(plan, k);
            && Closed(fds0, r.fds, r.ops, 3)
            && |r.ops| + One(k <= 0 && 0 in plan.fds) + One(k <= 1 && 1 in plan.fds) + One(k <= 2 && 2 in plan.fds)
               == |plan.ops| + 3 - k
    decreases 3 - k
  {
    if k < 3 {
      FillStandard(fds0, plan.fds, plan.ops, k);
      FillMissingKeeps(fds0, if k in plan.fds then plan else plan.(ops := plan.ops + [DevNullAt(k)]), k + 1);
    }
  }

  /** What `redirect_mappings` promises of the mappings and the program it returns. */
  ghost predicate Redirected(fds0: seq<int>, fds: seq<int>, ops: seq<FdOp>) {
    && Settles(fds0, fds)
    && |ops| == |fds| + 1 + LowNamed(fds0)
    && Closed(fds0, fds, ops, 3)
  }

  lemma GatherKeeps(fds0: seq<int>)
    requires |fds0| >= 3
    ensures Packed(fds0, Gather(fds0).fds, Gather(fds0).ops, 3)
  {
    AwayStart(fds0);
    MoveAwayKeeps(fds0, Plan(fds0, []), 0);
    var away := MoveAway(Plan(fds0, []), 0);
    PlaceStandardKeeps(fds0, away, 0);
    var placed := PlaceStandard(away, 0);
    RemoveCloexecKeeps(fds0, placed, 3);
  }

  lemma PackedSettles(fds0: seq<int>, fds: seq<int>, ops: seq<FdOp>)
    requires |fds| == |fds0| >= 3 && Packed(fds0, fds, ops, |fds|)
    ensures Settles(fds0, fds)
    ensures |ops| == LowNamed(fds0) + Present(fds0, 3) + |fds| - 3
    ensures LowNamed(fds) == Present(fds0, 3)
  {
    ApartFills(fds);
  }

  /** The plan redirects correctly, whatever mappings it is given. */
  lemma RedirectCorrect(fds0: seq<int>)
    requires Given(fds0)
    ensures Redirected(fds0, Redirect(fds0).fds, Redirect(fds0).ops)
  {
    GatherKeeps(fds0);
    FillRangeKeeps(fds0, Gather(fds0), 3);
    var packed := FillRange(Gather(fds0), 3);
    PackedSettles(fds0, packed.fds, packed.ops);
    CloseRest(fds0, packed.fds, packed.ops);
    FillMissingKeeps(fds0, packed.(ops := packed.ops + [CloseFrom(|fds0|)]), 0);
  }
}

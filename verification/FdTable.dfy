/**
 The descriptor table of a process and the meaning of the four descriptor operations
 that `redirect_mappings` emits: what `dup2`, `close`, `open` and `close_fds_from`
 leave behind, and how the helper follows its error pipe while it runs them.
 */
module FdTable {

  /** The open file behind a descriptor. Two descriptors may share one. */
  datatype File = DevNull | Inherited(id: int)

  datatype Entry = Entry(file: File, cloexec: bool)

  /** The open descriptors. */
  type Table = t: map<int, Entry> | forall f :: f in t ==> f >= 0

  /** The part of the helper process that the operations change. */
  datatype Process = Process(fds: Table, errorFd: int)

  datatype FdOp =
    | Dup(from: nat, to: nat)
    | Move(from: nat, to: nat)
    | DevNullAt(fd: nat)
    | CloseFrom(fd: nat)

  /** What is left after some operations, and whether none of them failed. */
  datatype Outcome = Outcome(process: Process, ok: bool)

  /** The descriptor that `open` returns: the lowest one, from `f` on, that is closed. */
  function LowestClosed(t: Table, f: nat): (r: nat)
    ensures f <= r && r !in t
    ensures forall g :: f <= g < r ==> g in t
    decreases OpenFrom(t, f)
  {
    if f !in t then f else
      assert f in OpenFrom(t, f) && f !in OpenFrom(t, f + 1);
      LowestClosed(t, f + 1)
  }

  ghost function OpenFrom(t: Table, f: nat): set<int> {
    set k | k in t && k >= f
  }

  /** `dup2`, followed by the helper's bookkeeping of its error descriptor. */
  function Dup2(p: Process, from: nat, to: nat): Outcome {
    var fds := if from in p.fds then p.fds[to := Entry(p.fds[from].file, false)] else p.fds;
    Outcome(Process(fds, if from == p.errorFd then to else p.errorFd), from in p.fds)
  }

  /**
   One operation. `clears` selects what a DUP of a descriptor onto itself does: the fuzzer
   clears close-on-exec and insists that the descriptor is open, the helper does nothing.
   */
  function Exec(p: Process, op: FdOp, clears: bool): Outcome {
    match op
    case Dup(from, to) =>
      if from != to then Dup2(p, from, to)
      else if !clears then Outcome(p, true)
      else if from in p.fds then Outcome(p.(fds := p.fds[from := p.fds[from].(cloexec := false)]), true)
      else Outcome(p, false)
    case Move(from, to) =>
      var d := Dup2(p, from, to);
      d.(process := d.process.(fds := d.process.fds - {from}))
    case DevNullAt(fd) =>
      var closed := p.fds - {fd};
      var got := LowestClosed(closed, 0);
      Outcome(p.(fds := closed[got := Entry(DevNull, false)]), got == fd)
    case CloseFrom(fd) =>
      Outcome(p.(fds := map f | f in p.fds && f < fd :: p.fds[f]), true)
  }

  /** Runs operations in order and stops at the first one that fails. */
  function Run(p: Process, ops: seq<FdOp>, clears: bool): Outcome {
    if ops == [] then Outcome(p, true)
    else
      var before := Run(p, ops[..|ops| - 1], clears);
      if before.ok then Exec(before.process, ops[|ops| - 1], clears) else before
  }

  lemma RunAppend(p: Process, ops: seq<FdOp>, op: FdOp, clears: bool)
    ensures var before := Run(p, ops, clears);
            Run(p, ops + [op], clears) == if before.ok then Exec(before.process, op, clears) else before
  {
    assert (ops + [op])[..|ops|] == ops;
  }

  /** Running a longer program passes through the state its prefix leaves, or stopped in it. */
  lemma {:induction false} RunPrefix(p: Process, ops: seq<FdOp>, k: nat, clears: bool)
    requires k <= |ops|
    ensures !Run(p, ops[..k], clears).ok ==> Run(p, ops, clears) == Run(p, ops[..k], clears)
    ensures Run(p, ops, clears).ok ==> Run(p, ops[..k], clears).ok
    decreases |ops|
  {
    if k < |ops| {
      var init := ops[..|ops| - 1];
      assert init[..k] == ops[..k];
      RunPrefix(p, init, k, clears);
    } else {
      assert ops[..k] == ops;
    }
  }

  /** The operation leaves a fresh descriptor on `f`, one without close-on-exec. */
  ghost predicate Hits(op: FdOp, f: int, clears: bool) {
    match op
    case Dup(from, to) => f == to && (clears || from != to)
    case Move(_, to) => f == to
    case DevNullAt(fd) => f == fd
    case CloseFrom(_) => false
  }

  ghost predicate IsTarget(ops: seq<FdOp>, f: int, clears: bool) {
    exists k :: 0 <= k < |ops| && Hits(ops[k], f, clears)
  }

  lemma TargetEither(ops: seq<FdOp>, f: int)
    ensures IsTarget(ops, f, false) ==> IsTarget(ops, f, true)
  {
  }

  lemma TargetAppend(ops: seq<FdOp>, op: FdOp, f: int, clears: bool)
    ensures IsTarget(ops + [op], f, clears) <==> IsTarget(ops, f, clears) || Hits(op, f, clears)
  {
    var longer := ops + [op];
    if IsTarget(ops, f, clears) {
      var k :| 0 <= k < |ops| && Hits(ops[k], f, clears);
      assert Hits(longer[k], f, clears);
    }
    if Hits(op, f, clears) {
      assert Hits(longer[|ops|], f, clears);
    }
    if IsTarget(longer, f, clears) {
      var k :| 0 <= k < |longer| && Hits(longer[k], f, clears);
      assert k < |ops| ==> Hits(ops[k], f, clears);
    }
  }
}

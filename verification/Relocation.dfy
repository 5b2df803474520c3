/**
 The simulation argument behind `redirect_mappings`. Every DUP and MOVE it emits relocates
 some of the mappings that sit on one descriptor to a descriptor nobody sits on; this module
 says what such a program keeps true of every process it may run in.
 */
module Relocation {
  import opened FdTable

  /** Every descriptor that a mapping names is open. */
  ghost predicate NamesOpen(fds: seq<int>, t: Table) {
    forall i :: 0 <= i < |fds| && fds[i] >= 0 ==> fds[i] in t
  }

  ghost predicate KeepsSign(fds0: seq<int>, fds: seq<int>) {
    && |fds| == |fds0|
    && forall i :: 0 <= i < |fds| ==> if fds0[i] < 0 then fds[i] == fds0[i] else fds[i] >= 0
  }

  /** Each mapping is open now exactly if it was, and is on the file it was on. */
  ghost predicate SameFiles(fds0: seq<int>, t0: Table, fds: seq<int>, t: Table)
    requires |fds| == |fds0|
  {
    forall i :: 0 <= i < |fds0| && fds0[i] >= 0 ==>
      && (fds[i] in t <==> fds0[i] in t0)
      && (fds[i] in t ==> t[fds[i]].file == t0[fds0[i]].file)
  }

  /** A named descriptor was either written by the program or is as it was. */
  ghost predicate Settled(t0: Table, fds: seq<int>, t: Table, ops: seq<FdOp>, clears: bool) {
    forall f: nat :: f in fds ==>
      if IsTarget(ops, f, clears) then f in t && !t[f].cloexec
      else (f in t <==> f in t0) && (f in t ==> t[f] == t0[f])
  }

  ghost predicate Simulates(p: Process, fds0: seq<int>, fds: seq<int>, ops: seq<FdOp>, clears: bool)
    requires |fds| == |fds0|
  {
    var r := Run(p, ops, clears);
    if r.ok then
      SameFiles(fds0, p.fds, fds, r.process.fds) && Settled(p.fds, fds, r.process.fds, ops, clears)
    else
      !NamesOpen(fds0, p.fds)
  }

  /** The error descriptor is open on the file that was the error pipe at the start. */
  ghost predicate HoldsPipe(p: Process, r: Outcome)
    requires p.errorFd in p.fds
  {
    && r.ok
    && r.process.errorFd in r.process.fds
    && r.process.fds[r.process.errorFd].file == p.fds[p.errorFd].file
  }

  /** The helper was given an error descriptor, and every descriptor it was given is open. */
  ghost predicate HasPipe(p: Process, fds0: seq<int>) {
    && NamesOpen(fds0, p.fds)
    && p.errorFd >= 0 && p.errorFd in fds0 && p.errorFd in p.fds
  }

  ghost predicate AlwaysHoldsPipe(p: Process, ops: seq<FdOp>, clears: bool)
    requires p.errorFd in p.fds
  {
    forall k :: 0 <= k <= |ops| ==> HoldsPipe(p, Run(p, ops[..k], clears))
  }

  /** It does so all the way, and some mapping is on it. */
  ghost predicate FollowsPipe(p: Process, fds0: seq<int>, fds: seq<int>, ops: seq<FdOp>, clears: bool)
    requires |fds| == |fds0|
  {
    HasPipe(p, fds0) ==>
      AlwaysHoldsPipe(p, ops, clears) && Run(p, ops, clears).process.errorFd in fds
  }

  /** The program `ops` brought the mappings from `fds0` to `fds`, whatever process it runs in. */
  ghost predicate Sound(fds0: seq<int>, fds: seq<int>, ops: seq<FdOp>) {
    && KeepsSign(fds0, fds)
    && (forall p: Process, clears: bool :: Simulates(p, fds0, fds, ops, clears))
    && (forall p: Process, clears: bool :: FollowsPipe(p, fds0, fds, ops, clears))
  }

  /** Some of the mappings on `from`, at least one, now are on `to`, which nobody was on. */
  ghost predicate Relocated(fds: seq<int>, fds': seq<int>, from: nat, to: nat) {
    && |fds'| == |fds|
    && to !in fds && from in fds && to in fds'
    && forall i :: 0 <= i < |fds| ==> fds'[i] == fds[i] || (fds[i] == from && fds'[i] == to)
  }

  /** A DUP will always do; a MOVE only if it strands nobody. */
  ghost predicate Carries(op: FdOp, fds': seq<int>, from: nat, to: nat) {
    op == Dup(from, to) || (op == Move(from, to) && from !in fds')
  }

  lemma SoundStart(fds: seq<int>)
    ensures Sound(fds, fds, [])
  {
    forall p: Process, clears: bool ensures FollowsPipe(p, fds, fds, [], clears) {
      if HasPipe(p, fds) {
        var none: seq<FdOp> := [];
        forall k | 0 <= k <= |none| ensures HoldsPipe(p, Run(p, none[..k], clears)) {
          assert none[..k] == none;
        }
      }
    }
  }

  /** What one relocating operation does to the table. */
  lemma RelocateTable(p: Process, fds: seq<int>, fds': seq<int>, from: nat, to: nat, op: FdOp, clears: bool)
    requires Relocated(fds, fds', from, to) && Carries(op, fds', from, to)
    ensures var r := Exec(p, op, clears);
            && (r.ok <==> from in p.fds)
            && (r.ok ==> to in r.process.fds && r.process.fds[to] == Entry(p.fds[from].file, false))
            && (forall f :: f in fds' && f != to ==>
                  (f in r.process.fds <==> f in p.fds) && (f in p.fds ==> r.process.fds[f] == p.fds[f]))
  {
  }

  lemma {:induction false} RelocateFiles(p: Process, q: Process, fds0: seq<int>, fds: seq<int>, fds': seq<int>,
                                         from: nat, to: nat, op: FdOp, clears: bool)
    requires |fds| == |fds0| && SameFiles(fds0, p.fds, fds, q.fds) && KeepsSign(fds0, fds)
    requires Relocated(fds, fds', from, to) && Carries(op, fds', from, to) && Exec(q, op, clears).ok
    ensures SameFiles(fds0, p.fds, fds', Exec(q, op, clears).process.fds)
  {
    RelocateTable(q, fds, fds', from, to, op, clears);
  }

  lemma {:induction false} RelocateSettled(p: Process, q: Process, fds: seq<int>, ops: seq<FdOp>, fds': seq<int>,
                                           from: nat, to: nat, op: FdOp, clears: bool)
    requires Settled(p.fds, fds, q.fds, ops, clears)
    requires Relocated(fds, fds', from, to) && Carries(op, fds', from, to) && Exec(q, op, clears).ok
    ensures Settled(p.fds, fds', Exec(q, op, clears).process.fds, ops + [op], clears)
  {
    RelocateTable(q, fds, fds', from, to, op, clears);
    var t' := Exec(q, op, clears).process.fds;
    forall f: nat | f in fds'
      ensures if IsTarget(ops + [op], f, clears) then f in t' && !t'[f].cloexec
              else (f in t' <==> f in p.fds) && (f in t' ==> t'[f] == p.fds[f])
    {
      TargetAppend(ops, op, f, clears);
      assert f != to ==> f in fds;
    }
  }

  lemma {:induction false} RelocateSimulates(p: Process, fds0: seq<int>, fds: seq<int>, ops: seq<FdOp>,
                                             fds': seq<int>, from: nat, to: nat, op: FdOp, clears: bool)
    requires KeepsSign(fds0, fds) && Simulates(p, fds0, fds, ops, clears)
    requires Relocated(fds, fds', from, to) && Carries(op, fds', from, to)
    ensures Simulates(p, fds0, fds', ops + [op], clears)
  {
    RunAppend(p, ops, op, clears);
    var r, r' := Run(p, ops, clears), Run(p, ops + [op], clears);
    if r.ok {
      if r'.ok {
        RelocateFiles(p, r.process, fds0, fds, fds', from, to, op, clears);
        RelocateSettled(p, r.process, fds, ops, fds', from, to, op, clears);
      } else {
        RelocateTable(r.process, fds, fds', from, to, op, clears);
        var i :| 0 <= i < |fds| && fds[i] == from;
        assert fds0[i] >= 0;
      }
    }
  }

  lemma RelocateFollows(p: Process, fds0: seq<int>, fds: seq<int>, ops: seq<FdOp>,
                        fds': seq<int>, from: nat, to: nat, op: FdOp, clears: bool)
    requires KeepsSign(fds0, fds) && Simulates(p, fds0, fds, ops, clears)
    requires FollowsPipe(p, fds0, fds, ops, clears)
    requires Relocated(fds, fds', from, to) && Carries(op, fds', from, to)
    ensures FollowsPipe(p, fds0, fds', ops + [op], clears)
  {
    if HasPipe(p, fds0) {
      RunAppend(p, ops, op, clears);
      RelocateSimulates(p, fds0, fds, ops, fds', from, to, op, clears);
      assert ops[..|ops|] == ops;
      assert HoldsPipe(p, Run(p, ops, clears));
      var e, e' := Run(p, ops, clears).process.errorFd, Run(p, ops + [op], clears).process.errorFd;
      assert e' in fds' by {
        if e != from {
          var i :| 0 <= i < |fds| && fds[i] == e;
          assert fds'[i] == e;
        }
      }
      assert HoldsPipe(p, Run(p, ops + [op], clears));
      PrefixesExtend(p, ops, op, clears);
    }
  }

  lemma PrefixesExtend(p: Process, ops: seq<FdOp>, op: FdOp, clears: bool)
    requires p.errorFd in p.fds && AlwaysHoldsPipe(p, ops, clears)
    requires HoldsPipe(p, Run(p, ops + [op], clears))
    ensures AlwaysHoldsPipe(p, ops + [op], clears)
  {
    var longer := ops + [op];
    forall k | 0 <= k <= |longer| ensures HoldsPipe(p, Run(p, longer[..k], clears)) {
      if k <= |ops| {
        assert longer[..k] == ops[..k];
      } else {
        assert longer[..k] == longer;
      }
    }
  }

  lemma SoundRelocate(fds0: seq<int>, fds: seq<int>, ops: seq<FdOp>,
                      fds': seq<int>, from: nat, to: nat, op: FdOp)
    requires Sound(fds0, fds, ops)
    requires Relocated(fds, fds', from, to) && Carries(op, fds', from, to)
    ensures Sound(fds0, fds', ops + [op])
  {
    forall p: Process, clears: bool ensures Simulates(p, fds0, fds', ops + [op], clears) {
      assert Simulates(p, fds0, fds, ops, clears);
      RelocateSimulates(p, fds0, fds, ops, fds', from, to, op, clears);
    }
    forall p: Process, clears: bool ensures FollowsPipe(p, fds0, fds', ops + [op], clears) {
      assert Simulates(p, fds0, fds, ops, clears);
      assert FollowsPipe(p, fds0, fds, ops, clears);
      RelocateFollows(p, fds0, fds, ops, fds', from, to, op, clears);
    }
  }

  lemma SoundClear(fds0: seq<int>, fds: seq<int>, ops: seq<FdOp>, f: nat)
    requires Sound(fds0, fds, ops) && f in fds
    ensures Sound(fds0, fds, ops + [Dup(f, f)])
  {
    forall p: Process, clears: bool ensures Simulates(p, fds0, fds, ops + [Dup(f, f)], clears) {
      assert Simulates(p, fds0, fds, ops, clears);
      ClearSimulates(p, fds0, fds, ops, f, clears);
    }
    forall p: Process, clears: bool ensures FollowsPipe(p, fds0, fds, ops + [Dup(f, f)], clears) {
      assert Simulates(p, fds0, fds, ops, clears);
      assert FollowsPipe(p, fds0, fds, ops, clears);
      if HasPipe(p, fds0) {
        ClearSimulates(p, fds0, fds, ops, f, clears);
        RunAppend(p, ops, Dup(f, f), clears);
        assert ops[..|ops|] == ops;
        assert HoldsPipe(p, Run(p, ops, clears));
        assert HoldsPipe(p, Run(p, ops + [Dup(f, f)], clears));
        PrefixesExtend(p, ops, Dup(f, f), clears);
      }
    }
  }

  lemma ClearSimulates(p: Process, fds0: seq<int>, fds: seq<int>, ops: seq<FdOp>, f: nat, clears: bool)
    requires KeepsSign(fds0, fds) && Simulates(p, fds0, fds, ops, clears) && f in fds
    ensures Simulates(p, fds0, fds, ops + [Dup(f, f)], clears)
  {
    RunAppend(p, ops, Dup(f, f), clears);
    var r, r' := Run(p, ops, clears), Run(p, ops + [Dup(f, f)], clears);
    var i :| 0 <= i < |fds| && fds[i] == f;
    if r'.ok {
      forall g: nat | g in fds
        ensures if IsTarget(ops + [Dup(f, f)], g, clears) then g in r'.process.fds && !r'.process.fds[g].cloexec
                else (g in r'.process.fds <==> g in p.fds) && (g in r'.process.fds ==> r'.process.fds[g] == p.fds[g])
      {
        TargetAppend(ops, Dup(f, f), g, clears);
      }
    } else if r.ok {
      assert fds0[i] >= 0;
    }
  }
}

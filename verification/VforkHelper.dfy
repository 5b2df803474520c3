/**
 What `vfork_helper` makes of a plan: the loop that executes the operations on the process,
 the rewriting of the command line, and what the executed program finds open.
 */
module VforkHelper {
  import opened FdTable
  import opened Redirect
  import opened Wrappers

  const UUID_LENGTH: nat := 36
  const INT_MAX: int := 0x7fff_ffff

  /**
   What the system calls behind an operation make of the descriptors: `dup2`, `close` of the source of
   a MOVE, `open` after `close`, which finds the right descriptor only if all below it are open.
   */
  ghost predicate Means(op: FdOp, clears: bool, before: Table, after: Table, ok: bool) {
    match op
    case Dup(from, to) =>
      if from == to && !clears then ok && after == before
      else ok == (from in before) && after == if ok then before[to := Entry(before[from].file, false)] else before
    case Move(from, to) =>
      && ok == (from in before) && from !in after
      && (from != to ==> after - {to} == before - {from, to})
      && (ok && from != to ==> to in after && after[to] == Entry(before[from].file, false))
    case DevNullAt(fd) =>
      && (ok <==> forall f :: 0 <= f < fd ==> f in before)
      && (ok ==> after == before[fd := Entry(DevNull, false)])
    case CloseFrom(fd) =>
      && ok && (forall f :: f in after <==> f in before && f < fd)
      && forall f :: f in after ==> after[f] == before[f]
  }

  lemma {:induction false} ExecMeans(p: Process, op: FdOp, clears: bool)
    ensures var o := Exec(p, op, clears); Means(op, clears, p.fds, o.process.fds, o.ok)
  {
    match op
    case Dup(from, to) =>
    case Move(from, to) =>
    case DevNullAt(fd) =>
      var closed := p.fds - {fd};
      var got := LowestClosed(closed, 0);
      assert forall f :: 0 <= f < fd ==> (f in closed <==> f in p.fds);
      if got == fd {
        assert closed[fd := Entry(DevNull, false)] == p.fds[fd := Entry(DevNull, false)];
      }
    case CloseFrom(_) =>
  }

  /** The descriptors of the helper and the one it reports errors on. */
  class Kernel {
    var fds: Table
    var errorFd: int

    constructor (p: Process)
      ensures State() == p
    {
      fds, errorFd := p.fds, p.errorFd;
    }

    ghost function State(): Process
      reads this
    {
      Process(fds, errorFd)
    }

    method Close(fd: nat)
      modifies this`fds
      ensures fds == old(fds) - {fd}
    {
      fds := fds - {fd};
    }

    /** `open`: takes the lowest descriptor that is closed. */
    method OpenDevNull() returns (fd: nat)
      modifies this`fds
      ensures fd == LowestClosed(old(fds), 0)
      ensures fds == old(fds)[fd := Entry(DevNull, false)]
    {
      fd := 0;
      while fd in fds
        invariant LowestClosed(fds, fd) == LowestClosed(fds, 0)
        decreases OpenFrom(fds, fd)
      {
        assert fd in OpenFrom(fds, fd) && fd !in OpenFrom(fds, fd + 1);
        fd := fd + 1;
      }
      fds := fds[fd := Entry(DevNull, false)];
    }

    /** `dup2`, and the error descriptor follows what it was duplicated to. */
    method DupTo(from: nat, to: nat) returns (ok: bool)
      modifies this
      ensures Outcome(State(), ok) == Dup2(old(State()), from, to)
      ensures ok <==> from in old(fds)
      ensures fds == if ok then old(fds)[to := Entry(old(fds)[from].file, false)] else old(fds)
      ensures errorFd == if from == old(errorFd) then to else old(errorFd)
    {
      ok := from in fds;
      if ok {
        fds := fds[to := Entry(fds[from].file, false)];
      }
      if from == errorFd {
        errorFd := to;
      }
    }

    method Step(op: FdOp, clears: bool) returns (ok: bool)
      modifies this
      ensures Outcome(State(), ok) == Exec(old(State()), op, clears)
      ensures Means(op, clears, old(fds), fds, ok)
    {
      ExecMeans(State(), op, clears);
      ok := true;
      match op
      case Dup(from, to) =>
        if from != to {
          ok := DupTo(from, to);
        } else if clears {
          ok := from in fds;
          if ok {
            fds := fds[from := fds[from].(cloexec := false)];
          }
        }
      case Move(from, to) =>
        ok := DupTo(from, to);
        Close(from);
      case DevNullAt(fd) =>
        Close(fd);
        var got := OpenDevNull();
        ok := got == fd;
      case CloseFrom(fd) =>
        fds := map f | f in fds && f < fd :: fds[f];
    }

    /** The executing loop: one operation after the other until one fails. */
    method Execute(ops: seq<FdOp>, clears: bool) returns (ok: bool)
      modifies this
      ensures Outcome(State(), ok) == Run(old(State()), ops, clears)
    {
      var i := 0;
      ok := true;
      ghost var start := State();
      assert ops[..0] == [];
      while i < |ops| && ok
        invariant 0 <= i <= |ops|
        invariant Outcome(State(), ok) == Run(start, ops[..i], clears)
      {
        RunAppend(start, ops[..i], ops[i], clears);
        assert ops[..i + 1] == ops[..i] + [ops[i]];
        ok := Step(ops[i], clears);
        i := i + 1;
      }
      RunPrefix(start, ops, i, clears);
      assert ops[..|ops|] == ops;
    }
  }

  // ---------------------------------------------------------------------------------------
  // Arguments.

  /** `%d` of a descriptor. */
  function Decimal(n: nat): (s: string)
    ensures |s| >= 1
    ensures forall k :: 0 <= k < |s| ==> '0' <= s[k] <= '9'
  {
    var digit := [('0' as int + n % 10) as char];
    if n < 10 then digit else Decimal(n / 10) + digit
  }

  /** The number a string of decimal digits denotes. */
  function DecimalValue(s: string): int {
    if s == [] then 0 else DecimalValue(s[..|s| - 1]) * 10 + (s[|s| - 1] as int - '0' as int)
  }

  lemma {:induction false} DecimalRoundTrip(n: nat)
    ensures DecimalValue(Decimal(n)) == n
  {
    var s := Decimal(n);
    if n < 10 {
      assert s[..|s| - 1] == [];
    } else {
      assert s[..|s| - 1] == Decimal(n / 10);
      DecimalRoundTrip(n / 10);
    }
  }

  lemma {:induction false} DecimalShort(n: nat, digits: nat)
    requires digits >= 1 && n < Power10(digits)
    ensures |Decimal(n)| <= digits
    decreases digits
  {
    if n >= 10 {
      assert digits >= 2 && n / 10 < Power10(digits - 1);
      DecimalShort(n / 10, digits - 1);
    }
  }

  ghost function Power10(k: nat): nat {
    if k == 0 then 1 else 10 * Power10(k - 1)
  }

  lemma FdTextShort(n: nat)
    requires n <= INT_MAX
    ensures |Decimal(n)| < UUID_LENGTH
  {
    assert Power10(5) == 100000;
    assert Power10(10) == 10_000_000_000 by {
      assert Power10(10) == 10 * Power10(9) == 100 * Power10(8) == 1000 * Power10(7) == 10000 * Power10(6);
    }
    DecimalShort(n, 10);
  }

  /** The first mapping of that uuid, from `i` on, or the number of mappings if there is none. */
  function FirstOf(ms: seq<Mapping>, uuid: string, i: nat): (r: nat)
    requires i <= |ms|
    ensures i <= r <= |ms|
    ensures r < |ms| ==> ms[r].uuid == Some(uuid)
    ensures forall k :: i <= k < r ==> ms[k].uuid != Some(uuid)
    decreases |ms| - i
  {
    if i == |ms| || ms[i].uuid == Some(uuid) then i else FirstOf(ms, uuid, i + 1)
  }

  /** Uuids are as long as the option parser insists, and name a descriptor. */
  ghost predicate WellNamed(ms: seq<Mapping>) {
    forall i :: 0 <= i < |ms| && ms[i].uuid.Some? ==>
      |ms[i].uuid.value| == UUID_LENGTH && 0 <= ms[i].currentFd <= INT_MAX
  }

  /** An argument that ends in the uuid of a mapping ends in its descriptor instead. */
  function Adjusted(arg: string, ms: seq<Mapping>): string
    requires WellNamed(ms)
  {
    if |arg| < UUID_LENGTH then arg
    else
      var cut := |arg| - UUID_LENGTH;
      var i := FirstOf(ms, arg[cut..], 0);
      if i == |ms| then arg else arg[..cut] + Decimal(ms[i].currentFd)
  }

  /** The argument ends in the uuid of the mapping: its last 36 characters. */
  ghost predicate EndsIn(arg: string, m: Mapping) {
    |arg| >= 36 && m.uuid == Some(arg[|arg| - 36..])
  }

  /** `r` is the argument, with a decimal number in the place of its last 36 characters. */
  ghost predicate EndsInNumber(r: string, arg: string, n: int) {
    && |arg| >= 36 && |r| > |arg| - 36 && r[..|arg| - 36] == arg[..|arg| - 36]
    && (forall k :: |arg| - 36 <= k < |r| ==> '0' <= r[k] <= '9')
    && DecimalValue(r[|arg| - 36..]) == n
  }

  /** An argument that names no mapping stays; one that does ends in the descriptor of the first. */
  ghost predicate Rewritten(r: string, arg: string, ms: seq<Mapping>) {
    && ((forall i :: 0 <= i < |ms| ==> !EndsIn(arg, ms[i])) ==> r == arg)
    && (forall i :: 0 <= i < |ms| && EndsIn(arg, ms[i]) && (forall j :: 0 <= j < i ==> !EndsIn(arg, ms[j])) ==>
          EndsInNumber(r, arg, ms[i].currentFd))
  }

  lemma {:induction false} NumberAfter(prefix: string, n: nat)
    ensures var r := prefix + Decimal(n);
            && |r| > |prefix| && r[..|prefix|] == prefix && DecimalValue(r[|prefix|..]) == n
            && forall k :: |prefix| <= k < |r| ==> '0' <= r[k] <= '9'
  {
    var r := prefix + Decimal(n);
    DecimalRoundTrip(n);
    assert r[..|prefix|] == prefix && r[|prefix|..] == Decimal(n);
  }

  lemma {:induction false} AdjustedAt(arg: string, ms: seq<Mapping>, i: nat)
    requires WellNamed(ms) && i < |ms| && EndsIn(arg, ms[i])
    requires forall j :: 0 <= j < i ==> !EndsIn(arg, ms[j])
    ensures EndsInNumber(Adjusted(arg, ms), arg, ms[i].currentFd)
  {
    var first := FirstOf(ms, arg[|arg| - 36..], 0);
    assert first == i by {
      assert first < i ==> EndsIn(arg, ms[first]);
    }
    NumberAfter(arg[..|arg| - 36], ms[i].currentFd);
  }

  lemma {:induction false} AdjustedIs(arg: string, ms: seq<Mapping>)
    requires WellNamed(ms)
    ensures Rewritten(Adjusted(arg, ms), arg, ms)
  {
    if forall i :: 0 <= i < |ms| ==> !EndsIn(arg, ms[i]) {
      if |arg| >= 36 {
        var i := FirstOf(ms, arg[|arg| - 36..], 0);
        assert i < |ms| ==> EndsIn(arg, ms[i]);
      }
    } else {
      forall i | 0 <= i < |ms| && EndsIn(arg, ms[i]) && (forall j :: 0 <= j < i ==> !EndsIn(arg, ms[j]))
        ensures EndsInNumber(Adjusted(arg, ms), arg, ms[i].currentFd)
      {
        AdjustedAt(arg, ms, i);
      }
    }
  }

  method AdjustArg(arg: string, ms: seq<Mapping>) returns (r: string)
    requires WellNamed(ms)
    ensures r == Adjusted(arg, ms)
    ensures |arg| < 36 ==> r == arg
    ensures Rewritten(r, arg, ms)
  {
    r := arg;
    if |arg| >= UUID_LENGTH {
      r := ReplaceUuid(arg, ms);
    }
    AdjustedIs(arg, ms);
  }

  /** Looks for the last characters of a long enough argument in all mappings. */
  method ReplaceUuid(arg: string, ms: seq<Mapping>) returns (r: string)
    requires WellNamed(ms) && |arg| >= UUID_LENGTH
    ensures r == Adjusted(arg, ms)
  {
    var cut := |arg| - UUID_LENGTH;
    var uuid := arg[cut..];
    ghost var first := FirstOf(ms, uuid, 0);
    for i := 0 to |ms|
      invariant uuid == if i <= first then arg[cut..] else Decimal(ms[first].currentFd)
    {
      if ms[i].uuid == Some(uuid) {
        if i > first {
          FdTextShort(ms[first].currentFd);
        }
        uuid := Decimal(ms[i].currentFd);
      }
    }
    r := arg[..cut] + uuid;
    assert arg == arg[..cut] + arg[cut..];
  }

  /** Rewrites every argument in place. */
  method AdjustArgs(args: array<string>, ms: seq<Mapping>)
    requires WellNamed(ms)
    modifies args
    ensures forall k :: 0 <= k < args.Length ==> args[k] == Adjusted(old(args[k]), ms)
    ensures forall k :: 0 <= k < args.Length ==> Rewritten(args[k], old(args[k]), ms)
    ensures forall k :: 0 <= k < args.Length && |old(args[k])| < 36 ==> args[k] == old(args[k])
  {
    for k := 0 to args.Length
      invariant forall j :: 0 <= j < k ==> args[j] == Adjusted(old(args[j]), ms) && Rewritten(args[j], old(args[j]), ms)
      invariant forall j :: 0 <= j < k && |old(args[j])| < 36 ==> args[j] == old(args[j])
      invariant forall j :: k <= j < args.Length ==> args[j] == old(args[j])
    {
      args[k] := AdjustArg(args[k], ms);
    }
  }
}

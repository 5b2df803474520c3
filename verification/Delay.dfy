/**
 `delay_signal` and `delay_wait` with any number of threads in either call, interleaved at
 every access to the mutex, the condition variable and the flag. Waits may wake without being
 signalled, time out or fail; a signal on the condition wakes at least one blocked wait.
 */
module Delay {
  import opened Collections

  datatype WaitError = Zero | TimedOut | Failed

  /** Where a call of `delay_wait` is. */
  datatype Wait =
    | Entering
    | Checking
    | Blocked
    | Woken(err: WaitError)
    | Leaving(err: WaitError)
    | Done(err: WaitError)

  /** Where a call of `delay_signal` is, by way of either of its two locks. */
  datatype Signal = Arriving | Holding | FlagSet | Signalled | Gone

  datatype Owner = Nobody | ByWait(id: nat) | BySignal(id: nat)

  /** `sent` counts flag-raising steps, `merged` those that found the flag already up. */
  datatype State = State(
    signaled: bool, mutex: Owner, waits: map<nat, Wait>, signals: map<nat, Signal>,
    sent: nat, merged: nat, taken: nat)

  datatype Action =
    | StartWait(id: nat)
    | WaitLocks(id: nat)
    | Check(id: nat)
    | Wakes(id: nat, err: WaitError)
    | Reacquires(id: nat)
    | WaitUnlocks(id: nat)
    | StartSignal(id: nat)
    | SignalLocks(id: nat)
    | RaiseFlag(id: nat)
    | SignalCond(id: nat, woken: set<nat>)
    | SignalUnlocks(id: nat)

  const INIT: State := State(false, Nobody, map[], map[], 0, 0, 0)

  ghost function BlockedWaits(s: State): set<nat> {
    set w | w in s.waits && s.waits[w] == Blocked
  }

  ghost predicate Enabled(s: State, a: Action) {
    match a
    case StartWait(id) => id !in s.waits
    case WaitLocks(id) => id in s.waits && s.waits[id] == Entering && s.mutex == Nobody
    case Check(id) => id in s.waits && s.waits[id] == Checking
    case Wakes(id, _) => id in s.waits && s.waits[id] == Blocked
    case Reacquires(id) => id in s.waits && s.waits[id].Woken? && s.mutex == Nobody
    case WaitUnlocks(id) => id in s.waits && s.waits[id].Leaving?
    case StartSignal(id) => id !in s.signals
    case SignalLocks(id) => id in s.signals && s.signals[id] == Arriving && s.mutex == Nobody
    case RaiseFlag(id) => id in s.signals && s.signals[id] == Holding
    case SignalCond(id, woken) =>
      && id in s.signals && s.signals[id] == FlagSet
      && woken <= BlockedWaits(s) && (woken == {} ==> BlockedWaits(s) == {})
    case SignalUnlocks(id) => id in s.signals && s.signals[id] == Signalled
  }

  ghost function Do(s: State, a: Action): State
    requires Enabled(s, a)
  {
    match a
    case StartWait(id) => s.(waits := s.waits[id := Entering])
    case WaitLocks(id) => s.(waits := s.waits[id := Checking], mutex := ByWait(id))
    case Check(id) =>
      if s.signaled then s.(waits := s.waits[id := Leaving(Zero)], signaled := false, taken := s.taken + 1)
      else s.(waits := s.waits[id := Blocked], mutex := Nobody)
    case Wakes(id, err) => s.(waits := s.waits[id := Woken(err)])
    case Reacquires(id) =>
      var err := s.waits[id].err;
      s.(waits := s.waits[id := if err == Zero then Checking else Leaving(err)], mutex := ByWait(id))
    case WaitUnlocks(id) => s.(waits := s.waits[id := Done(s.waits[id].err)], mutex := Nobody)
    case StartSignal(id) => s.(signals := s.signals[id := Arriving])
    case SignalLocks(id) => s.(signals := s.signals[id := Holding], mutex := BySignal(id))
    case RaiseFlag(id) =>
      s.(signals := s.signals[id := FlagSet], signaled := true,
         sent := s.sent + 1, merged := s.merged + if s.signaled then 1 else 0)
    case SignalCond(id, woken) =>
      s.(signals := s.signals[id := Signalled],
         waits := map w | w in s.waits :: if w in woken then Woken(Zero) else s.waits[w])
    case SignalUnlocks(id) => s.(signals := s.signals[id := Gone], mutex := Nobody)
  }

  /** One step of an interleaving. */
  ghost predicate StepAt(run: seq<State>, actions: seq<Action>, i: int) {
    0 <= i < |actions| && i + 1 < |run| ==> Enabled(run[i], actions[i]) && run[i + 1] == Do(run[i], actions[i])
  }

  ghost predicate IsRun(run: seq<State>, actions: seq<Action>) {
    && |run| == |actions| + 1 && run[0] == INIT
    && forall i: int :: StepAt(run, actions, i)
  }

  /** The waits that took a signal: they return 0 or already have. */
  ghost function Winners(s: State): set<nat> {
    set w | w in s.waits && (s.waits[w] == Leaving(Zero) || s.waits[w] == Done(Zero))
  }

  /** The waits that have returned 0. */
  ghost function Returned(s: State): set<nat> {
    set w | w in s.waits && s.waits[w] == Done(Zero)
  }

  predicate InWait(w: Wait) {
    w == Checking || w.Leaving?
  }

  predicate InSignal(g: Signal) {
    g == Holding || g == FlagSet || g == Signalled
  }

  /** The mutex belongs to the one call that is inside. */
  ghost predicate MutexInv(s: State) {
    && (s.mutex.ByWait? ==> s.mutex.id in s.waits)
    && (s.mutex.BySignal? ==> s.mutex.id in s.signals)
    && (forall w :: w in s.waits ==> (InWait(s.waits[w]) <==> s.mutex == ByWait(w)))
    && (forall g :: g in s.signals ==> (InSignal(s.signals[g]) <==> s.mutex == BySignal(g)))
  }

  /** Every signal sent was taken by one wait, is pending, or met one that was pending. */
  ghost predicate Conservation(s: State) {
    && s.sent == s.taken + s.merged + (if s.signaled then 1 else 0)
    && |Winners(s)| == s.taken
  }

  /** Some wait is on its way to look at the flag. */
  ghost predicate SomeoneLooks(s: State) {
    exists w :: w in s.waits && (s.waits[w] == Checking || s.waits[w] == Woken(Zero))
  }

  /** No signal is slept through: while one is pending a blocked wait is not alone. */
  ghost predicate NoLostWakeup(s: State) {
    s.signaled && BlockedWaits(s) != {} ==>
      SomeoneLooks(s) || exists g :: g in s.signals && s.signals[g] == FlagSet
  }

  ghost predicate Inv(s: State) {
    MutexInv(s) && Conservation(s) && NoLostWakeup(s)
  }

  lemma StepKeepsMutex(s: State, a: Action)
    requires MutexInv(s) && Enabled(s, a)
    ensures MutexInv(Do(s, a))
  {
  }

  /** Only a look at a raised flag makes a winner. */
  lemma {:induction false} StepKeepsWinners(s: State, a: Action, w: nat)
    requires Enabled(s, a)
    ensures w in Winners(Do(s, a)) <==> w in Winners(s) || (s.signaled && a == Check(w))
    ensures a == Check(w) ==> w !in Winners(s)
  {
  }

  lemma {:induction false} StepKeepsConservation(s: State, a: Action)
    requires Conservation(s) && Enabled(s, a)
    ensures Conservation(Do(s, a))
  {
    var s' := Do(s, a);
    forall w: nat ensures w in Winners(s') <==> w in Winners(s) || (s.signaled && a == Check(w)) {
      StepKeepsWinners(s, a, w);
    }
    if a.Check? && s.signaled {
      StepKeepsWinners(s, a, a.id);
      assert Winners(s') == Winners(s) + {a.id};
    } else {
      assert Winners(s') == Winners(s);
    }
  }

  lemma StepKeepsWakeup(s: State, a: Action)
    requires MutexInv(s) && NoLostWakeup(s) && Enabled(s, a)
    ensures NoLostWakeup(Do(s, a))
  {
    var s' := Do(s, a);
    if s'.signaled && BlockedWaits(s') != {} {
      match a
      case RaiseFlag(id) =>
        assert s'.signals[id] == FlagSet;
      case SignalCond(id, woken) =>
        assert BlockedWaits(s') <= BlockedWaits(s);
        var w :| w in woken;
        assert s'.waits[w] == Woken(Zero);
      case _ =>
        assert BlockedWaits(s') <= BlockedWaits(s);
        StillLooks(s, a);
    }
  }

  lemma StillLooks(s: State, a: Action)
    requires MutexInv(s) && NoLostWakeup(s) && Enabled(s, a) && !a.RaiseFlag? && !a.SignalCond?
    requires s.signaled && Do(s, a).signaled && BlockedWaits(s) != {}
    ensures SomeoneLooks(Do(s, a)) || exists g :: g in Do(s, a).signals && Do(s, a).signals[g] == FlagSet
  {
    var s' := Do(s, a);
    if SomeoneLooks(s) {
      var w :| w in s.waits && (s.waits[w] == Checking || s.waits[w] == Woken(Zero));
      assert s'.waits[w] == Checking || s'.waits[w] == Woken(Zero);
    } else {
      var g :| g in s.signals && s.signals[g] == FlagSet;
      assert s'.signals[g] == FlagSet;
    }
  }

  lemma {:induction false} RunKeepsInv(run: seq<State>, actions: seq<Action>, i: nat)
    requires IsRun(run, actions) && i < |run|
    ensures Inv(run[i])
  {
    if i == 0 {
      assert Winners(INIT) == {} && BlockedWaits(INIT) == {};
    } else {
      RunKeepsInv(run, actions, i - 1);
      assert StepAt(run, actions, i - 1);
      StepKeepsMutex(run[i - 1], actions[i - 1]);
      StepKeepsConservation(run[i - 1], actions[i - 1]);
      StepKeepsWakeup(run[i - 1], actions[i - 1]);
    }
  }

  ghost function CountSent(actions: seq<Action>): nat {
    if actions == [] then 0
    else CountSent(actions[..|actions| - 1]) + if actions[|actions| - 1].RaiseFlag? then 1 else 0
  }

  lemma {:induction false} SentCounts(run: seq<State>, actions: seq<Action>, i: nat)
    requires IsRun(run, actions) && i < |run|
    ensures run[i].sent == CountSent(actions[..i])
  {
    if i == 0 {
      assert actions[..0] == [];
    } else {
      SentCounts(run, actions, i - 1);
      assert actions[..i][..i - 1] == actions[..i - 1];
      assert StepAt(run, actions, i - 1);
    }
  }

  /** In every run no more waits return 0 than there were signals. */
  lemma SuccessesBounded(run: seq<State>, actions: seq<Action>, i: nat)
    requires IsRun(run, actions) && i < |run|
    ensures |Returned(run[i])| + (if run[i].signaled then 1 else 0) <= CountSent(actions[..i])
  {
    RunKeepsInv(run, actions, i);
    SentCounts(run, actions, i);
    SubsetSize(Returned(run[i]), Winners(run[i]));
  }

  /** A pending signal ends only when one wait takes it, and that wait returns 0. */
  lemma TakenByOne(run: seq<State>, actions: seq<Action>, i: nat)
    requires IsRun(run, actions) && i < |actions|
    requires run[i].signaled && !run[i + 1].signaled
    ensures actions[i].Check? && actions[i].id in run[i + 1].waits && run[i + 1].waits[actions[i].id] == Leaving(Zero)
    ensures run[i + 1].taken == run[i].taken + 1
    ensures forall w :: w in run[i].waits && w != actions[i].id ==>
              w in run[i + 1].waits && run[i + 1].waits[w] == run[i].waits[w]
  {
    assert StepAt(run, actions, i);
  }

  lemma StepKeepsTaken(s: State, a: Action, w: nat)
    requires Enabled(s, a) && w in Winners(s)
    ensures w in Winners(Do(s, a))
  {
  }

  /** Once it has taken a signal a wait returns 0, whatever the others do. */
  lemma {:induction false} TakenIsKept(run: seq<State>, actions: seq<Action>, i: nat, j: nat, w: nat)
    requires IsRun(run, actions) && i <= j < |run|
    requires w in Winners(run[i])
    ensures w in Winners(run[j])
    decreases j - i
  {
    if i < j {
      TakenIsKept(run, actions, i, j - 1, w);
      assert StepAt(run, actions, j - 1);
      StepKeepsTaken(run[j - 1], actions[j - 1], w);
    }
  }

  /** A step of the wait `w` itself. */
  predicate StepOf(a: Action, w: nat) {
    match a
    case StartWait(id) => id == w
    case WaitLocks(id) => id == w
    case Check(id) => id == w
    case Wakes(id, _) => id == w
    case Reacquires(id) => id == w
    case WaitUnlocks(id) => id == w
    case _ => false
  }

  /** A wait that ends with a timeout or an error has at no time taken a signal, or touched the flag. */
  lemma {:induction false} TimeoutTakesNothing(run: seq<State>, actions: seq<Action>, j: nat, w: nat)
    requires IsRun(run, actions) && j < |run| && w in run[j].waits
    requires run[j].waits[w].Done? && run[j].waits[w].err != Zero
    ensures forall i :: 0 <= i <= j ==> w !in Winners(run[i])
    ensures forall i :: 0 <= i < j && StepOf(actions[i], w) ==>
              run[i + 1].signaled == run[i].signaled && run[i + 1].taken == run[i].taken
  {
    forall i | 0 <= i <= j ensures w !in Winners(run[i]) {
      if w in Winners(run[i]) {
        TakenIsKept(run, actions, i, j, w);
      }
    }
    forall i | 0 <= i < j && StepOf(actions[i], w)
      ensures run[i + 1].signaled == run[i].signaled && run[i + 1].taken == run[i].taken
    {
      assert StepAt(run, actions, i);
      assert w !in Winners(run[i + 1]);
    }
  }

  /** How many steps the wait `w` takes. */
  function CountOf(actions: seq<Action>, w: nat, i: nat, j: nat): nat
    requires i <= j <= |actions|
    decreases j - i
  {
    if i == j then 0 else CountOf(actions, w, i, j - 1) + if StepOf(actions[j - 1], w) then 1 else 0
  }

  /** Where a wait whose timed wait did not succeed is after that many more of its steps. */
  ghost predicate GivesUp(s: State, w: nat, err: WaitError, steps: nat) {
    && w in s.waits
    && s.waits[w] == (if steps == 0 then Woken(err) else if steps == 1 then Leaving(err) else Done(err))
  }

  lemma StepGivesUp(s: State, a: Action, w: nat, err: WaitError, steps: nat)
    requires Enabled(s, a) && GivesUp(s, w, err, steps) && err != Zero
    ensures GivesUp(Do(s, a), w, err, if StepOf(a, w) then steps + 1 else steps)
  {
  }

  /** A wait that timed out or failed returns just that, with its second step after it. */
  lemma {:induction false} TimeoutReturned(run: seq<State>, actions: seq<Action>, i: nat, j: nat, w: nat, err: WaitError)
    requires IsRun(run, actions) && i < j < |run|
    requires actions[i] == Wakes(w, err) && err != Zero
    ensures GivesUp(run[j], w, err, CountOf(actions, w, i + 1, j))
    ensures CountOf(actions, w, i + 1, j) >= 2 ==> run[j].waits[w] == Done(err)
    decreases j - i
  {
    assert StepAt(run, actions, j - 1);
    if i < j - 1 {
      TimeoutReturned(run, actions, i, j - 1, w, err);
      StepGivesUp(run[j - 1], actions[j - 1], w, err, CountOf(actions, w, i + 1, j - 1));
    }
  }

  ghost predicate HasError(s: State, w: nat, err: WaitError) {
    w in s.waits && (s.waits[w] == Woken(err) || s.waits[w] == Leaving(err) || s.waits[w] == Done(err))
  }

  /** No wait returns a timeout or an error that its timed wait did not report. */
  lemma {:induction false} TimeoutCaused(run: seq<State>, actions: seq<Action>, j: nat, w: nat, err: WaitError)
    requires IsRun(run, actions) && j < |run| && HasError(run[j], w, err) && err != Zero
    ensures exists i :: 0 <= i < j && actions[i] == Wakes(w, err)
  {
    if j > 0 {
      assert StepAt(run, actions, j - 1);
      if HasError(run[j - 1], w, err) {
        TimeoutCaused(run, actions, j - 1, w, err);
      } else {
        assert actions[j - 1] == Wakes(w, err);
      }
    }
  }

  /** A wait that looks at a free mutex or holds it gets to look; it is never left behind. */
  lemma PendingIsSeen(run: seq<State>, actions: seq<Action>, i: nat)
    requires IsRun(run, actions) && i < |run|
    requires run[i].signaled && BlockedWaits(run[i]) != {} && run[i].mutex == Nobody
    ensures exists w :: w in run[i].waits && run[i].waits[w] == Woken(Zero) && Enabled(run[i], Reacquires(w))
  {
    RunKeepsInv(run, actions, i);
    assert SomeoneLooks(run[i]);
    var w :| w in run[i].waits && (run[i].waits[w] == Checking || run[i].waits[w] == Woken(Zero));
    assert Enabled(run[i], Reacquires(w));
  }
}

/**
 `wait_process_timeout` and its killer thread as two threads that interleave at every access to
 the mutex, the condition variable, the shared fields and the process. The condition variable
 may wake without being signalled, time out or fail, the process may exit at any moment, and its
 pid may be reaped, and then belong to someone else, only after the caller has its answer.
 */
module WaitTimeout {

  /** What `pthread_cond_timedwait` returned, 0 also when it was not called. */
  datatype WaitResult = Zero | TimedOut | Failed

  datatype KillerPc =
    | NoThread
    | Lock
    | Locked
    | Blocked
    | Waking(res: WaitResult)
    | Woken(res: WaitResult)
    | Unlocked(res: WaitResult)
    | Killed
    | Exited

  datatype WaiterPc =
    | Starting
    | WaitingProcess
    | StopLock
    | StopLocked
    | StopSet
    | StopSignalled
    | Joining
    | Returned(res: int)

  datatype Child = Running | Zombie | Reaped

  datatype Owner = Nobody | Killer | Waiter

  /** `err` is the negative error of `waitid`; `kills` counts the signals sent. */
  datatype State = State(
    killer: KillerPc, waiter: WaiterPc, child: Child, mutex: Owner,
    stop: bool, timedOut: bool, err: int, kills: nat)

  datatype Action =
    | CreateThread | CreateFails(code: int)
    | Interrupted | ChildSeen | WaitidFails(code: int)
    | WLock | WStop | WBroadcast | WUnlock | WJoin
    | KLock | KTest | KSpurious | KTimeout | KFails | KReacquire | KUnlock | KKill | KMark | KLoop
    | ChildExits | Reap

  const INIT: State := State(NoThread, Starting, Running, Nobody, false, false, 0, 0)

  /** Whether a thread can take the step now. */
  predicate Enabled(s: State, a: Action) {
    match a
    case CreateThread => s.waiter == Starting
    case CreateFails(code) => s.waiter == Starting && code > 0
    case Interrupted => s.waiter == WaitingProcess
    case ChildSeen => s.waiter == WaitingProcess && s.child == Zombie
    case WaitidFails(code) => s.waiter == WaitingProcess && code > 0
    case WLock => s.waiter == StopLock && s.mutex == Nobody
    case WStop => s.waiter == StopLocked
    case WBroadcast => s.waiter == StopSet
    case WUnlock => s.waiter == StopSignalled
    case WJoin => s.waiter == Joining && s.killer == Exited
    case KLock => s.killer == Lock && s.mutex == Nobody
    case KTest => s.killer == Locked
    case KSpurious => s.killer == Blocked
    case KTimeout => s.killer == Blocked
    case KFails => s.killer == Blocked
    case KReacquire => s.killer.Waking? && s.mutex == Nobody
    case KUnlock => s.killer.Woken?
    case KKill => s.killer == Unlocked(TimedOut)
    case KMark => s.killer == Killed
    case KLoop => s.killer.Unlocked? && s.killer.res != TimedOut
    case ChildExits => s.child == Running
    case Reap => s.child == Zombie && s.waiter.Returned?
  }

  function Do(s: State, a: Action): State
    requires Enabled(s, a)
  {
    match a
    case CreateThread => s.(waiter := WaitingProcess, killer := Lock)
    case CreateFails(code) => s.(waiter := Returned(-code))
    case Interrupted => s
    case ChildSeen => s.(waiter := StopLock)
    case WaitidFails(code) => s.(waiter := StopLock, err := -code)
    case WLock => s.(waiter := StopLocked, mutex := Waiter)
    case WStop => s.(waiter := StopSet, stop := true)
    case WBroadcast => s.(waiter := StopSignalled, killer := if s.killer == Blocked then Waking(Zero) else s.killer)
    case WUnlock => s.(waiter := Joining, mutex := Nobody)
    case WJoin => s.(waiter := Returned(if s.err != 0 then s.err else if s.timedOut then 1 else 0))
    case KLock => s.(killer := Locked, mutex := Killer)
    case KTest => if s.stop then s.(killer := Woken(Zero)) else s.(killer := Blocked, mutex := Nobody)
    case KSpurious => s.(killer := Waking(Zero))
    case KTimeout => s.(killer := Waking(TimedOut))
    case KFails => s.(killer := Waking(Failed))
    case KReacquire => s.(killer := Woken(s.killer.res), mutex := Killer)
    case KUnlock => s.(killer := Unlocked(s.killer.res), mutex := Nobody)
    case KKill => s.(killer := Killed, kills := s.kills + 1)
    case KMark => s.(killer := Exited, timedOut := true)
    case KLoop => s.(killer := if !s.stop && s.killer.res == Zero then Lock else Exited)
    case ChildExits => s.(child := Zombie)
    case Reap => s.(child := Reaped)
  }

  /** One step of an interleaving. */
  ghost predicate StepAt(run: seq<State>, actions: seq<Action>, i: int) {
    0 <= i < |actions| && i + 1 < |run| ==> Enabled(run[i], actions[i]) && run[i + 1] == Do(run[i], actions[i])
  }

  /** Some interleaving of the threads, step by step. */
  ghost predicate IsRun(run: seq<State>, actions: seq<Action>) {
    && |run| == |actions| + 1 && run[0] == INIT
    && forall i: int :: StepAt(run, actions, i)
  }

  /** What every interleaving keeps. */
  predicate Inv(s: State) {
    // The mutex is held by the thread that is between its lock and its unlock.
    && (s.mutex == Killer <==> s.killer == Locked || s.killer.Woken?)
    && (s.mutex == Waiter <==> s.waiter == StopLocked || s.waiter == StopSet || s.waiter == StopSignalled)
    && (s.stop <==> s.waiter == StopSet || s.waiter == StopSignalled || s.waiter == Joining
                    || (s.waiter.Returned? && s.killer != NoThread))
    // The thread lives from its creation until before the answer is given.
    && (s.waiter == Starting ==> s.killer == NoThread)
    && (s.killer == NoThread ==> s.waiter == Starting || s.waiter.Returned?)
    && (s.waiter.Returned? ==> s.killer == NoThread || s.killer == Exited)
    && (s.child == Reaped ==> s.waiter.Returned?)
    // Nobody sleeps through the stop: only until the broadcast of the very thread that set it.
    && (s.stop && s.killer == Blocked ==> s.waiter == StopSet)
    // One kill at most, marked before the thread ends.
    && s.kills <= 1
    && (s.kills == 1 <==> s.killer == Killed || s.timedOut)
    && (s.timedOut ==> s.killer == Exited)
    // The answer.
    && s.err <= 0
    && (s.waiter.Returned? && s.killer == Exited ==>
          s.waiter.res == if s.err != 0 then s.err else if s.timedOut then 1 else 0)
    && (s.waiter.Returned? && s.killer == NoThread ==> s.waiter.res < 0 && s.kills == 0)
  }

  lemma StepKeepsInv(s: State, a: Action)
    requires Inv(s) && Enabled(s, a)
    ensures Inv(Do(s, a))
  {
  }

  lemma {:induction false} RunKeepsInv(run: seq<State>, actions: seq<Action>, i: nat)
    requires IsRun(run, actions) && i < |run|
    ensures Inv(run[i])
  {
    if i > 0 {
      RunKeepsInv(run, actions, i - 1);
      assert StepAt(run, actions, i - 1);
      StepKeepsInv(run[i - 1], actions[i - 1]);
    }
  }

  lemma StepAfterAnswer(s: State, a: Action)
    requires Inv(s) && Enabled(s, a) && s.waiter.Returned?
    ensures Do(s, a).waiter == s.waiter && Do(s, a).kills == s.kills
  {
  }

  lemma StepKeepsKills(s: State, a: Action)
    requires Enabled(s, a)
    ensures Do(s, a).kills == s.kills + if a == KKill then 1 else 0
  {
  }

  lemma {:induction false} AnswerStays(run: seq<State>, actions: seq<Action>, i: nat, j: nat)
    requires IsRun(run, actions) && i <= j < |run| && run[i].waiter.Returned?
    ensures run[j].waiter == run[i].waiter && run[j].kills == run[i].kills
    decreases j - i
  {
    if i < j {
      AnswerStays(run, actions, i, j - 1);
      RunKeepsInv(run, actions, j - 1);
      assert StepAt(run, actions, j - 1);
      StepAfterAnswer(run[j - 1], actions[j - 1]);
    }
  }

  /** Every kill in every run comes before the answer, so it hits the child, not a reused pid. */
  lemma KillsBeforeAnswer(run: seq<State>, actions: seq<Action>, i: nat)
    requires IsRun(run, actions) && i < |actions| && actions[i] == KKill
    ensures forall j :: 0 <= j <= i ==> !run[j].waiter.Returned?
    ensures run[i].child != Reaped
    ensures forall j :: 0 <= j < |actions| && actions[j] == KKill ==> j == i
  {
    RunKeepsInv(run, actions, i);
    assert StepAt(run, actions, i);
    forall j | 0 <= j <= i ensures !run[j].waiter.Returned? {
      if run[j].waiter.Returned? {
        AnswerStays(run, actions, j, i);
      }
    }
    forall j | 0 <= j < |actions| && actions[j] == KKill ensures j == i {
      if j < i {
        KillsAccumulate(run, actions, j, i);
      } else if i < j {
        KillsAccumulate(run, actions, i, j);
      }
    }
  }

  lemma {:induction false} KillsGrow(run: seq<State>, actions: seq<Action>, i: nat, j: nat)
    requires IsRun(run, actions) && i <= j < |run|
    ensures run[i].kills <= run[j].kills
    decreases j - i
  {
    if i < j {
      KillsGrow(run, actions, i, j - 1);
      assert StepAt(run, actions, j - 1);
      StepKeepsKills(run[j - 1], actions[j - 1]);
    }
  }

  /** No two kills: the counter would pass 1. */
  lemma KillsAccumulate(run: seq<State>, actions: seq<Action>, i: nat, j: nat)
    requires IsRun(run, actions) && i < j < |actions|
    ensures !(actions[i] == KKill && actions[j] == KKill)
  {
    if actions[i] == KKill && actions[j] == KKill {
      assert StepAt(run, actions, i) && StepAt(run, actions, j);
      KillsGrow(run, actions, i + 1, j);
      RunKeepsInv(run, actions, j + 1);
    }
  }

  /** Without an error the answer is 1 exactly if the run contains a kill. */
  lemma AnswerMeansKill(run: seq<State>, actions: seq<Action>)
    requires IsRun(run, actions) && run[|actions|].waiter.Returned?
    ensures var res := run[|actions|].waiter.res;
            && res <= 1
            && (res >= 0 ==> (res == 1 <==> exists i :: 0 <= i < |actions| && actions[i] == KKill))
  {
    var n := |actions|;
    RunKeepsInv(run, actions, n);
    if i :| 0 <= i < n && actions[i] == KKill {
      assert StepAt(run, actions, i);
      KillsGrow(run, actions, i + 1, n);
    } else {
      NoKillNoCount(run, actions, n);
    }
  }

  lemma {:induction false} NoKillNoCount(run: seq<State>, actions: seq<Action>, j: nat)
    requires IsRun(run, actions) && j < |run|
    requires forall i :: 0 <= i < |actions| ==> actions[i] != KKill
    ensures run[j].kills == 0
  {
    if j > 0 {
      NoKillNoCount(run, actions, j - 1);
      assert StepAt(run, actions, j - 1);
      StepKeepsKills(run[j - 1], actions[j - 1]);
    }
  }

  // ---------------------------------------------------------------------------------------
  // The answer, by what happened.

  /** The killer has seen the timeout, and has yet to kill or has killed. */
  predicate Expired(s: State) {
    s.killer == Waking(TimedOut) || s.killer == Woken(TimedOut) || s.killer == Unlocked(TimedOut)
    || s.killer == Killed || s.timedOut
  }

  /** The wait of the killer has failed. */
  predicate Broken(s: State) {
    s.killer == Waking(Failed) || s.killer == Woken(Failed) || s.killer == Unlocked(Failed)
  }

  lemma StepExpires(s: State, a: Action)
    requires Inv(s) && Enabled(s, a)
    ensures Expired(Do(s, a)) <==> Expired(s) || a == KTimeout
    ensures Broken(Do(s, a)) ==> Broken(s) || a == KFails
  {
  }

  lemma {:induction false} ExpiredIff(run: seq<State>, actions: seq<Action>, j: nat)
    requires IsRun(run, actions) && j < |run|
    ensures Expired(run[j]) <==> exists i :: 0 <= i < j && actions[i] == KTimeout
  {
    if j > 0 {
      ExpiredIff(run, actions, j - 1);
      RunKeepsInv(run, actions, j - 1);
      assert StepAt(run, actions, j - 1);
      StepExpires(run[j - 1], actions[j - 1]);
    }
  }

  lemma {:induction false} BrokenBy(run: seq<State>, actions: seq<Action>, j: nat)
    requires IsRun(run, actions) && j < |run| && Broken(run[j])
    ensures exists i :: 0 <= i < j && actions[i] == KFails
  {
    if j > 0 {
      RunKeepsInv(run, actions, j - 1);
      assert StepAt(run, actions, j - 1);
      StepExpires(run[j - 1], actions[j - 1]);
      if Broken(run[j - 1]) {
        BrokenBy(run, actions, j - 1);
      }
    }
  }

  /** Without an error the answer is 1 if the killer's wait timed out, and 0 if it never did. */
  lemma AnswerMeansTimeout(run: seq<State>, actions: seq<Action>)
    requires IsRun(run, actions) && run[|actions|].waiter.Returned? && run[|actions|].waiter.res >= 0
    ensures run[|actions|].waiter.res == if exists i :: 0 <= i < |actions| && actions[i] == KTimeout then 1 else 0
  {
    RunKeepsInv(run, actions, |actions|);
    ExpiredIff(run, actions, |actions|);
  }

  /** What the errors have made of the state so far. */
  predicate Errs(s: State, created: bool, code: int) {
    && (created ==> s.waiter == Returned(-code))
    && (!created ==> s.err == -code)
  }

  /** An error of the thread's creation or of `waitid` ends the waiting, so there is one at most. */
  lemma StepErrs(s: State, a: Action)
    requires Inv(s) && Enabled(s, a)
    ensures a.CreateFails? ==> Errs(Do(s, a), true, a.code)
    ensures a.WaitidFails? ==> Errs(Do(s, a), false, a.code)
    ensures s.waiter != Starting && s.waiter != WaitingProcess ==>
              Do(s, a).waiter != WaitingProcess && Do(s, a).waiter != Starting && Do(s, a).err == s.err
    ensures !a.WaitidFails? ==> Do(s, a).err == s.err
    ensures !a.CreateFails? && Do(s, a).killer == NoThread ==> s.killer == NoThread && Do(s, a).waiter == s.waiter
  {
  }

  lemma {:induction false} ErrorKept(run: seq<State>, actions: seq<Action>, i: nat, j: nat)
    requires IsRun(run, actions) && i < j < |run| && actions[i].WaitidFails?
    ensures run[j].err == -actions[i].code && run[j].waiter != WaitingProcess && run[j].waiter != Starting
    decreases j - i
  {
    RunKeepsInv(run, actions, j - 1);
    assert StepAt(run, actions, j - 1);
    StepErrs(run[j - 1], actions[j - 1]);
    if i < j - 1 {
      ErrorKept(run, actions, i, j - 1);
    }
  }

  lemma {:induction false} NoErrorYet(run: seq<State>, actions: seq<Action>, j: nat)
    requires IsRun(run, actions) && j < |run|
    requires forall i :: 0 <= i < j ==> !actions[i].CreateFails? && !actions[i].WaitidFails?
    ensures run[j].err == 0 && (run[j].killer == NoThread ==> run[j].waiter == Starting)
  {
    if j > 0 {
      NoErrorYet(run, actions, j - 1);
      RunKeepsInv(run, actions, j - 1);
      assert StepAt(run, actions, j - 1);
      StepErrs(run[j - 1], actions[j - 1]);
    }
  }

  /** The answer is negative exactly if a call failed, and is then that error. */
  lemma AnswerMeansError(run: seq<State>, actions: seq<Action>)
    requires IsRun(run, actions) && run[|actions|].waiter.Returned?
    ensures run[|actions|].waiter.res < 0 <==>
              exists i :: 0 <= i < |actions| && (actions[i].CreateFails? || actions[i].WaitidFails?)
    ensures forall i :: 0 <= i < |actions| && (actions[i].CreateFails? || actions[i].WaitidFails?) ==>
              run[|actions|].waiter.res == -actions[i].code
  {
    var n := |actions|;
    RunKeepsInv(run, actions, n);
    forall i | 0 <= i < n && (actions[i].CreateFails? || actions[i].WaitidFails?)
      ensures run[n].waiter.res == -actions[i].code < 0
    {
      RunKeepsInv(run, actions, i);
      assert StepAt(run, actions, i);
      StepErrs(run[i], actions[i]);
      if actions[i].WaitidFails? {
        ErrorKept(run, actions, i, n);
        ThreadStays(run, actions, i, n);
      } else {
        AnswerStays(run, actions, i + 1, n);
      }
    }
    if forall i :: 0 <= i < n ==> !actions[i].CreateFails? && !actions[i].WaitidFails? {
      NoErrorYet(run, actions, n);
    }
  }

  lemma {:induction false} ThreadStays(run: seq<State>, actions: seq<Action>, i: nat, j: nat)
    requires IsRun(run, actions) && i <= j < |run| && run[i].killer != NoThread
    ensures run[j].killer != NoThread
    decreases j - i
  {
    if i < j {
      ThreadStays(run, actions, i, j - 1);
      assert StepAt(run, actions, j - 1);
      RunKeepsInv(run, actions, j - 1);
    }
  }

  /** The child has ended, unless the waiter does not know or has been told otherwise. */
  predicate SeenOrUnknown(s: State) {
    s.child != Running || s.waiter == Starting || s.waiter == WaitingProcess || s.err < 0
    || (s.waiter.Returned? && s.waiter.res < 0)
  }

  lemma {:induction false} SeenBefore(run: seq<State>, actions: seq<Action>, j: nat)
    requires IsRun(run, actions) && j < |run|
    ensures SeenOrUnknown(run[j])
    ensures run[j].child != Running ==> exists i :: 0 <= i < j && actions[i] == ChildExits
  {
    if j > 0 {
      SeenBefore(run, actions, j - 1);
      RunKeepsInv(run, actions, j - 1);
      assert StepAt(run, actions, j - 1);
    }
  }

  /** An answer that is no error comes only after the child has ended. */
  lemma AnswerAfterExit(run: seq<State>, actions: seq<Action>)
    requires IsRun(run, actions) && run[|actions|].waiter.Returned? && run[|actions|].waiter.res >= 0
    ensures exists i :: 0 <= i < |actions| && actions[i] == ChildExits
  {
    SeenBefore(run, actions, |actions|);
    RunKeepsInv(run, actions, |actions|);
  }

  predicate KillerActs(a: Action) {
    a.KLock? || a.KTest? || a.KSpurious? || a.KTimeout? || a.KFails?
    || a.KReacquire? || a.KUnlock? || a.KKill? || a.KMark? || a.KLoop?
  }

  /** How many steps a killer that has been stopped can still take. */
  function StepsLeft(k: KillerPc): nat {
    match k
    case NoThread => 0
    case Lock => 5
    case Locked => 4
    case Blocked => 5
    case Waking(_) => 4
    case Woken(_) => 3
    case Unlocked(_) => 2
    case Killed => 1
    case Exited => 0
  }

  /** The step the killer can take while the waiter joins it: none of them has to wait. */
  function NextKillerStep(k: KillerPc): Action
    requires k != NoThread && k != Blocked && k != Exited
  {
    match k
    case Lock => KLock
    case Locked => KTest
    case Waking(_) => KReacquire
    case Woken(_) => KUnlock
    case Unlocked(res) => if res == TimedOut then KKill else KLoop
    case Killed => KMark
  }

  /** While the waiter joins, the killer is not blocked and can always go on. */
  lemma JoinedIsAwake(run: seq<State>, actions: seq<Action>, i: nat)
    requires IsRun(run, actions) && i < |run| && run[i].waiter == Joining
    ensures run[i].killer != Blocked && run[i].killer != NoThread
    ensures run[i].killer == Exited ==> Enabled(run[i], WJoin)
    ensures run[i].killer != Exited ==> Enabled(run[i], NextKillerStep(run[i].killer))
  {
    RunKeepsInv(run, actions, i);
  }

  ghost function CountKiller(actions: seq<Action>, i: nat, j: nat): nat
    requires i <= j <= |actions|
    decreases j - i
  {
    if i == j then 0 else CountKiller(actions, i, j - 1) + if KillerActs(actions[j - 1]) then 1 else 0
  }

  /** Where a killer whose wait ended is after that many more of its steps, if it is not to wait again. */
  predicate OnItsWay(k: KillerPc, res: WaitResult, steps: nat) {
    && (steps == 0 ==> k == Waking(res))
    && (steps == 1 ==> k == Woken(res))
    && (steps == 2 ==> k == Unlocked(res))
    && (steps >= 3 && res == Failed ==> k == Exited)
  }

  lemma StepOnItsWay(s: State, a: Action, res: WaitResult, steps: nat)
    requires Enabled(s, a) && OnItsWay(s.killer, res, steps) && Inv(s) && res != Zero
    ensures steps == 2 && KillerActs(a) && res == TimedOut ==> a == KKill
    ensures OnItsWay(Do(s, a).killer, res, if KillerActs(a) then steps + 1 else steps)
  {
  }

  lemma {:induction false} WayAfterWait(run: seq<State>, actions: seq<Action>, i: nat, j: nat, res: WaitResult)
    requires IsRun(run, actions) && i < j <= |actions|
    requires (actions[i] == KTimeout && res == TimedOut) || (actions[i] == KFails && res == Failed)
    ensures OnItsWay(run[j].killer, res, CountKiller(actions, i + 1, j))
    decreases j - i
  {
    assert StepAt(run, actions, j - 1);
    if i < j - 1 {
      WayAfterWait(run, actions, i, j - 1, res);
      RunKeepsInv(run, actions, j - 1);
      StepOnItsWay(run[j - 1], actions[j - 1], res, CountKiller(actions, i + 1, j - 1));
    }
  }

  /** A killer whose wait failed ends with its third step after that, and does not kill. */
  lemma {:induction false} FailureEnds(run: seq<State>, actions: seq<Action>, i: nat, j: nat)
    requires IsRun(run, actions) && i < j <= |actions| && actions[i] == KFails
    ensures CountKiller(actions, i + 1, j) >= 3 ==> run[j].killer == Exited
    ensures forall k :: i < k < j ==> actions[k] != KKill
  {
    WayAfterWait(run, actions, i, j, Failed);
    forall k | i < k < j ensures actions[k] != KKill {
      WayAfterWait(run, actions, i, k, Failed);
      assert StepAt(run, actions, k);
    }
  }

  lemma {:induction false} ThirdIsKill(run: seq<State>, actions: seq<Action>, i: nat, j: nat)
    requires IsRun(run, actions) && i < j < |actions| && actions[i] == KTimeout
    requires CountKiller(actions, i + 1, j) == 2 && KillerActs(actions[j])
    ensures actions[j] == KKill
  {
    WayAfterWait(run, actions, i, j, TimedOut);
    RunKeepsInv(run, actions, j);
    assert StepAt(run, actions, j);
    StepOnItsWay(run[j], actions[j], TimedOut, 2);
  }

  /** The third step a killer takes after its wait timed out, at the latest, is the kill. */
  lemma {:induction false} TimeoutKills(run: seq<State>, actions: seq<Action>, i: nat, j: nat)
    requires IsRun(run, actions) && i < j <= |actions| && actions[i] == KTimeout
    requires CountKiller(actions, i + 1, j) >= 3
    ensures exists k :: i < k < j && actions[k] == KKill
    decreases j - i
  {
    if CountKiller(actions, i + 1, j - 1) >= 3 {
      TimeoutKills(run, actions, i, j - 1);
    } else {
      ThirdIsKill(run, actions, i, j - 1);
    }
  }

  /** A killer ends only because it was stopped, has killed or its wait failed: never by a spurious wakeup. */
  lemma {:induction false} KillerEndsFor(run: seq<State>, actions: seq<Action>, j: nat)
    requires IsRun(run, actions) && j < |run| && run[j].killer == Exited
    ensures exists i :: 0 <= i < j && (actions[i] == WStop || actions[i] == KKill || actions[i] == KFails)
  {
    if j > 0 {
      RunKeepsInv(run, actions, j - 1);
      assert StepAt(run, actions, j - 1);
      if run[j - 1].killer == Exited {
        KillerEndsFor(run, actions, j - 1);
      } else if actions[j - 1] == KMark {
        KilledBy(run, actions, j - 1);
      } else if run[j - 1].stop {
        StoppedBy(run, actions, j - 1);
      } else {
        BrokenBy(run, actions, j - 1);
      }
    }
  }

  lemma {:induction false} KilledBy(run: seq<State>, actions: seq<Action>, j: nat)
    requires IsRun(run, actions) && j < |run| && run[j].killer == Killed
    ensures exists i :: 0 <= i < j && actions[i] == KKill
  {
    if j > 0 {
      assert StepAt(run, actions, j - 1);
      if actions[j - 1] != KKill {
        KilledBy(run, actions, j - 1);
      }
    }
  }

  lemma {:induction false} StoppedBy(run: seq<State>, actions: seq<Action>, j: nat)
    requires IsRun(run, actions) && j < |run| && run[j].stop
    ensures exists i :: 0 <= i < j && actions[i] == WStop
  {
    if j > 0 {
      assert StepAt(run, actions, j - 1);
      if actions[j - 1] != WStop {
        StoppedBy(run, actions, j - 1);
      }
    }
  }

  lemma StepWhileJoining(s: State, a: Action)
    requires Inv(s) && Enabled(s, a) && (s.waiter == Joining || s.waiter.Returned?)
    ensures Do(s, a).waiter == Joining || Do(s, a).waiter.Returned?
    ensures StepsLeft(Do(s, a).killer) + (if KillerActs(a) then 1 else 0) <= StepsLeft(s.killer)
  {
  }

  lemma {:induction false} StillJoining(run: seq<State>, actions: seq<Action>, i: nat, j: nat)
    requires IsRun(run, actions) && i <= j < |run|
    requires run[i].waiter == Joining
    ensures run[j].waiter == Joining || run[j].waiter.Returned?
    decreases j - i
  {
    if i < j {
      StillJoining(run, actions, i, j - 1);
      RunKeepsInv(run, actions, j - 1);
      assert StepAt(run, actions, j - 1);
      StepWhileJoining(run[j - 1], actions[j - 1]);
    }
  }

  /** Once it is stopped and woken the killer ends within five of its own steps. */
  lemma {:induction false} JoinIsBounded(run: seq<State>, actions: seq<Action>, i: nat, j: nat)
    requires IsRun(run, actions) && i <= j < |run|
    requires run[i].waiter == Joining
    ensures CountKiller(actions, i, j) + StepsLeft(run[j].killer) <= StepsLeft(run[i].killer) <= 5
    ensures run[j].waiter == Joining || run[j].waiter.Returned?
    decreases j - i
  {
    StillJoining(run, actions, i, j);
    if i < j {
      JoinIsBounded(run, actions, i, j - 1);
      RunKeepsInv(run, actions, j - 1);
      assert StepAt(run, actions, j - 1);
      StepWhileJoining(run[j - 1], actions[j - 1]);
    }
  }
}

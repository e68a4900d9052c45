/** common/utils/camera_simple_timer.cpp: a one-shot timer that can be cancelled, with a detached thread
    per start.  The callback runs with the timer's mutex held. */
module SimpleTimers {
  /** A worker is named by the start that spawned it: 0, 1, 2, ... */
  type WorkerId = nat

  datatype Status = IDLE | RUNNING | CANCEL | DONE

  datatype Worker =
    | Spawned(timeout: nat)       // before it takes the mutex
    | Sleeping(deadline: nat)     // in wait_for
    | Calling                     // in the callback, holding the mutex

  /** The destructor: not called, waiting for DONE, or returned. */
  datatype Destruction = Alive | Joining | Destroyed

  datatype State = State(
    status: Status,
    workers: map<WorkerId, Worker>,   // the unfinished ones
    starts: nat,
    now: nat,
    destruction: Destruction,
    fired: seq<WorkerId>,             // history: starts whose callback ran
    cancelled: set<WorkerId>,         // history: starts cancelled by CancelTask or the destructor
    waited: map<WorkerId, nat>,       // history: when each worker began to wait
    called: map<WorkerId, nat>)       // history: when each callback began

  datatype Step =
    | Tick(elapsed: nat)
    | StartTask(timeout: nat)
    | CancelTask
    | Sleep(w: WorkerId)
    | Wake(w: WorkerId)
    | Expire(w: WorkerId)
    | CallbackReturns(w: WorkerId)
    | Destroy
    | DestroyResume

  const INIT := State(IDLE, map[], 0, 0, Alive, [], {}, map[], map[])

  predicate MutexFree(s: State) {
    forall w :: w in s.workers ==> !s.workers[w].Calling?
  }

  predicate Enabled(s: State, step: Step) {
    match step
    case Tick(_) => true
    case StartTask(_) => MutexFree(s) && s.destruction.Alive?
    case CancelTask => MutexFree(s) && s.destruction.Alive?
    case Sleep(w) => w in s.workers && s.workers[w].Spawned? && MutexFree(s)
    case Wake(w) => w in s.workers && s.workers[w].Sleeping? && MutexFree(s)
    case Expire(w) => w in s.workers && s.workers[w].Sleeping? && s.workers[w].deadline <= s.now && MutexFree(s)
    case CallbackReturns(w) => w in s.workers && s.workers[w].Calling?
    case Destroy => MutexFree(s) && s.destruction.Alive?
    case DestroyResume => MutexFree(s) && s.destruction.Joining?
  }

  /** The worker leaves, having set DONE. */
  function Finished(s: State, w: WorkerId): State {
    s.(status := DONE, workers := s.workers - {w})
  }

  function Cancelled(s: State): State {
    s.(status := CANCEL, cancelled := s.cancelled + if s.starts > 0 then {s.starts - 1} else {})
  }

  function Apply(s: State, step: Step): State
    requires Enabled(s, step)
  {
    match step
    case Tick(elapsed) => s.(now := s.now + elapsed)
    case StartTask(timeout) =>
      if s.status.RUNNING? then s
      else
        s.(status := RUNNING, workers := s.workers[s.starts := Spawned(timeout)], starts := s.starts + 1)
    case CancelTask => if !s.status.RUNNING? then s else Cancelled(s)
    case Sleep(w) =>
      if !s.status.RUNNING? then Finished(s, w)
      else
        s.(workers := s.workers[w := Sleeping(s.now + s.workers[w].timeout)],
           waited := s.waited[w := s.now])
    case Wake(w) => if !s.status.RUNNING? then Finished(s, w) else s
    case Expire(w) =>
      if !s.status.RUNNING? then Finished(s, w)
      else
        s.(workers := s.workers[w := Calling], fired := s.fired + [w],
           called := s.called[w := s.now])
    case CallbackReturns(w) => Finished(s, w)
    case Destroy =>
      match s.status {
        case RUNNING => Cancelled(s).(destruction := Joining)
        case CANCEL => s.(destruction := Joining)
        case _ => s.(destruction := Destroyed)
      }
    case DestroyResume => if s.status.DONE? then s.(destruction := Destroyed) else s
  }

  predicate Runs(s: State, steps: seq<Step>)
    decreases |steps|
  {
    steps == [] || (Enabled(s, steps[0]) && Runs(Apply(s, steps[0]), steps[1..]))
  }

  function Final(s: State, steps: seq<Step>): State
    requires Runs(s, steps)
    decreases |steps|
  {
    if steps == [] then s else Final(Apply(s, steps[0]), steps[1..])
  }

  // ---------------------------------------------------------------------------------------------

  /** RUNNING and CANCEL mean exactly one unfinished worker, that of the last start; IDLE and DONE mean
      none. */
  ghost predicate OneWorker(s: State) {
    if s.status.RUNNING? || s.status.CANCEL? then s.starts > 0 && s.workers.Keys == {s.starts - 1}
    else s.workers.Keys == {}
  }

  ghost predicate Inv(s: State) {
    && OneWorker(s)
    && (!MutexFree(s) ==> s.status.RUNNING?)
    && (s.status.RUNNING? ==> s.starts - 1 !in s.cancelled)
    && (s.destruction.Joining? ==> s.status.CANCEL? || s.status.DONE?)
    && (s.destruction.Destroyed? ==> s.workers.Keys == {})
    && (forall w :: w in s.cancelled ==> w < s.starts)
    && (forall i :: 0 <= i < |s.fired| ==> s.fired[i] < s.starts && s.fired[i] !in s.cancelled)
    && (forall i, j :: 0 <= i < j < |s.fired| ==> s.fired[i] != s.fired[j])
    && (forall i :: 0 <= i < |s.fired| && s.fired[i] in s.workers ==> s.workers[s.fired[i]].Calling?)
  }

  /** The one step that breaks it: StartTask before the cancelled worker has left. */
  predicate StartsTooSoon(s: State, step: Step) {
    step.StartTask? && s.status.CANCEL?
  }

  lemma WorkerStepKeepsInv(s: State, step: Step)
    requires Inv(s) && Enabled(s, step)
    requires step.Sleep? || step.Wake? || step.Expire? || step.CallbackReturns?
    ensures Inv(Apply(s, step))
  {
    assert step.w == s.starts - 1;
    var n := Apply(s, step);
    assert s.workers.Keys == {step.w};
    assert n.workers.Keys == if step.w in n.workers then {step.w} else {};
  }

  lemma StartKeepsInvExactlyWhen(s: State, timeout: nat)
    requires Inv(s) && Enabled(s, StartTask(timeout))
    ensures Inv(Apply(s, StartTask(timeout))) == !s.status.CANCEL?
  {
    var n := Apply(s, StartTask(timeout));
    if !s.status.RUNNING? {
      assert n.workers.Keys == s.workers.Keys + {s.starts};
      if s.status.CANCEL? {
        assert s.starts - 1 in n.workers.Keys;
      }
    }
  }

  /** A step keeps the invariant exactly when it does not start the timer while a cancelled worker is
      still there. */
  lemma StepKeepsInvExactlyWhen(s: State, step: Step)
    requires Inv(s) && Enabled(s, step)
    ensures Inv(Apply(s, step)) == !StartsTooSoon(s, step)
  {
    match step
    case StartTask(timeout) => StartKeepsInvExactlyWhen(s, timeout);
    case Sleep(_) => WorkerStepKeepsInv(s, step);
    case Wake(_) => WorkerStepKeepsInv(s, step);
    case Expire(_) => WorkerStepKeepsInv(s, step);
    case CallbackReturns(_) => WorkerStepKeepsInv(s, step);
    case _ =>
  }

  /** At most one worker is unfinished, each start calls back at most once and never after it has been
      cancelled, and the destructor has returned only when no worker is left. */
  ghost predicate Safe(s: State) {
    && (forall a, b :: a in s.workers && b in s.workers ==> a == b)
    && (forall i, j :: 0 <= i < j < |s.fired| ==> s.fired[i] != s.fired[j])
    && (forall i :: 0 <= i < |s.fired| ==> s.fired[i] !in s.cancelled)
    && (s.destruction.Destroyed? ==> s.workers == map[])
  }

  lemma InvIsSafe(s: State)
    requires Inv(s)
    ensures Safe(s)
  {
    assert forall a :: a in s.workers ==> a in s.workers.Keys;
  }

  /** What that means for the workers: one step away from order, safety fails exactly when the step
      starts the timer too soon. */
  lemma SafeExactlyWhen(s: State, step: Step)
    requires Inv(s) && Enabled(s, step)
    ensures Safe(Apply(s, step)) == !StartsTooSoon(s, step)
  {
    StepKeepsInvExactlyWhen(s, step);
    var n := Apply(s, step);
    if StartsTooSoon(s, step) {
      assert s.starts - 1 in s.workers.Keys;
      assert s.starts - 1 in n.workers && s.starts in n.workers;
    } else {
      InvIsSafe(n);
    }
  }

  ghost predicate NeverTooSoon(s: State, steps: seq<Step>)
    requires Runs(s, steps)
    decreases |steps|
  {
    steps == [] || (!StartsTooSoon(s, steps[0]) && NeverTooSoon(Apply(s, steps[0]), steps[1..]))
  }

  lemma {:induction false} RunKeepsInv(s: State, steps: seq<Step>)
    requires Inv(s) && Runs(s, steps) && NeverTooSoon(s, steps)
    ensures Inv(Final(s, steps))
    decreases |steps|
  {
    if steps == [] {
    } else {
      StepKeepsInvExactlyWhen(s, steps[0]);
      RunKeepsInv(Apply(s, steps[0]), steps[1..]);
    }
  }

  /** Every run that never starts a timer being cancelled is safe. */
  lemma TimerSafety(steps: seq<Step>)
    requires Runs(INIT, steps) && NeverTooSoon(INIT, steps)
    ensures Safe(Final(INIT, steps))
  {
    RunKeepsInv(INIT, steps);
    InvIsSafe(Final(INIT, steps));
  }

  function StartCalls(steps: seq<Step>): nat {
    if steps == [] then 0 else (if steps[0].StartTask? then 1 else 0) + StartCalls(steps[1..])
  }

  lemma {:induction false} StartedOnceIsNeverTooSoon(s: State, steps: seq<Step>)
    requires Runs(s, steps) && s.starts + StartCalls(steps) <= 1
    requires s.starts == 0 ==> s.status.IDLE? && s.workers == map[]
    ensures NeverTooSoon(s, steps)
    decreases |steps|
  {
    if steps == [] {
    } else {
      StartedOnceIsNeverTooSoon(Apply(s, steps[0]), steps[1..]);
    }
  }

  /** So is every run of a timer that is started once, which is how the library loader uses it. */
  lemma StartedOnceIsSafe(steps: seq<Step>)
    requires Runs(INIT, steps) && StartCalls(steps) <= 1
    ensures Safe(Final(INIT, steps))
  {
    StartedOnceIsNeverTooSoon(INIT, steps);
    TimerSafety(steps);
  }

  lemma RunsCons(s: State, step: Step, rest: seq<Step>)
    requires Enabled(s, step) && Runs(Apply(s, step), rest)
    ensures Runs(s, [step] + rest) && Final(s, [step] + rest) == Final(Apply(s, step), rest)
  {
    assert ([step] + rest)[1..] == rest;
  }

  /** Without that rule it fails: a start that follows a successful CancelTask at once brings the
      cancelled worker back to life, and its callback runs. */
  lemma RestartRevivesTheCancelled() returns (steps: seq<Step>)
    ensures Runs(INIT, steps)
    ensures var s := Final(INIT, steps); |s.workers| == 2 && s.fired == [0] && 0 in s.cancelled
  {
    var s1 := INIT.(status := RUNNING, workers := map[0 := Spawned(0)], starts := 1);
    var s2 := s1.(workers := map[0 := Sleeping(0)], waited := map[0 := 0]);
    var s3, rest := CancelledRuns();
    assert Apply(INIT, StartTask(0)) == s1;
    assert Apply(s1, Sleep(0)) == s2;
    assert Apply(s2, CancelTask) == s3;
    RunsCons(s2, CancelTask, rest);
    steps := [CancelTask] + rest;
    RunsCons(s1, Sleep(0), steps);
    steps := [Sleep(0)] + steps;
    RunsCons(INIT, StartTask(0), steps);
    steps := [StartTask(0)] + steps;
  }

  /** The second half of that run, from the state behind the cancellation. */
  lemma CancelledRuns() returns (s3: State, steps: seq<Step>)
    ensures s3 == State(CANCEL, map[0 := Sleeping(0)], 1, 0, Alive, [], {0}, map[0 := 0], map[])
    ensures Runs(s3, steps)
    ensures var s := Final(s3, steps); |s.workers| == 2 && s.fired == [0] && 0 in s.cancelled
  {
    s3 := State(CANCEL, map[0 := Sleeping(0)], 1, 0, Alive, [], {0}, map[0 := 0], map[]);
    var s4 := s3.(status := RUNNING, workers := map[0 := Sleeping(0), 1 := Spawned(0)], starts := 2);
    var s5 := s4.(workers := map[0 := Calling, 1 := Spawned(0)], fired := [0], called := map[0 := 0]);
    assert Apply(s3, StartTask(0)) == s4;
    assert Apply(s4, Expire(0)) == s5;
    RunsCons(s4, Expire(0), []);
    RunsCons(s3, StartTask(0), [Expire(0)] + []);
    steps := [StartTask(0)] + ([Expire(0)] + []);
  }

  // ---------------------------------------------------------------------------------------------
  // The timeout
  // ---------------------------------------------------------------------------------------------

  /** The timeouts that the successful starts of a run asked for. */
  function Timeouts(s: State, steps: seq<Step>): seq<nat>
    requires Runs(s, steps)
    decreases |steps|
  {
    if steps == [] then []
    else TimeoutOf(s, steps[0]) + Timeouts(Apply(s, steps[0]), steps[1..])
  }

  function TimeoutOf(s: State, step: Step): seq<nat> {
    if step.StartTask? && !s.status.RUNNING? then [step.timeout] else []
  }

  ghost predicate WorkerTimely(s: State, w: WorkerId, timeouts: seq<nat>)
    requires w in s.workers
  {
    w < |timeouts| &&
    match s.workers[w]
    case Spawned(timeout) => timeout == timeouts[w] && w !in s.called
    case Sleeping(deadline) => w in s.waited && deadline == s.waited[w] + timeouts[w] && w !in s.called
    case Calling => true
  }

  ghost predicate CallTimely(s: State, w: WorkerId, timeouts: seq<nat>) {
    w < |timeouts| && w in s.waited && w in s.called && s.called[w] >= s.waited[w] + timeouts[w]
  }

  /** A worker that waits does so for the timeout of its start, and a callback did not begin before that
      was over. */
  ghost predicate Timely(s: State, timeouts: seq<nat>) {
    && |timeouts| == s.starts
    && (forall w :: w in s.workers ==> WorkerTimely(s, w, timeouts))
    && (forall w :: w in s.called ==> CallTimely(s, w, timeouts))
    && (forall i :: 0 <= i < |s.fired| ==> s.fired[i] in s.called)
  }

  lemma WorkerStaysTimely(s: State, step: Step, timeouts: seq<nat>, w: WorkerId)
    requires Timely(s, timeouts) && Enabled(s, step) && w in Apply(s, step).workers
    ensures WorkerTimely(Apply(s, step), w, timeouts + TimeoutOf(s, step))
  {
    assert w in s.workers ==> WorkerTimely(s, w, timeouts);
    assert w in s.called ==> CallTimely(s, w, timeouts);
  }

  lemma CallStaysTimely(s: State, step: Step, timeouts: seq<nat>, w: WorkerId)
    requires Timely(s, timeouts) && Enabled(s, step) && w in Apply(s, step).called
    ensures CallTimely(Apply(s, step), w, timeouts + TimeoutOf(s, step))
  {
    assert w in s.workers ==> WorkerTimely(s, w, timeouts);
    assert w in s.called ==> CallTimely(s, w, timeouts);
  }

  lemma StepKeepsTimely(s: State, step: Step, timeouts: seq<nat>)
    requires Timely(s, timeouts) && Enabled(s, step)
    ensures Timely(Apply(s, step), timeouts + TimeoutOf(s, step))
  {
    var n, more := Apply(s, step), timeouts + TimeoutOf(s, step);
    forall w | w in n.workers
      ensures WorkerTimely(n, w, more)
    {
      WorkerStaysTimely(s, step, timeouts, w);
    }
    forall w | w in n.called
      ensures CallTimely(n, w, more)
    {
      CallStaysTimely(s, step, timeouts, w);
    }
    FiredIsCalled(s, step, timeouts);
  }

  lemma FiredIsCalled(s: State, step: Step, timeouts: seq<nat>)
    requires Timely(s, timeouts) && Enabled(s, step)
    ensures var n := Apply(s, step); forall i :: 0 <= i < |n.fired| ==> n.fired[i] in n.called
  {
  }

  lemma {:induction false} RunKeepsTimely(s: State, steps: seq<Step>, timeouts: seq<nat>)
    requires Timely(s, timeouts) && Runs(s, steps)
    ensures Timely(Final(s, steps), timeouts + Timeouts(s, steps))
    decreases |steps|
  {
    if steps == [] {
      assert timeouts + [] == timeouts;
    } else {
      var n := Apply(s, steps[0]);
      StepKeepsTimely(s, steps[0], timeouts);
      RunKeepsTimely(n, steps[1..], timeouts + TimeoutOf(s, steps[0]));
      assert timeouts + (TimeoutOf(s, steps[0]) + Timeouts(n, steps[1..]))
          == (timeouts + TimeoutOf(s, steps[0])) + Timeouts(n, steps[1..]);
    }
  }

  /** A worker that waits, uncancelled and with the mutex free, calls back as soon as its timeout is over,
      and not before. */
  lemma CallsBackWhenDue(s: State, timeouts: seq<nat>, w: WorkerId)
    requires Timely(s, timeouts) && w in s.workers && s.workers[w].Sleeping?
    requires s.status.RUNNING? && MutexFree(s)
    ensures w < |timeouts| && w in s.waited
    ensures Enabled(s, Expire(w)) <==> s.now >= s.waited[w] + timeouts[w]
    ensures Enabled(s, Expire(w)) ==>
      var n := Apply(s, Expire(w)); n.fired == s.fired + [w] && n.workers == s.workers[w := Calling]
  {
    assert WorkerTimely(s, w, timeouts);
  }

  /** Over every run, restarts too soon or not: workers wait for the timeouts that their starts asked for,
      and no callback begins before its worker has waited that long. */
  lemma NoCallBeforeItsTimeout(steps: seq<Step>)
    requires Runs(INIT, steps)
    ensures var s, timeouts := Final(INIT, steps), Timeouts(INIT, steps);
      && Timely(s, timeouts)
      && (forall i :: 0 <= i < |s.fired| ==> CallTimely(s, s.fired[i], timeouts))
  {
    RunKeepsTimely(INIT, steps, []);
    assert [] + Timeouts(INIT, steps) == Timeouts(INIT, steps);
  }

  // ---------------------------------------------------------------------------------------------
  // The class
  // ---------------------------------------------------------------------------------------------

  class SimpleTimer {
    var timerStatus: Status
    var workers: map<WorkerId, Worker>   // the detached threads that have not ended
    var starts: nat
    var destruction: Destruction
    ghost var fired: seq<WorkerId>
    ghost var cancelled: set<WorkerId>
    ghost var waited: map<WorkerId, nat>
    ghost var called: map<WorkerId, nat>

    ghost function View(now: nat): State
      reads this
    {
      State(timerStatus, workers, starts, now, destruction, fired, cancelled, waited, called)
    }

    constructor ()
      ensures View(0) == INIT && Inv(View(0))
    {
      timerStatus, workers, starts, destruction := IDLE, map[], 0, Alive;
      fired, cancelled, waited, called := [], {}, map[], map[];
    }

    /** StartTask; on success it detaches the worker `w`. */
    method StartTask(timeoutMs: nat, ghost now: nat) returns (ok: bool, w: WorkerId)
      requires Enabled(View(now), Step.StartTask(timeoutMs))
      modifies this`timerStatus, this`workers, this`starts
      ensures View(now) == Apply(old(View(now)), Step.StartTask(timeoutMs))
      ensures ok <==> old(timerStatus) != RUNNING
      ensures ok ==>
        w == old(starts) && workers == old(workers)[w := Spawned(timeoutMs)] && timerStatus == RUNNING
    {
      w := starts;
      if timerStatus == RUNNING {
        return false, w;
      }
      timerStatus := RUNNING;
      workers := workers[w := Spawned(timeoutMs)];
      starts := starts + 1;
      return true, w;
    }

    method CancelTask(ghost now: nat) returns (ok: bool)
      requires Enabled(View(now), Step.CancelTask)
      modifies this`timerStatus, this`cancelled
      ensures View(now) == Apply(old(View(now)), Step.CancelTask)
      ensures ok <==> old(timerStatus) == RUNNING
      ensures timerStatus == if ok then CANCEL else old(timerStatus)
      ensures ok && starts > 0 ==> starts - 1 in cancelled
    {
      if timerStatus != RUNNING {
        return false;
      }
      timerStatus := CANCEL;
      cancelled := cancelled + if starts > 0 then {starts - 1} else {};
      return true;
    }

    /** The end of InterruptableSleep: the worker sets DONE and is gone. */
    method Finish(w: WorkerId, ghost now: nat)
      requires Enabled(View(now), CallbackReturns(w))
      modifies this`timerStatus, this`workers
      ensures View(now) == Apply(old(View(now)), CallbackReturns(w))
      ensures timerStatus == DONE && workers == old(workers) - {w}
    {
      timerStatus := DONE;
      workers := workers - {w};
    }

    /** InterruptableSleep takes the mutex and evaluates its predicate before it waits. */
    method SleepBegins(w: WorkerId, now: nat) returns (sleeps: bool)
      requires Enabled(View(now), Sleep(w))
      modifies this`timerStatus, this`workers, this`waited
      ensures View(now) == Apply(old(View(now)), Sleep(w))
      ensures sleeps <==> old(timerStatus) == RUNNING
      ensures sleeps ==> workers == old(workers)[w := Sleeping(now + old(workers)[w].timeout)]
      ensures !sleeps ==> workers == old(workers) - {w} && timerStatus == DONE
    {
      sleeps := timerStatus == RUNNING;
      if sleeps {
        workers := workers[w := Sleeping(now + workers[w].timeout)];
        waited := waited[w := now];
      } else {
        timerStatus := DONE;
        workers := workers - {w};
      }
    }

    /** A notification, or nothing, wakes the worker before its time. */
    method WokenUp(w: WorkerId, ghost now: nat) returns (sleeps: bool)
      requires Enabled(View(now), Wake(w))
      modifies this`timerStatus, this`workers
      ensures View(now) == Apply(old(View(now)), Wake(w))
      ensures sleeps <==> old(timerStatus) == RUNNING
      ensures if sleeps then workers == old(workers) else workers == old(workers) - {w} && timerStatus == DONE
    {
      sleeps := timerStatus == RUNNING;
      if !sleeps {
        timerStatus := DONE;
        workers := workers - {w};
      }
    }

    /** The wait ends by time-out: the predicate is evaluated once more, and the callback runs only
        while the status is still RUNNING. */
    method SleepEnds(w: WorkerId, ghost now: nat) returns (callBack: bool)
      requires Enabled(View(now), Expire(w))
      modifies this`timerStatus, this`workers, this`fired, this`called
      ensures View(now) == Apply(old(View(now)), Expire(w))
      ensures callBack <==> old(timerStatus) == RUNNING
      ensures if callBack then workers == old(workers)[w := Calling] && fired == old(fired) + [w]
        else workers == old(workers) - {w} && timerStatus == DONE && fired == old(fired)
    {
      callBack := timerStatus == RUNNING;
      if callBack {
        workers := workers[w := Calling];
        fired := fired + [w];
        called := called[w := now];
      } else {
        timerStatus := DONE;
        workers := workers - {w};
      }
    }

    /** The destructor up to its wait; `done` says that it returns without waiting. */
    method Destroy(ghost now: nat) returns (done: bool)
      requires Enabled(View(now), Step.Destroy)
      modifies this`timerStatus, this`destruction, this`cancelled
      ensures View(now) == Apply(old(View(now)), Step.Destroy)
      ensures done <==> destruction == Destroyed
      ensures done <==> old(timerStatus) == IDLE || old(timerStatus) == DONE
      ensures timerStatus == if old(timerStatus) == RUNNING then CANCEL else old(timerStatus)
      ensures old(Inv(View(now))) ==> Inv(View(now)) && (done ==> workers == map[])
    {
      ghost var was := View(now);
      done := timerStatus != RUNNING && timerStatus != CANCEL;
      if timerStatus == RUNNING {
        timerStatus := CANCEL;
        cancelled := cancelled + if starts > 0 then {starts - 1} else {};
      }
      destruction := if done then Destroyed else Joining;
      if Inv(was) {
        StepKeepsInvExactlyWhen(was, Step.Destroy);
        InvIsSafe(View(now));
      }
    }

    /** The destructor's wait evaluates its predicate. */
    method DestroyResumes(ghost now: nat) returns (done: bool)
      requires Enabled(View(now), DestroyResume)
      modifies this`destruction
      ensures View(now) == Apply(old(View(now)), DestroyResume)
      ensures done <==> timerStatus == DONE
      ensures done ==> destruction == Destroyed
      ensures old(Inv(View(now))) ==> Inv(View(now)) && (done ==> workers == map[])
    {
      ghost var was := View(now);
      done := timerStatus == DONE;
      if done {
        destruction := Destroyed;
      }
      if Inv(was) {
        StepKeepsInvExactlyWhen(was, DestroyResume);
        InvIsSafe(View(now));
      }
    }
  }
}

/** The threads around the worker queue: any number of callers of AcquireWorkerQueueTask and
    ConsumeWorkerQueueTask, interleaved step by step.

    A task is constructed, which reads the clock, before it is pushed under the list mutex; a consumer
    reads the clock again after its function, before it takes the list mutex to pop.  Those readings
    are steps of their own here.  The wait predicate reads the clock with the list mutex held, so its
    reading may be older than what it then does, but not older than the present head.  A consumer holds
    the consumer mutex from Enter to its first wait, and from the evaluation that admits it until
    Finish. */
module WorkerQueueProtocol {
  import opened ConditionVariables
  import opened Options
  import opened WorkerQueue

  /** Where a thread is inside ConsumeWorkerQueueTask. */
  datatype Pc<T> =
    | Checked(task: T)                   // the list has been searched, the wait not yet entered
    | Parked(task: T)                    // in wait_for, without the mutex
    | Chosen(task: T)                    // the predicate admitted it
    | Running(task: T)
    | Finishing(task: T, reading: nat)   // func returned, the clock has been read

  /** The thread owns the head of the list. */
  predicate Owns<T>(pc: Pc<T>) {
    !pc.Checked? && !pc.Parked?
  }

  datatype State<T> = State(
    queue: seq<Entry<T>>,
    created: map<T, nat>,         // constructed and not yet pushed, with the time of construction
    now: nat,
    holder: Option<ThreadId>,     // who holds the consumer mutex
    pc: map<ThreadId, Pc<T>>,
    acquired: seq<T>,             // history: tasks in the order of their push; the index is the ticket
    executed: seq<int>,           // history: tickets whose function was started
    evicted: seq<int>,            // history: tickets evicted by a waiter
    headSince: nat,               // when the present head became the head
    headReading: nat)             // the clock reading that this hand-over used

  datatype Step<T> =
    | Tick(elapsed: nat)
    | Create(task: T)
    | Push(task: T)
    | Enter(th: ThreadId, task: T)
    | Evaluation(th: ThreadId, at: nat)   // `at` is what the predicate read off the clock
    | Start(th: ThreadId)
    | Stamp(th: ThreadId)
    | Finish(th: ThreadId)

  function Init<T>(): State<T> {
    State([], map[], 0, None, map[], [], [], [], 0, 0)
  }

  function Dropped<T>(s: State<T>): int {
    |s.acquired| - |s.queue|
  }

  predicate Enabled<T(==)>(s: State<T>, step: Step<T>) {
    match step
    case Tick(_) => true
    case Create(task) => task !in s.created && task !in s.acquired
    case Push(task) => task in s.created
    case Enter(th, task) => th !in s.pc && s.holder == None
    case Evaluation(th, at) =>
      && s.headSince <= at <= s.now && th in s.pc
      && ((s.pc[th].Checked? && s.holder == Some(th)) || (s.pc[th].Parked? && s.holder == None))
    case Start(th) => th in s.pc && s.pc[th].Chosen?
    case Stamp(th) => th in s.pc && s.pc[th].Running?
    case Finish(th) => th in s.pc && s.pc[th].Finishing? && s.queue != []
  }

  /** The list after the wait predicate ran. */
  function Reworked<T>(s: State<T>, e: WorkerQueue.Evaluation<T>, at: nat): State<T> {
    if e.evicts then
      s.(queue := e.queue, evicted := s.evicted + [Dropped(s)], headSince := s.now, headReading := at)
    else s.(queue := e.queue)
  }

  /** Where its answer takes the thread. */
  function Settle<T>(s: State<T>, th: ThreadId, task: T, verdict: Verdict): State<T> {
    match verdict
    case NotQueued => s.(holder := None, pc := s.pc - {th})
    case Admitted => s.(holder := Some(th), pc := s.pc[th := Chosen(task)])
    case KeepWaiting => s.(holder := None, pc := s.pc[th := Parked(task)])
  }

  function Apply<T(==)>(s: State<T>, step: Step<T>): State<T>
    requires Enabled(s, step)
  {
    match step
    case Tick(elapsed) => s.(now := s.now + elapsed)
    case Create(task) => s.(created := s.created[task := s.now])
    case Push(task) =>
      s.(queue := s.queue + [Entry(task, 0, s.created[task], INIT)],
         created := s.created - {task},
         acquired := s.acquired + [task],
         headSince := if s.queue == [] then s.now else s.headSince,
         headReading := if s.queue == [] then s.created[task] else s.headReading)
    case Enter(th, task) =>
      if Queued(s.queue, task) then s.(holder := Some(th), pc := s.pc[th := Checked(task)]) else s
    case Evaluation(th, at) =>
      var task := s.pc[th].task;
      var e := Evaluate(s.queue, task, at);
      Settle(Reworked(s, e, at), th, task, e.verdict)
    case Start(th) =>
      s.(queue := Mark(s.queue, s.pc[th].task, RUNNING),
         executed := s.executed + [Dropped(s)],
         pc := s.pc[th := Running(s.pc[th].task)])
    case Stamp(th) =>
      s.(queue := Mark(s.queue, s.pc[th].task, DONE),
         pc := s.pc[th := Finishing(s.pc[th].task, s.now)])
    case Finish(th) =>
      s.(queue := ResetTimes(s.queue[1..], s.pc[th].reading),
         holder := None, pc := s.pc - {th},
         headSince := s.now, headReading := s.pc[th].reading)
  }

  predicate Runs<T(==)>(s: State<T>, steps: seq<Step<T>>)
    decreases |steps|
  {
    steps == [] || (Enabled(s, steps[0]) && Runs(Apply(s, steps[0]), steps[1..]))
  }

  function Final<T(==)>(s: State<T>, steps: seq<Step<T>>): State<T>
    requires Runs(s, steps)
    decreases |steps|
  {
    if steps == [] then s else Final(Apply(s, steps[0]), steps[1..])
  }

  // ---------------------------------------------------------------------------------------------
  // The invariant
  // ---------------------------------------------------------------------------------------------

  /** The list is the tail of the acquisition order, and no task is acquired twice. */
  ghost predicate SuffixOfAcquired<T>(s: State<T>) {
    && Dropped(s) >= 0
    && (forall i :: 0 <= i < |s.queue| ==> s.queue[i].task == s.acquired[Dropped(s) + i])
    && (forall i, j :: 0 <= i < j < |s.acquired| ==> s.acquired[i] != s.acquired[j])
    && (forall i :: 0 <= i < |s.acquired| ==> s.acquired[i] !in s.created)
  }

  /** One thread at most holds the consumer mutex, and what it owns is the head. */
  ghost predicate Exclusive<T>(s: State<T>) {
    && (s.holder.Some? ==> s.holder.value in s.pc)
    && (forall th :: th in s.pc && !s.pc[th].Parked? ==> s.holder == Some(th))
    && (forall th :: th in s.pc && Owns(s.pc[th]) ==> s.queue != [] && s.queue[0].task == s.pc[th].task)
  }

  ghost predicate HeadOwned<T>(s: State<T>) {
    s.holder.Some? && s.holder.value in s.pc && Owns(s.pc[s.holder.value])
  }

  ghost function HeadStatus<T>(s: State<T>): Status {
    if !HeadOwned(s) then INIT
    else match s.pc[s.holder.value]
      case Running(_) => RUNNING
      case Finishing(_, _) => DONE
      case _ => INIT
  }

  /** The status of every queued task: only the head can be anything but INIT, and then its owner is
      inside or behind its function. */
  ghost predicate Statuses<T>(s: State<T>) {
    && (forall i :: 0 < i < |s.queue| ==> s.queue[i].status == INIT)
    && (s.queue != [] ==> s.queue[0].status == HeadStatus(s))
  }

  ghost predicate Clocks<T>(s: State<T>) {
    && (forall i :: 0 <= i < |s.queue| ==> s.queue[i].createTime <= s.now && 0 <= s.queue[i].waitCount <= 1)
    && (forall t :: t in s.created ==> s.created[t] <= s.now)
    && (forall th :: th in s.pc && s.pc[th].Finishing? ==> s.pc[th].reading <= s.now)
    && s.headReading <= s.headSince <= s.now
  }

  /** A head nobody owns carries the clock reading of the hand-over that made it the head. */
  ghost predicate HeadTimed<T>(s: State<T>) {
    s.queue != [] && !HeadOwned(s) ==> s.queue[0].createTime == s.headReading
  }

  /** The ticket at the head has been started and not yet popped. */
  ghost predicate HeadStarted<T>(s: State<T>) {
    HeadOwned(s) && !s.pc[s.holder.value].Chosen?
  }

  /** Each ticket that left the list was started or evicted, never both, and tickets start in order. */
  ghost predicate Tickets<T>(s: State<T>) {
    var gone := Dropped(s);
    && (forall i, j :: 0 <= i < j < |s.executed| ==> s.executed[i] < s.executed[j])
    && (forall k :: k in s.executed ==> k < gone || (k == gone && HeadStarted(s)))
    && (HeadStarted(s) ==> gone in s.executed)
    && (forall k :: k in s.evicted ==> k < gone)
    && (forall k :: 0 <= k < gone ==> (k in s.executed <==> k !in s.evicted))
    && (forall i, j :: 0 <= i < j < |s.evicted| ==> s.evicted[i] < s.evicted[j])
  }

  ghost predicate Inv<T>(s: State<T>) {
    SuffixOfAcquired(s) && Exclusive(s) && Statuses(s) && Clocks(s) && HeadTimed(s) && Tickets(s)
  }

  lemma QueueDistinct<T>(s: State<T>)
    requires SuffixOfAcquired(s)
    ensures Distinct(s.queue)
  {
  }

  // ---------------------------------------------------------------------------------------------
  // Each step keeps it
  // ---------------------------------------------------------------------------------------------

  lemma PushKeepsInv<T>(s: State<T>, task: T)
    requires Inv(s) && Enabled(s, Push(task))
    ensures Inv(Apply(s, Push(task)))
  {
    var n := Apply(s, Push(task));
    assert Dropped(n) == Dropped(s);
    assert forall i :: 0 <= i < |s.queue| ==> n.queue[i] == s.queue[i];
  }

  lemma StartKeepsTickets<T>(s: State<T>, th: ThreadId)
    requires Inv(s) && Enabled(s, Step<T>.Start(th))
    ensures Tickets(Apply(s, Step<T>.Start(th)))
  {
    var n := Apply(s, Step<T>.Start(th));
    assert s.holder == Some(th) && Dropped(n) == Dropped(s);
    assert n.executed[|s.executed|] == Dropped(s);
    assert forall i :: 0 <= i < |s.executed| ==> s.executed[i] in s.executed;
  }

  /** Neither step moves a task, a time or the consumer mutex. */
  lemma MarkKeepsList<T>(s: State<T>, step: Step<T>)
    requires Inv(s) && Enabled(s, step) && (step.Start? || step.Stamp?)
    ensures var n := Apply(s, step);
      && s.holder == Some(step.th) && Dropped(n) == Dropped(s)
      && SuffixOfAcquired(n) && Exclusive(n) && Clocks(n)
  {
  }

  lemma MarkKeepsStatuses<T>(s: State<T>, step: Step<T>)
    requires Inv(s) && Enabled(s, step) && (step.Start? || step.Stamp?)
    ensures Statuses(Apply(s, step)) && HeadOwned(Apply(s, step))
  {
    QueueDistinct(s);
    MarkKeepsList(s, step);
  }

  lemma MarkKeepsInv<T>(s: State<T>, step: Step<T>)
    requires Inv(s) && Enabled(s, step) && (step.Start? || step.Stamp?)
    ensures Inv(Apply(s, step))
  {
    MarkKeepsList(s, step);
    MarkKeepsStatuses(s, step);
    if step.Start? {
      StartKeepsTickets(s, step.th);
    }
  }

  lemma FinishKeepsInv<T>(s: State<T>, th: ThreadId)
    requires Inv(s) && Enabled(s, Step<T>.Finish(th))
    ensures Inv(Apply(s, Step<T>.Finish(th)))
  {
    var n := Apply(s, Step<T>.Finish(th));
    assert s.holder == Some(th);
    assert Dropped(n) == Dropped(s) + 1;
  }

  /** Everything in Inv but the ownership of the head and its time. */
  ghost predicate ListOk<T>(s: State<T>) {
    && SuffixOfAcquired(s) && Clocks(s) && Tickets(s) && !HeadOwned(s)
    && (forall i :: 0 <= i < |s.queue| ==> s.queue[i].status == INIT)
  }

  lemma SettleKeepsInv<T>(s: State<T>, th: ThreadId, task: T, verdict: Verdict)
    requires ListOk(s) && (verdict.Admitted? || HeadTimed(s))
    requires verdict.Admitted? ==> s.queue != [] && s.queue[0].task == task
    requires th in s.pc && (s.holder == None || s.holder == Some(th))
    requires forall u :: u in s.pc && u != th ==> s.pc[u].Parked?
    ensures Inv(Settle(s, th, task, verdict))
  {
    var n := Settle(s, th, task, verdict);
    assert Dropped(n) == Dropped(s) && !HeadStarted(n) && !HeadStarted(s);
  }

  lemma NobodyOwnsDuringEvaluation<T>(s: State<T>, th: ThreadId, at: nat)
    requires Inv(s) && Enabled(s, Step<T>.Evaluation(th, at))
    ensures ListOk(s) && forall u :: u in s.pc && u != th ==> s.pc[u].Parked?
  {
  }

  /** A predicate that evicts nobody changes at most one wait count. */
  lemma PatientShape<T>(q: seq<Entry<T>>, t: T, now: nat)
    requires !Evaluate(q, t, now).evicts
    ensures var e := Evaluate(q, t, now);
      && |e.queue| == |q|
      && (forall i :: 0 <= i < |q| ==> e.queue[i] == q[i].(waitCount := e.queue[i].waitCount))
      && (forall i :: 0 <= i < |q| && 0 <= q[i].waitCount <= 1 ==> 0 <= e.queue[i].waitCount <= 1)
      && (e.verdict.Admitted? ==> q != [] && q[0].task == t)
  {
  }

  /** A predicate that evicts drops the head and nothing else; unless the waiter is next, the rest
      starts to wait afresh. */
  lemma EvictionShape<T>(q: seq<Entry<T>>, t: T, now: nat)
    requires Evaluate(q, t, now).evicts
    ensures var e := Evaluate(q, t, now);
      && |q| > 1 && |e.queue| == |q| - 1 && HeadStale(q, now) && q[0].task != t
      && (forall i :: 0 <= i < |e.queue| ==>
           e.queue[i] == if e.verdict.Admitted? then q[i + 1] else q[i + 1].(createTime := now, waitCount := 0))
      && (if e.verdict.Admitted? then e.queue[0].task == t else e.verdict.KeepWaiting? && e.queue[0].task != t)
  {
    var p := Position(q, t);
  }

  lemma ReworkKeepsList<T>(s: State<T>, e: WorkerQueue.Evaluation<T>, at: nat)
    requires ListOk(s) && HeadTimed(s)
    requires !e.evicts && |e.queue| == |s.queue|
    requires forall i :: 0 <= i < |s.queue| ==> e.queue[i] == s.queue[i].(waitCount := e.queue[i].waitCount)
    requires forall i :: 0 <= i < |s.queue| ==> 0 <= e.queue[i].waitCount <= 1
    ensures ListOk(Reworked(s, e, at)) && HeadTimed(Reworked(s, e, at))
  {
    assert Dropped(Reworked(s, e, at)) == Dropped(s);
  }

  lemma EvictionKeepsTickets<T>(s: State<T>, e: WorkerQueue.Evaluation<T>, at: nat)
    requires Tickets(s) && Dropped(s) >= 0 && !HeadOwned(s)
    requires e.evicts && |e.queue| == |s.queue| - 1
    ensures Tickets(Reworked(s, e, at))
  {
    var n := Reworked(s, e, at);
    assert Dropped(n) == Dropped(s) + 1 && !HeadOwned(n);
    assert n.evicted[|s.evicted|] == Dropped(s);
    assert forall i :: 0 <= i < |s.evicted| ==> s.evicted[i] in s.evicted;
  }

  lemma EvictionKeepsList<T>(s: State<T>, e: WorkerQueue.Evaluation<T>, at: nat, admitted: bool)
    requires ListOk(s) && at <= s.now && e.evicts && |e.queue| == |s.queue| - 1
    requires forall i :: 0 <= i < |e.queue| ==>
      e.queue[i] == if admitted then s.queue[i + 1] else s.queue[i + 1].(createTime := at, waitCount := 0)
    ensures ListOk(Reworked(s, e, at)) && (admitted || HeadTimed(Reworked(s, e, at)))
  {
    EvictionKeepsTickets(s, e, at);
    assert Dropped(Reworked(s, e, at)) == Dropped(s) + 1;
  }

  lemma ReworkedOk<T>(s: State<T>, t: T, at: nat)
    requires at <= s.now && ListOk(s) && HeadTimed(s)
    ensures var e := Evaluate(s.queue, t, at); var n := Reworked(s, e, at);
      && ListOk(n) && (e.verdict.Admitted? || HeadTimed(n))
      && (e.verdict.Admitted? ==> n.queue != [] && n.queue[0].task == t)
  {
    var e := Evaluate(s.queue, t, at);
    if e.evicts {
      EvictionShape(s.queue, t, at);
      EvictionKeepsList(s, e, at, e.verdict.Admitted?);
    } else {
      PatientShape(s.queue, t, at);
      ReworkKeepsList(s, e, at);
    }
  }

  lemma EvaluationKeepsInv<T>(s: State<T>, th: ThreadId, at: nat)
    requires Inv(s) && Enabled(s, Step<T>.Evaluation(th, at))
    ensures Inv(Apply(s, Step<T>.Evaluation(th, at)))
  {
    var task := s.pc[th].task;
    var e := Evaluate(s.queue, task, at);
    NobodyOwnsDuringEvaluation(s, th, at);
    ReworkedOk(s, task, at);
    SettleKeepsInv(Reworked(s, e, at), th, task, e.verdict);
  }

  lemma QuietStepKeepsInv<T>(s: State<T>, step: Step<T>)
    requires Inv(s) && Enabled(s, step) && (step.Tick? || step.Create? || step.Enter?)
    ensures Inv(Apply(s, step))
  {
    var n := Apply(s, step);
    assert Dropped(n) == Dropped(s) && n.queue == s.queue;
  }

  lemma StepKeepsInv<T>(s: State<T>, step: Step<T>)
    requires Inv(s) && Enabled(s, step)
    ensures Inv(Apply(s, step))
  {
    match step
    case Tick(_) => QuietStepKeepsInv(s, step);
    case Create(_) => QuietStepKeepsInv(s, step);
    case Push(task) => PushKeepsInv(s, task);
    case Enter(_, _) => QuietStepKeepsInv(s, step);
    case Evaluation(th, at) => EvaluationKeepsInv(s, th, at);
    case Start(_) => MarkKeepsInv(s, step);
    case Stamp(_) => MarkKeepsInv(s, step);
    case Finish(th) => FinishKeepsInv(s, th);
  }

  lemma {:induction false} EveryRunKeepsInv<T>(s: State<T>, steps: seq<Step<T>>)
    requires Inv(s) && Runs(s, steps)
    ensures Inv(Final(s, steps))
    decreases |steps|
  {
    if steps == [] {
    } else {
      StepKeepsInv(s, steps[0]);
      EveryRunKeepsInv(Apply(s, steps[0]), steps[1..]);
    }
  }

  // ---------------------------------------------------------------------------------------------
  // Order and exclusion
  // ---------------------------------------------------------------------------------------------

  /** Any number of threads, any interleaving.  The list is the tail of the acquisition order; tickets
      are started in strictly increasing order, at most one function at a time; a ticket that left the
      list was started or evicted, never both; and the task that Finish pops is the one that ran. */
  lemma OrderAndExclusion<T>(steps: seq<Step<T>>)
    requires Runs(Init<T>(), steps)
    ensures var e := Final(Init<T>(), steps);
      && Inv(e)
      && (forall i :: 0 <= i < |e.queue| ==> e.queue[i].task == e.acquired[Dropped(e) + i])
      && (forall i, j :: 0 <= i < j < |e.executed| ==> e.executed[i] < e.executed[j])
      && (forall k :: 0 <= k < Dropped(e) ==> (k in e.executed <==> k !in e.evicted))
      && (forall a, b :: a in e.pc && b in e.pc && Owns(e.pc[a]) && Owns(e.pc[b]) ==> a == b)
      && (forall a :: a in e.pc && e.pc[a].Finishing? ==> e.queue != [] && e.queue[0].task == e.pc[a].task)
  {
    EveryRunKeepsInv(Init<T>(), steps);
  }

  /** Two branches of the wait predicate are dead.  When it runs, the head's status is INIT, so the
      RUNNING test never fires; and an eviction leaves the waiter in the list, so the list is never
      found empty behind it. */
  lemma DeadBranches<T>(s: State<T>, th: ThreadId, at: nat)
    requires Inv(s) && Enabled(s, Step<T>.Evaluation(th, at))
    ensures s.queue != [] ==> s.queue[0].status == INIT
    ensures Evaluate(s.queue, s.pc[th].task, at).evicts ==> |s.queue| > 1
  {
    NobodyOwnsDuringEvaluation(s, th, at);
    if Evaluate(s.queue, s.pc[th].task, at).evicts {
      EvictionShape(s.queue, s.pc[th].task, at);
    }
  }

  // ---------------------------------------------------------------------------------------------
  // Eviction
  // ---------------------------------------------------------------------------------------------

  /** How long before the hand-over the code read the clock for it. */
  ghost function Lag<T>(s: State<T>): int {
    s.headSince - s.headReading
  }

  /** Exactly when the predicate evicts the head: the waiter is queued behind it and has been patient
      once, and the time the head has been there when the predicate reads the clock, plus the lag of the
      reading that made it the head, reaches the timeout. */
  lemma EvictsExactlyWhen<T>(s: State<T>, th: ThreadId, at: nat)
    requires Inv(s) && Enabled(s, Step<T>.Evaluation(th, at))
    ensures var q, t := s.queue, s.pc[th].task;
      Evaluate(q, t, at).evicts <==>
        && Queued(q, t) && q[0].task != t && q[Position(q, t)].waitCount == 1
        && (at - s.headSince) + Lag(s) >= 2_000_000_000
  {
    NobodyOwnsDuringEvaluation(s, th, at);
    if s.queue != [] {
      assert s.queue[0].createTime == s.headReading;
    }
  }

  lemma InitKeepsInv<T>()
    ensures Inv(Init<T>())
  {
  }

  lemma ReachableKeepsInv<T>(steps: seq<Step<T>>)
    requires Runs(Init<T>(), steps)
    ensures Inv(Final(Init<T>(), steps))
  {
    InitKeepsInv<T>();
    EveryRunKeepsInv(Init<T>(), steps);
  }

  /** Over every run: with a hand-over that takes no time between its clock reading and the list
      mutex, only a task that sat unstarted at the head for the whole timeout is evicted. */
  lemma EvictedOnlyAfterTheTimeout<T>(steps: seq<Step<T>>, th: ThreadId, at: nat)
    requires Runs(Init<T>(), steps)
    requires Enabled(Final(Init<T>(), steps), Step<T>.Evaluation(th, at))
    requires var s := Final(Init<T>(), steps); Lag(s) == 0 && Evaluate(s.queue, s.pc[th].task, at).evicts
    ensures var s := Final(Init<T>(), steps);
      s.queue != [] && s.queue[0].status == INIT && s.now - s.headSince >= 2_000_000_000
  {
    ReachableKeepsInv(steps);
    EvictedAfterTheTimeout(Final(Init<T>(), steps), th, at);
  }

  lemma EvictedAfterTheTimeout<T>(s: State<T>, th: ThreadId, at: nat)
    requires Inv(s) && Lag(s) == 0
    requires Enabled(s, Step<T>.Evaluation(th, at)) && Evaluate(s.queue, s.pc[th].task, at).evicts
    ensures s.queue != [] && s.queue[0].status == INIT
    ensures s.now - s.headSince >= 2_000_000_000
  {
    EvictsExactlyWhen(s, th, at);
    DeadBranches(s, th, at);
  }

  lemma RunsCons<T>(s: State<T>, step: Step<T>, rest: seq<Step<T>>)
    requires Enabled(s, step) && Runs(Apply(s, step), rest)
    ensures Runs(s, [step] + rest) && Final(s, [step] + rest) == Final(Apply(s, step), rest)
  {
    assert ([step] + rest)[1..] == rest;
  }

  /** Without that assumption it fails: task 1 is constructed, its thread loses the processor for two
      seconds and pushes; task 2's consumer then evicts it at the very instant it became the head. */
  lemma EvictedOnArrival() returns (steps: seq<Step<int>>)
    ensures Runs(Init<int>(), steps)
    ensures var s := Final(Init<int>(), steps);
      && Enabled(s, Step<int>.Evaluation(7, s.now)) && Evaluate(s.queue, s.pc[7].task, s.now).evicts
      && s.queue[0].task == 1 && s.now == s.headSince
  {
    var ns := WORKER_TIMEOUT * NANOS_PER_MILLI;
    var s0 := Init<int>();
    var s1 := s0.(created := map[1 := 0]);
    var s2 := s1.(now := ns);
    var s3 := s2.(queue := [Entry(1, 0, 0, INIT)], created := map[], acquired := [1], headSince := ns);
    var s4 := s3.(created := map[2 := ns]);
    var s5, rest := SecondConsumerArrives();
    assert Apply(s0, Create(1)) == s1;
    assert Apply(s1, Step<int>.Tick(ns)) == s2;
    assert Apply(s2, Push(1)) == s3;
    assert Apply(s3, Create(2)) == s4;
    assert Apply(s4, Push(2)) == s5;
    RunsCons(s4, Push(2), rest);
    steps := [Push(2)] + rest;
    RunsCons(s3, Create(2), steps);
    steps := [Create(2)] + steps;
    RunsCons(s2, Push(1), steps);
    steps := [Push(1)] + steps;
    RunsCons(s1, Step<int>.Tick(ns), steps);
    steps := [Step<int>.Tick(ns)] + steps;
    RunsCons(s0, Create(1), steps);
    steps := [Create(1)] + steps;
  }

  /** The second half of that run: thread 7 enters with task 2 and evaluates once. */
  lemma SecondConsumerArrives() returns (s5: State<int>, steps: seq<Step<int>>)
    ensures var ns := WORKER_TIMEOUT * NANOS_PER_MILLI;
      s5 == State([Entry(1, 0, 0, INIT), Entry(2, 0, ns, INIT)], map[], ns, None, map[], [1, 2], [], [], ns, 0)
    ensures Runs(s5, steps)
    ensures var s := Final(s5, steps);
      && Enabled(s, Step<int>.Evaluation(7, s.now)) && Evaluate(s.queue, s.pc[7].task, s.now).evicts
      && s.queue[0].task == 1 && s.now == s.headSince
  {
    var ns := WORKER_TIMEOUT * NANOS_PER_MILLI;
    s5 := State([Entry(1, 0, 0, INIT), Entry(2, 0, ns, INIT)], map[], ns, None, map[], [1, 2], [], [], ns, 0);
    var s6 := s5.(holder := Some(7), pc := map[7 := Checked(2)]);
    var s7 := s5.(queue := [Entry(1, 0, 0, INIT), Entry(2, 1, ns, INIT)], pc := map[7 := Parked(2)]);
    assert Queued(s5.queue, 2) && Position(s5.queue, 2) == 1 by { assert s5.queue[1].task == 2; }
    assert Apply(s5, Enter(7, 2)) == s6;
    assert Apply(s6, Step<int>.Evaluation(7, ns)) == s7;
    assert Queued(s7.queue, 2) && Position(s7.queue, 2) == 1 by { assert s7.queue[1].task == 2; }
    RunsCons(s6, Step<int>.Evaluation(7, ns), []);
    RunsCons(s5, Enter(7, 2), [Step<int>.Evaluation(7, ns)] + []);
    steps := [Enter(7, 2)] + ([Step<int>.Evaluation(7, ns)] + []);
  }

  // ---------------------------------------------------------------------------------------------
  // Progress of a waiter
  // ---------------------------------------------------------------------------------------------

  /** Thread th waits for task t. */
  predicate Waits<T(==)>(s: State<T>, th: ThreadId, t: T) {
    th in s.pc && s.pc[th] == Parked(t)
  }

  /** The next evaluation by th finds t behind a head that has outlived the timeout. */
  predicate StaleFor<T(==)>(s: State<T>, t: T, at: nat) {
    Queued(s.queue, t) && s.queue[0].task != t && HeadStale(s.queue, at)
  }

  /** Twice the position of t, less its wait count: what is left to wait for. */
  function Remaining<T(==)>(s: State<T>, t: T): int {
    if Queued(s.queue, t) && s.queue[0].task != t then
      2 * Position(s.queue, t) - s.queue[Position(s.queue, t)].waitCount
    else 0
  }

  /** How many evaluations by th in this run found a stale head. */
  function StaleEvaluations<T(==)>(s: State<T>, steps: seq<Step<T>>, th: ThreadId, t: T): nat
    requires Runs(s, steps)
    decreases |steps|
  {
    if steps == [] then 0
    else
      (if steps[0].Evaluation? && steps[0].th == th && StaleFor(s, t, steps[0].at) then 1 else 0)
      + StaleEvaluations(Apply(s, steps[0]), steps[1..], th, t)
  }

  ghost predicate WaitsThroughout<T>(s: State<T>, steps: seq<Step<T>>, th: ThreadId, t: T)
    requires Runs(s, steps)
    decreases |steps|
  {
    Waits(s, th, t) && (steps == [] || WaitsThroughout(Apply(s, steps[0]), steps[1..], th, t))
  }

  lemma PositionIs<T>(q: seq<Entry<T>>, t: T, p: nat)
    requires Distinct(q) && p < |q| && q[p].task == t
    ensures Queued(q, t) && Position(q, t) == p
  {
  }

  /** Queue n is queue s without its head, and the wait counts only went down. */
  lemma DropLowersRemaining<T>(s: State<T>, n: State<T>, t: T)
    requires Inv(s) && SuffixOfAcquired(n)
    requires |n.queue| == |s.queue| - 1
    requires forall i :: 0 <= i < |n.queue| ==> n.queue[i].task == s.queue[i + 1].task && n.queue[i].waitCount >= 0
    ensures Remaining(n, t) <= Remaining(s, t)
    ensures Queued(n.queue, t) && n.queue[0].task != t ==>
      Remaining(n, t) <= 2 * Position(s.queue, t) - 2 && Queued(s.queue, t)
  {
    QueueDistinct(s);
    QueueDistinct(n);
    if Queued(n.queue, t) && n.queue[0].task != t {
      var p := Position(n.queue, t);
      PositionIs(s.queue, t, p + 1);
    } else if Queued(s.queue, t) && s.queue[0].task != t {
      var p := Position(s.queue, t);
      assert s.queue[p].waitCount <= 1;
    }
  }

  /** The tasks stand where they stood, at the front, and t's wait count did not go down. */
  lemma SameRemaining<T>(s: State<T>, n: State<T>, t: T)
    requires Inv(s) && SuffixOfAcquired(n) && Queued(s.queue, t)
    requires |n.queue| >= |s.queue|
    requires forall i :: 0 <= i < |s.queue| ==>
      n.queue[i].task == s.queue[i].task && n.queue[i].waitCount >= s.queue[i].waitCount
    ensures Remaining(n, t) <= Remaining(s, t)
    ensures Queued(n.queue, t) && Position(n.queue, t) == Position(s.queue, t)
  {
    QueueDistinct(n);
    PositionIs(n.queue, t, Position(s.queue, t));
  }

  lemma NextIsSuffix<T>(s: State<T>, step: Step<T>)
    requires Inv(s) && Enabled(s, step)
    ensures SuffixOfAcquired(Apply(s, step))
  {
    StepKeepsInv(s, step);
  }

  lemma OtherStepKeepsRemaining<T>(s: State<T>, step: Step<T>, t: T)
    requires Inv(s) && Enabled(s, step) && !step.Evaluation? && Queued(s.queue, t)
    ensures Remaining(Apply(s, step), t) <= Remaining(s, t)
  {
    NextIsSuffix(s, step);
    if step.Finish? {
      DropLowersRemaining(s, Apply(s, step), t);
    } else {
      SameRemaining(s, Apply(s, step), t);
    }
  }

  /** An evaluation, by whatever thread, leaves t at least as close; th's own evaluation behind a
      stale head brings it closer or ends its wait. */
  ghost predicate Closer<T>(s: State<T>, n: State<T>, u: ThreadId, at: nat, t: T)
    requires u in s.pc
  {
    && Remaining(n, t) <= Remaining(s, t)
    && (s.pc[u].task == t && StaleFor(s, t, at) ==>
         (u in n.pc && n.pc[u].Chosen?) || 1 <= Remaining(n, t) < Remaining(s, t))
  }

  lemma PatienceBringsCloser<T>(s: State<T>, n: State<T>, u: ThreadId, at: nat, t: T)
    requires Inv(s) && u in s.pc && SuffixOfAcquired(n) && Queued(s.queue, t)
    requires var e := Evaluate(s.queue, s.pc[u].task, at); !e.evicts && n.queue == e.queue
    ensures Closer(s, n, u, at, t)
  {
    QueueDistinct(s);
    PatientShape(s.queue, s.pc[u].task, at);
    SameRemaining(s, n, t);
  }

  lemma EvictionBringsCloser<T>(s: State<T>, n: State<T>, u: ThreadId, at: nat, t: T)
    requires Inv(s) && u in s.pc && SuffixOfAcquired(n) && Queued(s.queue, t)
    requires |n.queue| == |s.queue| - 1
    requires forall i :: 0 <= i < |n.queue| ==> n.queue[i].task == s.queue[i + 1].task && n.queue[i].waitCount >= 0
    requires (u in n.pc && n.pc[u].Chosen?)
      || (n.queue != [] && n.queue[0].task != s.pc[u].task
          && (forall i :: 0 <= i < |n.queue| ==> n.queue[i].waitCount == 0))
    ensures Closer(s, n, u, at, t)
  {
    DropLowersRemaining(s, n, t);
    if s.pc[u].task == t && StaleFor(s, t, at) {
      var p := Position(s.queue, t);
      QueueDistinct(n);
      PositionIs(n.queue, t, p - 1);
      assert s.queue[p].waitCount <= 1;
    }
  }

  lemma EvaluationResult<T>(s: State<T>, u: ThreadId, at: nat)
    requires Enabled(s, Step<T>.Evaluation(u, at))
    ensures var n, e := Apply(s, Step<T>.Evaluation(u, at)), Evaluate(s.queue, s.pc[u].task, at);
      n.queue == e.queue && (e.verdict.Admitted? ==> u in n.pc && n.pc[u].Chosen?)
  {
  }

  lemma StepKeepsSuffix<T>(s: State<T>, step: Step<T>)
    requires Inv(s) && Enabled(s, step)
    ensures SuffixOfAcquired(Apply(s, step))
  {
    StepKeepsInv(s, step);
  }

  lemma EvaluationBringsCloser<T>(s: State<T>, u: ThreadId, at: nat, t: T)
    requires Inv(s) && Enabled(s, Step<T>.Evaluation(u, at)) && Queued(s.queue, t)
    ensures Closer(s, Apply(s, Step<T>.Evaluation(u, at)), u, at, t)
  {
    var n := Apply(s, Step<T>.Evaluation(u, at));
    StepKeepsSuffix(s, Step<T>.Evaluation(u, at));
    EvaluationResult(s, u, at);
    if Evaluate(s.queue, s.pc[u].task, at).evicts {
      EvictionShape(s.queue, s.pc[u].task, at);
      EvictionBringsCloser(s, n, u, at, t);
    } else {
      PatienceBringsCloser(s, n, u, at, t);
    }
  }

  lemma NoStepReturnsATicket<T>(s: State<T>, step: Step<T>)
    requires Inv(s) && Enabled(s, step)
    ensures Dropped(Apply(s, step)) >= Dropped(s) && s.acquired <= Apply(s, step).acquired
  {
    if step.Evaluation? {
      var task := s.pc[step.th].task;
      if Evaluate(s.queue, task, step.at).evicts {
        EvictionShape(s.queue, task, step.at);
      } else {
        PatientShape(s.queue, task, step.at);
      }
    }
  }

  /** A ticket is queued exactly until it is dropped. */
  lemma TicketQueued<T>(s: State<T>, k: nat)
    requires SuffixOfAcquired(s) && k < |s.acquired|
    ensures Queued(s.queue, s.acquired[k]) <==> k >= Dropped(s)
  {
    if k >= Dropped(s) {
      assert s.queue[k - Dropped(s)].task == s.acquired[k];
    }
  }

  /** A task that left the list never comes back. */
  lemma GoneStaysGone<T>(s: State<T>, step: Step<T>, t: T)
    requires Inv(s) && Enabled(s, step) && t in s.acquired && !Queued(s.queue, t)
    ensures t in Apply(s, step).acquired && !Queued(Apply(s, step).queue, t)
  {
    StepKeepsInv(s, step);
    NoStepReturnsATicket(s, step);
    var k :| 0 <= k < |s.acquired| && s.acquired[k] == t;
    TicketQueued(s, k);
    TicketQueued(Apply(s, step), k);
  }

  lemma StepLowersRemaining<T>(s: State<T>, step: Step<T>, t: T)
    requires Inv(s) && Enabled(s, step) && t in s.acquired
    ensures Remaining(Apply(s, step), t) <= Remaining(s, t) && t in Apply(s, step).acquired
  {
    if !Queued(s.queue, t) {
      GoneStaysGone(s, step, t);
    } else {
      NoStepReturnsATicket(s, step);
      if step.Evaluation? {
        EvaluationBringsCloser(s, step.th, step.at, t);
      } else {
        OtherStepKeepsRemaining(s, step, t);
      }
    }
  }

  /** While th goes on waiting, its evaluations behind a stale head are fewer than what remained. */
  lemma {:induction false} EvaluationsBounded<T>(s: State<T>, steps: seq<Step<T>>, th: ThreadId, t: T)
    requires Inv(s) && Runs(s, steps) && t in s.acquired
    requires WaitsThroughout(s, steps, th, t)
    ensures var k := StaleEvaluations(s, steps, th, t); k == 0 || k < Remaining(s, t)
    decreases |steps|
  {
    if steps == [] {
    } else {
      var n := Apply(s, steps[0]);
      StepKeepsInv(s, steps[0]);
      StepLowersRemaining(s, steps[0], t);
      if steps[0].Evaluation? && steps[0].th == th && StaleFor(s, t, steps[0].at) {
        EvaluationBringsCloser(s, th, steps[0].at, t);
      }
      EvaluationsBounded(n, steps[1..], th, t);
    }
  }

  lemma QueuedFacts<T>(s: State<T>, t: T)
    requires Inv(s) && Queued(s.queue, t)
    ensures t in s.acquired && s.queue[Position(s.queue, t)].waitCount >= 0
  {
    var p := Position(s.queue, t);
    assert s.acquired[Dropped(s) + p] == t;
  }

  /** A waiter p places from the head is answered within 2p evaluations of its own that find the head
      older than the timeout, whatever any number of other threads do in between. */
  lemma WaiterAnsweredWithin<T>(s: State<T>, steps: seq<Step<T>>, th: ThreadId, t: T)
    requires Inv(s) && Runs(s, steps) && Waits(s, th, t) && Queued(s.queue, t)
    requires StaleEvaluations(s, steps, th, t) >= 2 * Position(s.queue, t) >= 2
    ensures !WaitsThroughout(s, steps, th, t)
  {
    QueuedFacts(s, t);
    if WaitsThroughout(s, steps, th, t) {
      EvaluationsBounded(s, steps, th, t);
    }
  }

  // ---------------------------------------------------------------------------------------------
  // The answers
  // ---------------------------------------------------------------------------------------------

  /** A waiter whose task heads the list is admitted, with the mutex, by its very next evaluation. */
  lemma HeadIsAdmitted<T>(s: State<T>, th: ThreadId, at: nat)
    requires Enabled(s, Step<T>.Evaluation(th, at)) && s.queue != [] && s.queue[0].task == s.pc[th].task
    ensures var n := Apply(s, Step<T>.Evaluation(th, at));
      && n.pc == s.pc[th := Chosen(s.pc[th].task)] && n.holder == Some(th)
      && n.queue == s.queue && n.evicted == s.evicted
  {
    assert Queued(s.queue, s.pc[th].task);
  }

  /** A waiter whose task is not in the list is told so, and leaves. */
  lemma MissingIsTold<T>(s: State<T>, th: ThreadId, at: nat)
    requires Enabled(s, Step<T>.Evaluation(th, at))
    requires forall i :: 0 <= i < |s.queue| ==> s.queue[i].task != s.pc[th].task
    ensures var n := Apply(s, Step<T>.Evaluation(th, at));
      && n.pc == s.pc - {th} && n.holder == None
      && n.queue == s.queue && n.evicted == s.evicted
  {
  }

  /** Any other waiter is admitted exactly when its evaluation evicts the head and it comes next. */
  lemma BehindTheHeadAdmittedExactlyWhen<T>(s: State<T>, th: ThreadId, at: nat)
    requires Inv(s) && Enabled(s, Step<T>.Evaluation(th, at))
    requires Queued(s.queue, s.pc[th].task) && s.queue[0].task != s.pc[th].task
    ensures var n, t := Apply(s, Step<T>.Evaluation(th, at)), s.pc[th].task;
      && th in n.pc && (n.pc[th] == Chosen(t) || n.pc[th] == Parked(t))
      && (n.pc[th] == Chosen(t) <==> |n.queue| < |s.queue| && s.queue[1].task == t)
      && (n.pc[th] == Chosen(t) <==> n.holder == Some(th))
  {
    var t := s.pc[th].task;
    if Evaluate(s.queue, t, at).evicts {
      EvictionShape(s.queue, t, at);
    } else {
      PatientShape(s.queue, t, at);
    }
  }

  /** Some evaluation of th in this run finds its task at the head, or not in the list. */
  predicate MeetsAnAnswer<T(==)>(s: State<T>, steps: seq<Step<T>>, th: ThreadId, t: T)
    requires Runs(s, steps)
    decreases |steps|
  {
    steps != [] &&
    ((steps[0].Evaluation? && steps[0].th == th && (!Queued(s.queue, t) || s.queue[0].task == t))
     || MeetsAnAnswer(Apply(s, steps[0]), steps[1..], th, t))
  }

  /** So no run in which th evaluates with its task at the head, or gone, keeps it waiting. */
  lemma {:induction false} NoWaitPastAnAnswer<T>(s: State<T>, steps: seq<Step<T>>, th: ThreadId, t: T)
    requires Runs(s, steps) && MeetsAnAnswer(s, steps, th, t)
    ensures !WaitsThroughout(s, steps, th, t)
    decreases |steps|
  {
    if Waits(s, th, t) {
      if steps[0].Evaluation? && steps[0].th == th && (!Queued(s.queue, t) || s.queue[0].task == t) {
        if Queued(s.queue, t) {
          HeadIsAdmitted(s, th, steps[0].at);
        } else {
          QueuedNowhere(s.queue, t);
          MissingIsTold(s, th, steps[0].at);
        }
      } else {
        NoWaitPastAnAnswer(Apply(s, steps[0]), steps[1..], th, t);
      }
    }
  }

  lemma QueuedNowhere<T>(q: seq<Entry<T>>, t: T)
    requires !Queued(q, t)
    ensures forall i :: 0 <= i < |q| ==> q[i].task != t
  {
  }

  /** What a consumer does around its wait: it waits only for a queued task; what it was admitted for
      runs; and when that is done its task has left the list and the mutex is free. */
  lemma ConsumerPath<T>(s: State<T>, th: ThreadId, t: T)
    requires Inv(s)
    ensures Enabled(s, Enter(th, t)) ==>
      var n := Apply(s, Enter(th, t));
      if exists i :: 0 <= i < |s.queue| && s.queue[i].task == t
      then n.pc == s.pc[th := Checked(t)] && n.holder == Some(th) && n.queue == s.queue
      else n == s
    ensures Enabled(s, Step<T>.Start(th)) ==>
      var n := Apply(s, Step<T>.Start(th));
      && n.pc == s.pc[th := Running(s.pc[th].task)] && n.executed == s.executed + [|s.acquired| - |s.queue|]
      && |n.queue| == |s.queue| && n.queue[0] == s.queue[0].(status := RUNNING)
    ensures Enabled(s, Step<T>.Finish(th)) ==>
      var n := Apply(s, Step<T>.Finish(th));
      && n.pc == s.pc - {th} && n.holder == None && |n.queue| == |s.queue| - 1
      && forall i :: 0 <= i < |n.queue| ==>
           n.queue[i] == s.queue[i + 1].(createTime := s.pc[th].reading, waitCount := 0)
  {
  }

  lemma OthersLeaveAWaitAlone<T>(s: State<T>, step: Step<T>, th: ThreadId, t: T)
    requires Inv(s) && Enabled(s, step) && Waits(s, th, t) && !(step.Evaluation? && step.th == th)
    ensures Waits(Apply(s, step), th, t)
  {
  }

  lemma OwnEvaluationAnswers<T>(s: State<T>, th: ThreadId, at: nat, t: T)
    requires Inv(s) && Enabled(s, Step<T>.Evaluation(th, at)) && Waits(s, th, t)
    requires !Evaluate(s.queue, t, at).verdict.KeepWaiting?
    ensures var n := Apply(s, Step<T>.Evaluation(th, at));
      || (n.pc == s.pc[th := Chosen(t)] && n.holder == Some(th) && n.queue != [] && n.queue[0].task == t)
      || (th !in n.pc && n.holder == None && !Queued(s.queue, t))
  {
    NobodyOwnsDuringEvaluation(s, th, at);
    ReworkedOk(s, t, at);
  }

  /** A wait ends only by the thread's own evaluation: it is admitted, at the head of the list, or
      told that its task is no longer queued. */
  lemma WaitEndsWithAnAnswer<T>(s: State<T>, step: Step<T>, th: ThreadId, t: T)
    requires Inv(s) && Enabled(s, step) && Waits(s, th, t) && !Waits(Apply(s, step), th, t)
    ensures step.Evaluation? && step.th == th
    ensures var n := Apply(s, step);
      || (n.pc == s.pc[th := Chosen(t)] && n.holder == Some(th) && n.queue != [] && n.queue[0].task == t)
      || (th !in n.pc && n.holder == None && !Queued(s.queue, t))
  {
    if !(step.Evaluation? && step.th == th) {
      OthersLeaveAWaitAlone(s, step, th, t);
    } else {
      assert !Evaluate(s.queue, t, step.at).verdict.KeepWaiting?;
      OwnEvaluationAnswers(s, th, step.at, t);
    }
  }
}

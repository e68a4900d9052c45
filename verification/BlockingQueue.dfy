/** common/utils/blocking_queue.h as a monitor: a bounded deque under one mutex, with producers
    waiting on `cvFull` and consumers on `cvEmpty`.

    A step is everything one thread does between taking the mutex and giving it back, either by
    returning or by waiting. */
module BlockingQueues {
  import opened ConditionVariables
  import opened Options

  // std::numeric_limits<size_t>::max(), the capacity when none is asked for.
  const SIZE_MAX: nat := 0xFFFF_FFFF_FFFF_FFFF

  /** What a consumer asked for: Pop, PopBack, Front or Back. */
  datatype Take = PopFront | PopBack | PeekFront | PeekBack {
    predicate Removes() { PopFront? || PopBack? }
  }

  datatype State<T> = State(
    capacity: nat,
    que: seq<T>,
    active: bool,
    full: Waiters,
    empty: Waiters,
    pushing: map<ThreadId, T>,    // the argument of each blocked producer
    taking: map<ThreadId, Take>,  // the request of each blocked consumer
    pushed: seq<T>,               // history: accepted values, in order
    popped: seq<T>,               // history: removed values, in order
    cleared: seq<T>)              // history: values dropped by Clear

  datatype Step<T> =
    | Push(t: ThreadId, v: T)
    | PushResume(t: ThreadId)
    | TakeOne(t: ThreadId, how: Take, wake: Option<ThreadId>)
    | TakeResume(t: ThreadId, wake: Option<ThreadId>)
    | Clear(wake: Option<ThreadId>)
    | SetActive(active: bool, wake: Option<ThreadId>, wakeEmpty: Option<ThreadId>)

  function Init<T>(requested: nat): State<T> {
    State(if requested > 0 then requested else SIZE_MAX,
          [], true, NO_WAITERS, NO_WAITERS, map[], map[], [], [], [])
  }

  predicate Idle<T>(s: State<T>, t: ThreadId) {
    !s.full.Has(t) && !s.empty.Has(t)
  }

  /** The value a consumer gets and the queue it leaves. */
  function Taken<T>(que: seq<T>, how: Take): T
    requires que != []
  {
    if how.PopFront? || how.PeekFront? then que[0] else que[|que| - 1]
  }

  function Rest<T>(que: seq<T>, how: Take): seq<T>
    requires que != []
  {
    match how
    case PopFront => que[1..]
    case PopBack => que[..|que| - 1]
    case _ => que
  }

  function Deposit<T>(s: State<T>, v: T): State<T> {
    s.(que := s.que + [v], empty := s.empty.NotifyAll(), pushed := s.pushed + [v])
  }

  function Withdraw<T>(s: State<T>, how: Take, wake: Option<ThreadId>): State<T>
    requires s.que != []
  {
    if how.Removes() then
      s.(que := Rest(s.que, how), full := s.full.NotifyOne(wake), popped := s.popped + [Taken(s.que, how)])
    else s
  }

  function Cleared<T>(s: State<T>, wake: Option<ThreadId>): State<T> {
    s.(que := [], cleared := s.cleared + s.que,
       full := if s.que != [] && |s.que| == s.capacity then s.full.NotifyOne(wake) else s.full)
  }

  /** The thread that a `cvFull_.notify_one()` reaches when it is sent, and nobody otherwise. */
  predicate WakeOk<T>(s: State<T>, sent: bool, wake: Option<ThreadId>) {
    if sent then s.full.Choice(wake) else wake == None
  }

  predicate Enabled<T>(s: State<T>, step: Step<T>) {
    match step
    case Push(t, _) => Idle(s, t)
    case PushResume(t) => s.full.Has(t) && t in s.pushing
    case TakeOne(t, how, wake) => Idle(s, t) && WakeOk(s, s.active && s.que != [] && how.Removes(), wake)
    case TakeResume(t, wake) =>
      s.empty.Has(t) && t in s.taking && WakeOk(s, s.active && s.que != [] && s.taking[t].Removes(), wake)
    case Clear(wake) => WakeOk(s, s.que != [] && |s.que| == s.capacity, wake)
    case SetActive(active, wake, wakeEmpty) =>
      && WakeOk(s, !active && s.que != [] && |s.que| == s.capacity, wake)
      && (if active then wakeEmpty == None else s.empty.Choice(wakeEmpty))
  }

  function Apply<T>(s: State<T>, step: Step<T>): State<T>
    requires Enabled(s, step)
  {
    match step
    case Push(t, v) =>
      if !s.active then s
      else if |s.que| < s.capacity then Deposit(s, v)
      else s.(full := s.full.Park(t), pushing := s.pushing[t := v])
    case PushResume(t) =>
      var out := s.(full := s.full.Leave(t), pushing := s.pushing - {t});
      if !s.active then out
      else if |s.que| < s.capacity then Deposit(out, s.pushing[t])
      else s.(full := s.full.Park(t))
    case TakeOne(t, how, wake) =>
      if !s.active then s
      else if s.que != [] then Withdraw(s, how, wake)
      else s.(empty := s.empty.Park(t), taking := s.taking[t := how])
    case TakeResume(t, wake) =>
      var out := s.(empty := s.empty.Leave(t), taking := s.taking - {t});
      if !s.active then out
      else if s.que != [] then Withdraw(out, s.taking[t], wake)
      else s.(empty := s.empty.Park(t))
    case Clear(wake) => Cleared(s, wake)
    case SetActive(active, wake, wakeEmpty) =>
      if active then s.(active := true)
      else Cleared(s, wake).(active := false, empty := s.empty.NotifyOne(wakeEmpty))
  }

  predicate Runs<T>(s: State<T>, steps: seq<Step<T>>)
    decreases |steps|
  {
    steps == [] || (Enabled(s, steps[0]) && Runs(Apply(s, steps[0]), steps[1..]))
  }

  function Final<T>(s: State<T>, steps: seq<Step<T>>): State<T>
    requires Runs(s, steps)
    decreases |steps|
  {
    if steps == [] then s else Final(Apply(s, steps[0]), steps[1..])
  }

  lemma RunsCons<T>(s: State<T>, step: Step<T>, rest: seq<Step<T>>)
    requires Enabled(s, step) && Runs(Apply(s, step), rest)
    ensures Runs(s, [step] + rest) && Final(s, [step] + rest) == Final(Apply(s, step), rest)
  {
    assert ([step] + rest)[1..] == rest;
  }

  // ---------------------------------------------------------------------------------------------
  // What every run keeps: bounds, bookkeeping and conservation
  // ---------------------------------------------------------------------------------------------

  ghost predicate Bounded<T>(s: State<T>) {
    s.capacity > 0 && |s.que| <= s.capacity && (!s.active ==> s.que == [])
  }

  /** A blocked thread waits on one condition variable, and its argument is still on its stack. */
  ghost predicate WaitersKnown<T>(s: State<T>) {
    && s.full.Valid() && s.empty.Valid()
    && (forall t :: s.full.Has(t) ==> t in s.pushing && !s.empty.Has(t))
    && (forall t :: s.empty.Has(t) ==> t in s.taking)
  }

  /** Every accepted value is exactly once popped, queued or cleared. */
  ghost predicate Conserved<T>(s: State<T>) {
    multiset(s.pushed) == multiset(s.popped) + multiset(s.que) + multiset(s.cleared)
  }

  ghost predicate Inv<T>(s: State<T>) {
    Bounded(s) && WaitersKnown(s) && Conserved(s)
  }

  lemma RestSplits<T>(que: seq<T>, how: Take)
    requires que != [] && how.Removes()
    ensures multiset(que) == multiset([Taken(que, how)]) + multiset(Rest(que, how))
  {
    if how.PopFront? {
      assert que == [que[0]] + que[1..];
    } else {
      assert que == que[..|que| - 1] + [que[|que| - 1]];
    }
  }

  lemma WithdrawConserves<T>(s: State<T>, how: Take, wake: Option<ThreadId>)
    requires Conserved(s) && s.que != []
    ensures Conserved(Withdraw(s, how, wake))
  {
    if how.Removes() {
      RestSplits(s.que, how);
      assert multiset(s.popped + [Taken(s.que, how)]) == multiset(s.popped) + multiset([Taken(s.que, how)]);
    }
  }

  lemma StepConserves<T>(s: State<T>, step: Step<T>)
    requires Conserved(s) && Enabled(s, step)
    ensures Conserved(Apply(s, step))
  {
    match step
    case TakeOne(t, how, wake) =>
      if s.active && s.que != [] {
        WithdrawConserves(s, how, wake);
      }
    case TakeResume(t, wake) =>
      if s.active && s.que != [] {
        WithdrawConserves(s.(empty := s.empty.Leave(t), taking := s.taking - {t}), s.taking[t], wake);
      }
    case _ =>
      assert multiset(s.cleared + s.que) == multiset(s.cleared) + multiset(s.que);
  }

  lemma DepositKeepsWaiters<T>(s: State<T>, v: T)
    requires WaitersKnown(s)
    ensures WaitersKnown(Deposit(s, v))
  {
    NotifyAllKeeps(s.empty);
  }

  lemma NotifyKeepsWaiters<T>(s: State<T>, n: State<T>, wake: Option<ThreadId>)
    requires WaitersKnown(s) && (wake == None || s.full.Choice(wake))
    requires n.full == s.full.NotifyOne(wake)
    requires n.empty == s.empty && n.pushing == s.pushing && n.taking == s.taking
    ensures WaitersKnown(n)
  {
    if wake.Some? {
      NotifyOneMovesOne(s.full, wake);
    }
  }

  lemma ProducerLeaves<T>(s: State<T>, t: ThreadId)
    requires WaitersKnown(s) && s.full.Has(t)
    ensures WaitersKnown(s.(full := s.full.Leave(t), pushing := s.pushing - {t}))
  {
    LeaveMoves(s.full, t);
  }

  lemma ConsumerLeaves<T>(s: State<T>, t: ThreadId)
    requires WaitersKnown(s) && s.empty.Has(t)
    ensures WaitersKnown(s.(empty := s.empty.Leave(t), taking := s.taking - {t}))
  {
    LeaveMoves(s.empty, t);
  }

  lemma ProducerParks<T>(s: State<T>, t: ThreadId, v: T)
    requires WaitersKnown(s) && !s.empty.Has(t)
    ensures WaitersKnown(s.(full := s.full.Park(t), pushing := s.pushing[t := v]))
  {
    ParkMoves(s.full, t);
  }

  lemma ConsumerParks<T>(s: State<T>, t: ThreadId, how: Take)
    requires WaitersKnown(s) && !s.full.Has(t)
    ensures WaitersKnown(s.(empty := s.empty.Park(t), taking := s.taking[t := how]))
  {
    ParkMoves(s.empty, t);
  }

  lemma PushResumeKeepsWaiters<T>(s: State<T>, t: ThreadId)
    requires WaitersKnown(s) && Enabled(s, Step<T>.PushResume(t))
    ensures WaitersKnown(Apply(s, Step<T>.PushResume(t)))
  {
    var v := s.pushing[t];
    if s.active && |s.que| >= s.capacity {
      ProducerParks(s, t, v);
      assert s.pushing[t := v] == s.pushing;
    } else {
      ProducerLeaves(s, t);
      DepositKeepsWaiters(s.(full := s.full.Leave(t), pushing := s.pushing - {t}), v);
    }
  }

  lemma TakeResumeKeepsWaiters<T>(s: State<T>, t: ThreadId, wake: Option<ThreadId>)
    requires WaitersKnown(s) && Enabled(s, Step<T>.TakeResume(t, wake))
    ensures WaitersKnown(Apply(s, Step<T>.TakeResume(t, wake)))
  {
    var how := s.taking[t];
    if s.active && s.que == [] {
      ConsumerParks(s, t, how);
      assert s.taking[t := how] == s.taking;
    } else {
      ConsumerLeaves(s, t);
      var out := s.(empty := s.empty.Leave(t), taking := s.taking - {t});
      if s.active {
        NotifyKeepsWaiters(out, Withdraw(out, how, wake), wake);
      }
    }
  }

  lemma StepKeepsWaiters<T>(s: State<T>, step: Step<T>)
    requires WaitersKnown(s) && Enabled(s, step)
    ensures WaitersKnown(Apply(s, step))
  {
    match step
    case Push(t, v) =>
      DepositKeepsWaiters(s, v);
      ProducerParks(s, t, v);
    case PushResume(t) => PushResumeKeepsWaiters(s, t);
    case TakeOne(t, how, wake) =>
      if s.active && s.que == [] {
        ConsumerParks(s, t, how);
      } else if s.active {
        NotifyKeepsWaiters(s, Withdraw(s, how, wake), wake);
      }
    case TakeResume(t, wake) => TakeResumeKeepsWaiters(s, t, wake);
    case Clear(wake) => NotifyKeepsWaiters(s, Apply(s, step), wake);
    case SetActive(active, wake, wakeEmpty) =>
      if !active {
        var c := Cleared(s, wake);
        NotifyKeepsWaiters(s, c, wake);
        if wakeEmpty.Some? { NotifyOneMovesOne(c.empty, wakeEmpty); }
      }
  }

  lemma StepKeepsInv<T>(s: State<T>, step: Step<T>)
    requires Inv(s) && Enabled(s, step)
    ensures Inv(Apply(s, step))
  {
    StepConserves(s, step);
    StepKeepsWaiters(s, step);
  }

  /** Any number of threads, any interleaving of every operation: the queue never exceeds its
      capacity, is empty while inactive, and every accepted value is exactly once popped, queued or
      cleared. */
  lemma {:induction false} EveryRunConserves<T>(s: State<T>, steps: seq<Step<T>>)
    requires Inv(s) && Runs(s, steps)
    ensures Inv(Final(s, steps))
    decreases |steps|
  {
    if steps == [] {
    } else {
      StepKeepsInv(s, steps[0]);
      EveryRunConserves(Apply(s, steps[0]), steps[1..]);
    }
  }

  // ---------------------------------------------------------------------------------------------
  // No lost wake-up in runs of the untimed Push, Pop, PopBack, Front and Back
  // ---------------------------------------------------------------------------------------------

  predicate Untimed<T>(step: Step<T>) {
    !step.Clear? && !step.SetActive?
  }

  /** While a producer is parked, at least as many producers are on their way as there are slots. */
  ghost predicate ProducersServed<T>(s: State<T>) {
    s.full.parked != {} ==> |s.full.woken| >= s.capacity - |s.que|
  }

  /** A consumer is parked only while there is nothing to take. */
  ghost predicate ConsumersServed<T>(s: State<T>) {
    s.empty.parked != {} ==> s.que == []
  }

  ghost predicate NoLostWakeup<T>(s: State<T>) {
    Inv(s) && s.active && ProducersServed(s) && ConsumersServed(s)
  }

  lemma StepLosesNoWakeup<T>(s: State<T>, step: Step<T>)
    requires NoLostWakeup(s) && Enabled(s, step) && Untimed(step)
    ensures NoLostWakeup(Apply(s, step))
  {
    StepKeepsInv(s, step);
    match step
    case Push(t, v) => ParkMoves(s.full, t);
    case PushResume(t) =>
      ParkMoves(s.full, t);
      LeaveMoves(s.full, t);
    case TakeOne(t, how, wake) =>
      if s.que != [] && how.Removes() { NotifyOneMovesOne(s.full, wake); }
    case TakeResume(t, wake) =>
      if s.que != [] && s.taking[t].Removes() { NotifyOneMovesOne(s.full, wake); }
  }

  /** For any number of threads: a producer parked while a slot is free always has a woken producer
      ahead of it for every free slot, and no consumer is parked while a value is queued. */
  lemma {:induction false} UntimedRunsLoseNoWakeup<T>(s: State<T>, steps: seq<Step<T>>)
    requires NoLostWakeup(s) && Runs(s, steps)
    requires forall i :: 0 <= i < |steps| ==> Untimed(steps[i])
    ensures NoLostWakeup(Final(s, steps))
    decreases |steps|
  {
    if steps == [] {
    } else {
      StepLosesNoWakeup(s, steps[0]);
      UntimedRunsLoseNoWakeup(Apply(s, steps[0]), steps[1..]);
    }
  }

  /** Clear is outside that theorem, and exactly how: it frees every slot and notifies at most one
      producer, so it keeps the producers served if and only if nobody stays parked or the woken ones
      already cover the whole capacity. */
  lemma ClearServesProducersExactlyWhen<T>(s: State<T>, wake: Option<ThreadId>)
    requires Inv(s) && Enabled(s, Step<T>.Clear(wake))
    ensures ProducersServed(Apply(s, Step<T>.Clear(wake))) <==>
      var sent := if |s.que| == s.capacity then 1 else 0;
      |s.full.parked| <= sent || |s.full.woken| + sent >= s.capacity
  {
    if |s.que| == s.capacity {
      NotifyOneMovesOne(s.full, wake);
    }
  }

  /** The lost wake-up that Clear causes: two producers wait on a full queue of two, Clear empties it,
      and one of them stays parked beside two free slots with a single woken producer. */
  lemma ClearLosesAWakeup() returns (steps: seq<Step<int>>)
    ensures Runs(Init<int>(2), steps) && !ProducersServed(Final(Init<int>(2), steps))
  {
    var s0 := Init<int>(2);
    var s1 := s0.(que := [10], pushed := [10]);
    var s2 := s0.(que := [10, 11], pushed := [10, 11]);
    var s3 := s2.(full := Waiters({2}, {}), pushing := map[2 := 12]);
    var s4 := s2.(full := Waiters({2, 3}, {}), pushing := map[2 := 12, 3 := 13]);
    var s5 := s4.(full := Waiters({3}, {2}), que := [], cleared := [10, 11]);
    var clear := Step<int>.Clear(Some(2));
    assert Apply(s4, clear) == s5 by { assert {2, 3} - {2} == {3}; }
    assert !ProducersServed(s5) by { assert |s5.full.woken| == 1; }
    assert Apply(s3, Push(3, 13)) == s4 by { assert {2} + {3} == {2, 3}; }
    assert Apply(s2, Push(2, 12)) == s3;
    assert Apply(s1, Push(1, 11)) == s2;
    assert Apply(s0, Push(1, 10)) == s1;
    RunsCons(s4, clear, []);
    RunsCons(s3, Push(3, 13), [clear] + []);
    RunsCons(s2, Push(2, 12), [Push(3, 13)] + ([clear] + []));
    RunsCons(s1, Push(1, 11), [Push(2, 12)] + ([Push(3, 13)] + ([clear] + [])));
    steps := [Push(1, 11)] + ([Push(2, 12)] + ([Push(3, 13)] + ([clear] + [])));
    RunsCons(s0, Push(1, 10), steps);
    steps := [Push(1, 10)] + steps;
  }

  // ---------------------------------------------------------------------------------------------
  // Order
  // ---------------------------------------------------------------------------------------------

  predicate Fifo<T>(s: State<T>, step: Step<T>) {
    match step
    case TakeOne(_, how, _) => !how.PopBack?
    case TakeResume(t, _) => t in s.taking ==> !s.taking[t].PopBack?
    case Clear(_) => false
    case SetActive(active, _, _) => active
    case _ => true
  }

  /** Runs in which no PopBack, Clear or SetActive(false) takes effect. */
  ghost predicate FifoRun<T>(s: State<T>, steps: seq<Step<T>>)
    requires Runs(s, steps)
    decreases |steps|
  {
    steps == [] || (Fifo(s, steps[0]) && FifoRun(Apply(s, steps[0]), steps[1..]))
  }

  lemma FifoDeposit<T>(s: State<T>, v: T)
    requires s.popped + s.que == s.pushed
    ensures var n := Deposit(s, v); n.popped + n.que == n.pushed
  {
    assert s.popped + (s.que + [v]) == (s.popped + s.que) + [v];
  }

  lemma FifoWithdraw<T>(s: State<T>, how: Take, wake: Option<ThreadId>)
    requires s.popped + s.que == s.pushed && s.que != [] && !how.PopBack?
    ensures var n := Withdraw(s, how, wake); n.popped + n.que == n.pushed
  {
    assert s.que == [s.que[0]] + s.que[1..];
    assert s.popped + s.que == (s.popped + [s.que[0]]) + s.que[1..];
  }

  lemma FifoStep<T>(s: State<T>, step: Step<T>)
    requires Enabled(s, step) && Fifo(s, step) && s.popped + s.que == s.pushed
    ensures var n := Apply(s, step); n.popped + n.que == n.pushed
  {
    match step
    case Push(t, v) => FifoDeposit(s, v);
    case PushResume(t) =>
      FifoDeposit(s.(full := s.full.Leave(t), pushing := s.pushing - {t}), s.pushing[t]);
    case TakeOne(t, how, wake) =>
      if s.que != [] { FifoWithdraw(s, how, wake); }
    case TakeResume(t, wake) =>
      if s.que != [] {
        FifoWithdraw(s.(empty := s.empty.Leave(t), taking := s.taking - {t}), s.taking[t], wake);
      }
    case SetActive(_, _, _) =>
  }

  /** What was popped, followed by what is queued, is what was accepted: first in, first out across
      every thread. */
  lemma {:induction false} PopsFollowPushes<T>(s: State<T>, steps: seq<Step<T>>)
    requires Runs(s, steps) && FifoRun(s, steps)
    requires s.popped + s.que == s.pushed
    ensures var e := Final(s, steps); e.popped + e.que == e.pushed
    decreases |steps|
  {
    if steps == [] {
    } else {
      FifoStep(s, steps[0]);
      PopsFollowPushes(Apply(s, steps[0]), steps[1..]);
    }
  }

  // ---------------------------------------------------------------------------------------------
  // One deque
  // ---------------------------------------------------------------------------------------------

  /** `value` was taken, or looked at, at the asked end of `before`, and `after` was left. */
  ghost predicate Took<T>(before: seq<T>, how: Take, value: T, after: seq<T>) {
    before != [] &&
    match how
    case PopFront => before == [value] + after
    case PopBack => before == after + [value]
    case PeekFront => after == before && value == before[0]
    case PeekBack => after == before && value == before[|before| - 1]
  }

  /** What happens to a sequential deque. */
  datatype Event<T> = Accepted(value: T) | LeftFront(value: T) | LeftBack(value: T) | Dropped

  /** One event on a sequential deque of this capacity, which may refuse it. */
  ghost function Replayed<T>(que: seq<T>, event: Event<T>, capacity: nat): Option<seq<T>> {
    match event
    case Accepted(value) => if |que| < capacity then Some(que + [value]) else None
    case LeftFront(value) => if que != [] && que[0] == value then Some(que[1..]) else None
    case LeftBack(value) => if que != [] && que[|que| - 1] == value then Some(que[..|que| - 1]) else None
    case Dropped => Some([])
  }

  ghost function Replay<T>(que: seq<T>, events: seq<Event<T>>, capacity: nat): Option<seq<T>>
    decreases |events|
  {
    if events == [] then Some(que)
    else
      match Replayed(que, events[0], capacity)
      case None => None
      case Some(next) => Replay(next, events[1..], capacity)
  }

  /** What a step put into the histories, and at which end its consumer asked. */
  function EventOf<T>(s: State<T>, step: Step<T>, n: State<T>): seq<Event<T>> {
    if |n.pushed| > |s.pushed| then [Accepted(n.pushed[|n.pushed| - 1])]
    else if |n.popped| > |s.popped| then
      var back := (step.TakeOne? && step.how.PopBack?)
        || (step.TakeResume? && step.t in s.taking && s.taking[step.t].PopBack?);
      [if back then LeftBack(n.popped[|n.popped| - 1]) else LeftFront(n.popped[|n.popped| - 1])]
    else if |n.cleared| > |s.cleared| then [Dropped]
    else []
  }

  function Events<T>(s: State<T>, steps: seq<Step<T>>): seq<Event<T>>
    requires Runs(s, steps)
    decreases |steps|
  {
    if steps == [] then []
    else EventOf(s, steps[0], Apply(s, steps[0])) + Events(Apply(s, steps[0]), steps[1..])
  }

  lemma StepReplays<T>(s: State<T>, step: Step<T>)
    requires Enabled(s, step)
    ensures var n := Apply(s, step); var events := EventOf(s, step, n);
      |events| <= 1 && n.capacity == s.capacity
      && (if events == [] then n.que == s.que else Replayed(s.que, events[0], s.capacity) == Some(n.que))
  {
  }

  /** Over every run, whatever is mixed, the histories are those of one sequential deque: what comes in
      goes behind the last value, PopBack removes the newest that is left, Pop the oldest, and Clear and
      deactivation all of them. */
  lemma {:induction false} EveryRunIsADeque<T>(s: State<T>, steps: seq<Step<T>>)
    requires Runs(s, steps)
    ensures Replay(s.que, Events(s, steps), s.capacity) == Some(Final(s, steps).que)
    decreases |steps|
  {
    if steps == [] {
    } else {
      var n := Apply(s, steps[0]);
      var events, rest := EventOf(s, steps[0], n), Events(n, steps[1..]);
      StepReplays(s, steps[0]);
      EveryRunIsADeque(n, steps[1..]);
      if events == [] {
        assert events + rest == rest;
      } else {
        assert (events + rest)[0] == events[0] && (events + rest)[1..] == rest;
      }
    }
  }

  /** SetActive(false) makes every waiting predicate true but notifies at most one thread of each
      kind: a producer is left parked exactly when more were parked than the full queue's single
      notification reaches, and a consumer exactly when more than one was parked. */
  lemma ShutdownStrandsExactlyWhen<T>(s: State<T>, wake: Option<ThreadId>, wakeEmpty: Option<ThreadId>)
    requires Inv(s) && Enabled(s, Step<T>.SetActive(false, wake, wakeEmpty))
    ensures var e := Apply(s, Step<T>.SetActive(false, wake, wakeEmpty));
      && (e.full.parked != {} <==> |s.full.parked| > if |s.que| == s.capacity then 1 else 0)
      && (e.empty.parked != {} <==> |s.empty.parked| > 1)
  {
    if |s.que| == s.capacity {
      NotifyOneMovesOne(s.full, wake);
    }
    NotifyOneMovesOne(s.empty, wakeEmpty);
  }

  /** The whole queue, from its construction, for every interleaving of any number of threads. */
  lemma EveryReachableQueue<T>(requested: nat, steps: seq<Step<T>>)
    requires Runs(Init<T>(requested), steps)
    ensures var e := Final(Init<T>(requested), steps);
      && Inv(e)
      && ((forall i :: 0 <= i < |steps| ==> Untimed(steps[i])) ==> NoLostWakeup(e))
      && (FifoRun(Init<T>(requested), steps) ==> e.popped + e.que == e.pushed)
  {
    var s := Init<T>(requested);
    EveryRunConserves(s, steps);
    if forall i :: 0 <= i < |steps| ==> Untimed(steps[i]) {
      UntimedRunsLoseNoWakeup(s, steps);
    }
    if FifoRun(s, steps) {
      PopsFollowPushes(s, steps);
    }
  }

  // ---------------------------------------------------------------------------------------------
  // The class
  // ---------------------------------------------------------------------------------------------

  /** What a call brings back: it is still waiting, the queue was inactive (the C++ returns `false`
      or `{}`), the value was stored, or a value was taken. */
  datatype Outcome<+T> = Waiting | Inactive | Stored | Got(value: T)

  class BlockingQueue<T> {
    const capacity: nat
    var que: seq<T>
    var isActive: bool
    var cvFull: Waiters
    var cvEmpty: Waiters
    var pushing: map<ThreadId, T>
    var taking: map<ThreadId, Take>
    ghost var pushed: seq<T>
    ghost var popped: seq<T>
    ghost var cleared: seq<T>

    ghost function View(): State<T>
      reads this
    {
      State(capacity, que, isActive, cvFull, cvEmpty, pushing, taking, pushed, popped, cleared)
    }

    constructor (requested: nat)
      ensures View() == Init<T>(requested) && Inv(View())
    {
      capacity := if requested > 0 then requested else SIZE_MAX;
      que, isActive := [], true;
      cvFull, cvEmpty := NO_WAITERS, NO_WAITERS;
      pushing, taking := map[], map[];
      pushed, popped, cleared := [], [], [];
    }

    /** `notify_one` on `cvFull`: the scheduler picks any parked producer. */
    method NotifyOneProducer() returns (wake: Option<ThreadId>)
      modifies this`cvFull
      ensures old(cvFull).Choice(wake) && cvFull == old(cvFull).NotifyOne(wake)
    {
      wake := None;
      if cvFull.parked != {} {
        var t :| t in cvFull.parked;
        wake := Some(t);
        cvFull := Waiters(cvFull.parked - {t}, cvFull.woken + {t});
      }
    }

    /** CanPush up to the wait; a resumed thread arrives behind it. */
    method CanPush() returns (r: Outcome<T>)
      ensures r == if !isActive then Inactive else if |que| < capacity then Stored else Waiting
    {
      if !isActive {
        return Inactive;
      }
      if |que| >= capacity {
        return Waiting;
      }
      r := Stored;
    }

    method Append(v: T)
      modifies this
      ensures View() == Deposit(old(View()), v)
    {
      que := que + [v];
      cvEmpty := Waiters({}, cvEmpty.woken + cvEmpty.parked);
      pushed := pushed + [v];
    }

    method Push(t: ThreadId, v: T) returns (r: Outcome<T>)
      requires Inv(View()) && Enabled(View(), Step<T>.Push(t, v))
      modifies this
      ensures View() == Apply(old(View()), Step<T>.Push(t, v)) && Inv(View())
      ensures r.Stored? <==> old(isActive) && |old(que)| < capacity
      ensures que == if r.Stored? then old(que) + [v] else old(que)
      ensures r.Stored? ==> cvEmpty.parked == {}
      ensures r.Inactive? <==> !old(isActive)
      ensures r.Waiting? <==> t in cvFull.parked
    {
      StepKeepsInv(View(), Step<T>.Push(t, v));
      r := CanPush();
      if r.Stored? {
        Append(v);
      } else if r.Waiting? {
        cvFull := Waiters(cvFull.parked + {t}, cvFull.woken - {t});
        pushing := pushing[t := v];
      }
    }

    /** A waiting producer has the mutex again. */
    method PushResume(t: ThreadId) returns (r: Outcome<T>)
      requires Inv(View()) && Enabled(View(), Step<T>.PushResume(t))
      modifies this
      ensures View() == Apply(old(View()), Step<T>.PushResume(t)) && Inv(View())
      ensures r.Stored? <==> old(isActive) && |old(que)| < capacity
      ensures que == if r.Stored? then old(que) + [old(pushing)[t]] else old(que)
      ensures r.Stored? ==> cvEmpty.parked == {}
      ensures r.Inactive? <==> !old(isActive)
      ensures r.Waiting? <==> t in cvFull.parked
    {
      StepKeepsInv(View(), Step<T>.PushResume(t));
      var v := pushing[t];
      r := CanPush();
      if r.Waiting? {
        cvFull := Waiters(cvFull.parked + {t}, cvFull.woken - {t});
      } else {
        cvFull := Waiters(cvFull.parked - {t}, cvFull.woken - {t});
        pushing := pushing - {t};
        if r.Stored? {
          Append(v);
        }
      }
    }

    /** The tail that Pop, PopBack, Front and Back share once the queue is known to hold a value. */
    method Extract(how: Take) returns (el: T, wake: Option<ThreadId>)
      requires que != []
      modifies this
      ensures el == Taken(old(que), how) && Took(old(que), how, el, que)
      ensures WakeOk(old(View()), how.Removes(), wake)
      ensures View() == Withdraw(old(View()), how, wake)
    {
      wake := None;
      if how.PopFront? || how.PeekFront? {
        el := que[0];
      } else {
        el := que[|que| - 1];
      }
      if how.PopFront? {
        que := que[1..];
      } else if how.PopBack? {
        que := que[..|que| - 1];
      }
      if how.PopFront? || how.PopBack? {
        popped := popped + [el];
        wake := NotifyOneProducer();
      }
    }

    method TakeOne(t: ThreadId, how: Take) returns (r: Outcome<T>, ghost wake: Option<ThreadId>)
      requires Inv(View()) && Idle(View(), t)
      modifies this
      ensures Enabled(old(View()), Step<T>.TakeOne(t, how, wake))
      ensures View() == Apply(old(View()), Step<T>.TakeOne(t, how, wake)) && Inv(View())
      ensures r.Got? <==> old(isActive) && old(que) != []
      ensures if r.Got? then Took(old(que), how, r.value, que) else que == old(que)
      ensures r.Inactive? <==> !old(isActive)
      ensures r.Waiting? <==> t in cvEmpty.parked
    {
      wake := None;
      if !isActive {
        r := Inactive;
      } else if que == [] {
        StepKeepsInv(View(), Step<T>.TakeOne(t, how, None));
        cvEmpty := Waiters(cvEmpty.parked + {t}, cvEmpty.woken - {t});
        taking := taking[t := how];
        r := Waiting;
      } else {
        var el, w := Extract(how);
        wake, r := w, Got(el);
        StepKeepsInv(old(View()), Step<T>.TakeOne(t, how, w));
      }
    }

    /** A waiting consumer has the mutex again. */
    method TakeResume(t: ThreadId) returns (r: Outcome<T>, ghost wake: Option<ThreadId>)
      requires Inv(View()) && cvEmpty.Has(t)
      modifies this
      ensures Enabled(old(View()), Step<T>.TakeResume(t, wake))
      ensures View() == Apply(old(View()), Step<T>.TakeResume(t, wake)) && Inv(View())
      ensures r.Got? <==> old(isActive) && old(que) != []
      ensures if r.Got? then Took(old(que), old(taking)[t], r.value, que) else que == old(que)
      ensures r.Inactive? <==> !old(isActive)
      ensures r.Waiting? <==> t in cvEmpty.parked
    {
      wake := None;
      if isActive && que == [] {
        StepKeepsInv(View(), Step<T>.TakeResume(t, None));
        cvEmpty := Waiters(cvEmpty.parked + {t}, cvEmpty.woken - {t});
        r := Waiting;
      } else {
        var how := taking[t];
        cvEmpty := Waiters(cvEmpty.parked - {t}, cvEmpty.woken - {t});
        taking := taking - {t};
        if !isActive {
          r := Inactive;
          StepKeepsInv(old(View()), Step<T>.TakeResume(t, None));
        } else {
          var el, w := Extract(how);
          wake, r := w, Got(el);
          StepKeepsInv(old(View()), Step<T>.TakeResume(t, w));
        }
      }
    }

    method ClearUnlocked() returns (ghost wake: Option<ThreadId>)
      modifies this
      ensures WakeOk(old(View()), old(que) != [] && |old(que)| == capacity, wake)
      ensures View() == Cleared(old(View()), wake) && que == []
    {
      wake := None;
      cleared := cleared + que;
      if que == [] {
        return;
      }
      var needNotify := |que| == capacity;
      que := [];
      if needNotify {
        var w := NotifyOneProducer();
        wake := w;
      }
    }

    method Clear() returns (ghost wake: Option<ThreadId>)
      requires Inv(View())
      modifies this
      ensures Enabled(old(View()), Step<T>.Clear(wake))
      ensures View() == Apply(old(View()), Step<T>.Clear(wake)) && Inv(View()) && que == []
    {
      wake := ClearUnlocked();
      StepKeepsInv(old(View()), Step<T>.Clear(wake));
    }

    method SetActive(active: bool) returns (ghost wake: Option<ThreadId>, ghost wakeEmpty: Option<ThreadId>)
      requires Inv(View())
      modifies this
      ensures Enabled(old(View()), Step<T>.SetActive(active, wake, wakeEmpty))
      ensures View() == Apply(old(View()), Step<T>.SetActive(active, wake, wakeEmpty)) && Inv(View())
      ensures isActive == active && que == if active then old(que) else []
    {
      wake, wakeEmpty := None, None;
      isActive := active;
      if !active {
        wake := ClearUnlocked();
        if cvEmpty.parked != {} {
          var t :| t in cvEmpty.parked;
          wakeEmpty := Some(t);
          cvEmpty := Waiters(cvEmpty.parked - {t}, cvEmpty.woken + {t});
        }
      }
      StepKeepsInv(old(View()), Step<T>.SetActive(active, wake, wakeEmpty));
    }
  }
}

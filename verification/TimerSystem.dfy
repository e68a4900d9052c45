/** TimeBrokers and TimerCores as one system: one broker, its timer, and the thread that serves it
    together with any other timers.  What TimeBrokers assumes of TimerCore, that an entry is taken only
    when its time has come, is proved here of TimerCore's own loop.

    Timer::StartAt calls into TimerCore twice, and the loop may step in between: the old entry is taken
    out with the broker's step, the new one is put in by Enter. */
module TimerSystems {
  import opened Options
  import opened TimeBrokers
  import DeferredTimers
  import TimerCores

  const ME: TimerCores.TimerId := 0

  /** A StartAt between its two calls; `byLoop` says that the timer thread itself is in it. */
  datatype Starting = Starting(time: nat, byLoop: bool)

  datatype System = System(broker: State, core: TimerCores.Core, starting: Option<Starting>)

  datatype Move =
    | Elapse(ms: nat)
    | Loop(action: TimerCores.Action)
    | Other(action: TimerCores.Action)
    | Deliver
    | Broker(step: Step)
    | Enter

  const IDLE_SYSTEM := System(INIT, TimerCores.START, None)

  /** The timer thread is free to go on with its loop. */
  predicate LoopFree(x: System) {
    x.broker.phase.Idle? && (x.starting.Some? ==> !x.starting.value.byLoop)
  }

  ghost predicate Possible(x: System, m: Move) {
    match m
    case Elapse(_) => true
    case Loop(a) => (a.BeginWait? || a.Wake? || a.TimeOut?) && TimerCores.Can(x.core, a) && LoopFree(x)
    case Other(a) => (a.RegisterTimer? || a.DeregisterTimer?) && a.timer != ME
    case Deliver => TimerCores.Can(x.core, TimerCores.DoTimeout) && LoopFree(x)
    case Broker(step) =>
      && Enabled(x.broker, step) && !step.Tick? && !step.CoreTakes?
      && (x.starting.Some? ==> step.OtherBroker?)
    case Enter => x.starting.Some?
  }

  /** The entries that TimerCore's table holds of this timer under one time. */
  function Held(c: TimerCores.Core, time: nat): nat {
    TimerCores.InTable(c, time, ME)
  }

  /** The time for which a step of the broker starts the timer, if it does. */
  ghost function StartTime(s: State, step: Step): Option<nat>
    requires Enabled(s, step)
  {
    match step
    case Register(reading, delay, callback, handle) =>
      var time := reading + delay;
      if handle != s.books.preHandle && time == Least(Registered(s.books, time, callback, handle).timeline)
      then Some(time) else None
    case BrokerExpires =>
      if s.books.timeline == multiset{} then None
      else
        var top := Least(s.books.timeline);
        var rest := s.books.timeline - multiset{top};
        if rest == multiset{} || (s.timer.active && top == 0) then None else Some(Least(rest))
    case _ => None
  }

  ghost function Advance(x: System, m: Move): System
    requires Possible(x, m)
  {
    match m
    case Elapse(ms) => x.(broker := Apply(x.broker, Tick(ms)), core := TimerCores.Do(x.core, TimerCores.Elapse(ms)))
    case Loop(a) => x.(core := TimerCores.Do(x.core, a))
    case Other(a) => x.(core := TimerCores.Do(x.core, a))
    case Deliver =>
      var n := x.(core := TimerCores.Do(x.core, TimerCores.DoTimeout));
      if x.core.timeline == multiset{} then n
      else
        var time := Least(x.core.timeline);
        var held := Held(x.core, time);
        if held == 0 then n else n.(broker := TakenAt(x.broker, time, held))
    case Broker(step) =>
      var n := x.(broker := Apply(x.broker, step));
      (match StartTime(x.broker, step)
       case None => n
       case Some(time) =>
         var timer := x.broker.timer;
         n.(core := if timer.active
              then TimerCores.Do(x.core, TimerCores.DeregisterTimer(timer.expiredTime, ME)) else x.core,
            starting := Some(Starting(time, step.BrokerExpires?))))
    case Enter =>
      x.(core := TimerCores.Do(x.core, TimerCores.RegisterTimer(x.starting.value.time, ME)), starting := None)
  }

  ghost predicate Moves(x: System, moves: seq<Move>)
    decreases |moves|
  {
    moves == [] || (Possible(x, moves[0]) && Moves(Advance(x, moves[0]), moves[1..]))
  }

  ghost function Ends(x: System, moves: seq<Move>): System
    requires Moves(x, moves)
    decreases |moves|
  {
    if moves == [] then x else Ends(Advance(x, moves[0]), moves[1..])
  }

  // ---------------------------------------------------------------------------------------------
  // The invariant
  // ---------------------------------------------------------------------------------------------

  predicate IsStarting(x: System, time: nat) {
    x.starting.Some? && x.starting.value.time == time
  }

  /** What the broker's timer counts as registered is what TimerCore's table holds of it, and the entry
      on its way. */
  ghost predicate Linked(x: System) {
    forall time :: x.broker.timer.registered[time] == Held(x.core, time) + if IsStarting(x, time) then 1 else 0
  }

  /** The loop stands still while its thread delivers, and a start under way is for the timer's time. */
  ghost predicate InStep(x: System) {
    && x.broker.now == x.core.now
    && (!LoopFree(x) ==> x.core.loop.Starting?)
    && (x.starting.Some? ==>
         DeferredTimers.Armed(x.broker.timer) && x.broker.timer.expiredTime == x.starting.value.time)
  }

  ghost predicate SystemInv(x: System) {
    && Inv(x.broker) && TimerCores.CoreInv(x.core) && TimerCores.CorePunctual(x.core)
    && Linked(x) && InStep(x)
  }

  /** The two kinds of moves that break it. */
  ghost predicate Late(x: System, m: Move)
    requires Possible(x, m)
  {
    match m
    case Other(a) => TimerCores.Late(x.core, a)
    case Enter => TimerCores.Late(x.core, TimerCores.RegisterTimer(x.starting.value.time, ME))
    case _ => false
  }

  ghost predicate Collision(x: System, m: Move) {
    m.Broker? && Collides(x.broker, m.step)
  }

  // ---------------------------------------------------------------------------------------------
  // Each move keeps it
  // ---------------------------------------------------------------------------------------------

  lemma OtherKeepsLink(x: System, a: TimerCores.Action)
    requires Linked(x) && Possible(x, Other(a))
    ensures Linked(Advance(x, Other(a)))
  {
    forall time: nat
      ensures Held(TimerCores.Do(x.core, a), time) == Held(x.core, time)
    {
      if a.RegisterTimer? {
        TimerCores.RegisterEnters(x.core, a.time, a.timer, time, ME);
      } else {
        TimerCores.DeregisterTakesOut(x.core, a.time, a.timer, time, ME);
      }
    }
  }

  /** A move of the core alone. */
  lemma CoreMoveKeepsExactlyWhen(x: System, n: System, a: TimerCores.Action)
    requires SystemInv(x) && TimerCores.Can(x.core, a)
    requires n.broker == x.broker && n.core == TimerCores.Do(x.core, a) && Linked(n) && InStep(n)
    ensures SystemInv(n) == !TimerCores.Late(x.core, a)
  {
    TimerCores.ActionKeepsCoreExactlyWhen(x.core, a);
  }

  lemma LoopKeepsInv(x: System, a: TimerCores.Action)
    requires SystemInv(x) && Possible(x, Loop(a))
    ensures SystemInv(Advance(x, Loop(a)))
  {
    var n := Advance(x, Loop(a));
    assert n.core.table == x.core.table && n.core.now == x.core.now;
    CoreMoveKeepsExactlyWhen(x, n, a);
  }

  lemma OtherKeepsExactlyWhen(x: System, a: TimerCores.Action)
    requires SystemInv(x) && Possible(x, Other(a))
    ensures SystemInv(Advance(x, Other(a))) == !Late(x, Other(a))
  {
    OtherKeepsLink(x, a);
    var n := Advance(x, Other(a));
    assert n.core.loop == x.core.loop && n.core.now == x.core.now;
    CoreMoveKeepsExactlyWhen(x, n, a);
  }

  lemma EnterKeepsLink(x: System)
    requires Linked(x) && Possible(x, Enter)
    ensures Linked(Advance(x, Enter))
  {
    var at := x.starting.value.time;
    forall time: nat
      ensures Held(Advance(x, Enter).core, time) == Held(x.core, time) + if at == time then 1 else 0
    {
      TimerCores.RegisterEnters(x.core, at, ME, time, ME);
    }
  }

  lemma EnterKeepsExactlyWhen(x: System)
    requires SystemInv(x) && Possible(x, Enter)
    ensures SystemInv(Advance(x, Enter)) == !Late(x, Enter)
  {
    EnterKeepsLink(x);
    var n := Advance(x, Enter);
    assert n.core.loop == x.core.loop && n.core.now == x.core.now;
    CoreMoveKeepsExactlyWhen(x, n, TimerCores.RegisterTimer(x.starting.value.time, ME));
  }

  lemma DeliverKeepsLink(x: System)
    requires Linked(x) && Possible(x, Deliver)
    ensures Linked(Advance(x, Deliver))
  {
    if x.core.timeline != multiset{} {
      var n, at := Advance(x, Deliver), Least(x.core.timeline);
      forall time: nat
        ensures Held(n.core, time) == if time == at then 0 else Held(x.core, time)
      {
        TimerCores.TimeoutHandsOverTheRow(x.core, time, ME);
      }
      assert x.broker.timer.registered[at] == Held(x.core, at) + if IsStarting(x, at) then 1 else 0;
    }
  }

  /** What TimeBrokers assumes: when the loop takes entries of the broker's timer, this is the step
      CoreTakes, whose time has come. */
  lemma DeliverIsCoreTakes(x: System)
    requires SystemInv(x) && Possible(x, Deliver) && x.core.timeline != multiset{}
    requires Held(x.core, Least(x.core.timeline)) > 0
    ensures var step := CoreTakes(Least(x.core.timeline));
      Enabled(x.broker, step) && Advance(x, Deliver).broker == Apply(x.broker, step)
  {
    var time := Least(x.core.timeline);
    assert x.broker.timer.registered[time] == Held(x.core, time) + if IsStarting(x, time) then 1 else 0;
  }

  /** And it is delivered exactly as often as the loop hands it over, which is as often as its row held
      it. */
  lemma DeliverHandsOverAll(x: System, time: nat)
    requires SystemInv(x) && Possible(x, Deliver)
    ensures var n, held := Advance(x, Deliver), Held(x.core, time);
      var due := x.core.timeline != multiset{} && time == Least(x.core.timeline);
      && TimerCores.HandedOver(n.core.delivered, time, ME)
         == TimerCores.HandedOver(x.core.delivered, time, ME) + (if due then held else 0)
      && (due && held > 0 ==> n.broker.deliveries == held && n.broker.phase.InFlight?)
      && (due && held == 0 ==> n.broker == x.broker)
  {
    TimerCores.TimeoutHandsOverTheRow(x.core, time, ME);
  }

  lemma DeliverKeepsBroker(x: System)
    requires SystemInv(x) && Possible(x, Deliver)
    ensures Inv(Advance(x, Deliver).broker) && InStep(Advance(x, Deliver))
  {
    if x.core.timeline != multiset{} && Held(x.core, Least(x.core.timeline)) > 0 {
      DeliverIsCoreTakes(x);
      StepKeepsInvExactlyWhen(x.broker, CoreTakes(Least(x.core.timeline)));
      DeliverTakesWhenFree(x);
    }
  }

  /** Nothing is taken while a start is under way. */
  lemma DeliverTakesWhenFree(x: System)
    requires SystemInv(x) && Possible(x, Deliver) && x.core.timeline != multiset{}
    requires Held(x.core, Least(x.core.timeline)) > 0
    ensures x.starting.None?
  {
    var time := Least(x.core.timeline);
    assert x.broker.timer.registered[time] == Held(x.core, time) + if IsStarting(x, time) then 1 else 0;
  }

  lemma DeliverKeepsInv(x: System)
    requires SystemInv(x) && Possible(x, Deliver)
    ensures SystemInv(Advance(x, Deliver))
  {
    DeliverKeepsLink(x);
    DeliverKeepsBroker(x);
    TimerCores.ActionKeepsCoreExactlyWhen(x.core, TimerCores.DoTimeout);
    assert Advance(x, Deliver).core == TimerCores.Do(x.core, TimerCores.DoTimeout);
  }

  /** What a step does to the timer, read off the time for which it starts it. */
  ghost predicate StartsFor(s: State, n: State, time: Option<nat>) {
    && n.now == s.now
    && match time
       case None => n.timer.registered == s.timer.registered
       case Some(t) => n.timer == DeferredTimers.StartedAt(s.timer, t)
  }

  lemma RegisterStarts(s: State, step: Step)
    requires Enabled(s, step) && step.Register?
    ensures StartsFor(s, Apply(s, step), StartTime(s, step))
  {
  }

  lemma ExpiryStarts(s: State)
    requires Enabled(s, BrokerExpires)
    ensures StartsFor(s, Apply(s, BrokerExpires), StartTime(s, BrokerExpires))
  {
  }

  lemma StartTimeIs(s: State, step: Step)
    requires Enabled(s, step) && !step.Tick? && !step.CoreTakes?
    ensures StartsFor(s, Apply(s, step), StartTime(s, step))
    ensures StartTime(s, step).Some? ==> step.Register? || step.BrokerExpires?
  {
    match step
    case Register(_, _, _, _) => RegisterStarts(s, step);
    case BrokerExpires => ExpiryStarts(s);
    case _ =>
  }

  lemma BrokerKeepsLink(x: System, step: Step)
    requires Linked(x) && Possible(x, Broker(step)) && (step.OtherBroker? || x.starting.None?)
    ensures Linked(Advance(x, Broker(step)))
  {
    StartTimeIs(x.broker, step);
    var n, timer := Advance(x, Broker(step)), x.broker.timer;
    if StartTime(x.broker, step).Some? && timer.active {
      forall time: nat
        ensures Held(n.core, time) == if time == timer.expiredTime then 0 else Held(x.core, time)
      {
        TimerCores.DeregisterTakesOut(x.core, timer.expiredTime, ME, time, ME);
      }
    }
  }

  lemma StartArms(s: State, step: Step)
    requires Inv(s) && Enabled(s, step) && !step.Tick? && !step.CoreTakes? && !Collides(s, step)
    ensures StartTime(s, step).Some? ==>
      var timer := Apply(s, step).timer;
      DeferredTimers.Armed(timer) && timer.expiredTime == StartTime(s, step).value
  {
    StartTimeIs(s, step);
    match StartTime(s, step)
    case None =>
    case Some(time) =>
      if step.Register? {
        LeastOfMore(s.books.timeline, time);
      }
      DeferredTimers.StartAtArms(s.timer, time);
  }

  /** A start takes the timer's old entry out; no other step of the broker reaches the core. */
  lemma BrokerCoreIs(x: System, step: Step)
    requires Possible(x, Broker(step))
    ensures var n := Advance(x, Broker(step));
      n.core == x.core
      || n.core == TimerCores.Do(x.core, TimerCores.DeregisterTimer(x.broker.timer.expiredTime, ME))
  {
  }

  lemma BrokerKeepsCore(x: System, step: Step)
    requires SystemInv(x) && Possible(x, Broker(step))
    ensures var n := Advance(x, Broker(step));
      && TimerCores.CoreInv(n.core) && TimerCores.CorePunctual(n.core)
      && n.core.loop == x.core.loop && n.core.now == x.core.now
  {
    var at := x.broker.timer.expiredTime;
    BrokerCoreIs(x, step);
    TimerCores.DeregisterKeepsCore(x.core, at, ME);
    TimerCores.OnlyTimeoutDelivers(x.core, TimerCores.DeregisterTimer(at, ME));
  }

  lemma BrokerKeepsStep(x: System, step: Step)
    requires SystemInv(x) && Possible(x, Broker(step)) && !Collides(x.broker, step)
    ensures InStep(Advance(x, Broker(step)))
  {
    StartTimeIs(x.broker, step);
    StartArms(x.broker, step);
    BrokerKeepsCore(x, step);
  }

  lemma BrokerKeepsExactlyWhen(x: System, step: Step)
    requires SystemInv(x) && Possible(x, Broker(step))
    ensures SystemInv(Advance(x, Broker(step))) == !Collides(x.broker, step)
  {
    StepKeepsInvExactlyWhen(x.broker, step);
    BrokerKeepsLink(x, step);
    BrokerKeepsCore(x, step);
    assert Advance(x, Broker(step)).broker == Apply(x.broker, step);
    if !Collides(x.broker, step) {
      BrokerKeepsStep(x, step);
    }
  }

  lemma ElapseKeepsInv(x: System, ms: nat)
    requires SystemInv(x)
    ensures SystemInv(Advance(x, Elapse(ms)))
  {
    StepKeepsInvExactlyWhen(x.broker, Tick(ms));
    TimerCores.ActionKeepsCoreExactlyWhen(x.core, TimerCores.Elapse(ms));
  }

  /** A move keeps the whole system in order exactly when it is neither a late registration nor a
      collision. */
  lemma MoveKeepsInvExactlyWhen(x: System, m: Move)
    requires SystemInv(x) && Possible(x, m)
    ensures SystemInv(Advance(x, m)) == !(Late(x, m) || Collision(x, m))
  {
    match m
    case Elapse(ms) => ElapseKeepsInv(x, ms);
    case Loop(a) => LoopKeepsInv(x, a);
    case Other(_) => OtherKeepsExactlyWhen(x, m.action);
    case Deliver => DeliverKeepsInv(x);
    case Broker(step) => BrokerKeepsExactlyWhen(x, step);
    case Enter => EnterKeepsExactlyWhen(x);
  }

  // ---------------------------------------------------------------------------------------------
  // Whole runs
  // ---------------------------------------------------------------------------------------------

  ghost predicate Smooth(x: System, moves: seq<Move>)
    requires Moves(x, moves)
    decreases |moves|
  {
    moves == [] || (!Late(x, moves[0]) && !Collision(x, moves[0]) && Smooth(Advance(x, moves[0]), moves[1..]))
  }

  lemma {:induction false} SmoothKeepsInv(x: System, moves: seq<Move>)
    requires SystemInv(x) && Moves(x, moves) && Smooth(x, moves)
    ensures SystemInv(Ends(x, moves))
    decreases |moves|
  {
    if moves == [] {
    } else {
      MoveKeepsInvExactlyWhen(x, moves[0]);
      SmoothKeepsInv(Advance(x, moves[0]), moves[1..]);
    }
  }

  /** Over every run of broker, timer and timer thread without a late registration and without a
      collision, nothing fires before its deadline, and each registration is exactly one of pending,
      fired once and cancelled. */
  lemma SystemFiresOnTime(moves: seq<Move>)
    requires Moves(IDLE_SYSTEM, moves) && Smooth(IDLE_SYSTEM, moves)
    ensures var x := Ends(IDLE_SYSTEM, moves);
      && SystemInv(x)
      && Punctual(x.broker.books) && TimerCores.CorePunctual(x.core)
      && Disjoint(x.broker.books) && Complete(x.broker.books)
  {
    SmoothKeepsInv(IDLE_SYSTEM, moves);
  }

  /** And nothing pending is slept through: while the loop waits and is not to start over, its wait ends
      by the time the first pending timer is due, give or take the lag of the reading it began with. */
  lemma PendingIsAwaited(x: System)
    requires SystemInv(x) && x.broker.books.infos != map[] && x.starting.None?
    requires x.core.loop.Waiting? && !x.core.resetTimer
    ensures var loop := x.core.loop;
      forall h :: h in x.broker.books.infos ==>
        loop.deadline <= x.core.now || loop.deadline <= x.broker.books.infos[h].timestamp + loop.lag
  {
    PendingMeansArmed(x.broker);
    var at := x.broker.timer.expiredTime;
    assert x.broker.timer.registered[at] == Held(x.core, at) + if IsStarting(x, at) then 1 else 0;
    assert at in x.core.timeline;
  }
}

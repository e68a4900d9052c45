/** common/src/timer/core/timer_core.cpp: the thread that hands due timers over.  Its wait and the
    DoTimeout that follows take the mutex separately, so a registration may come between them.  The
    duration of the wait is computed from one reading of the clock and starts at a later one.

    TimeBrokers assumes of TimerCore that it takes an entry only when its time has come; this module
    says exactly when that is so. */
module TimerCores {
  import opened TimeBrokers

  type TimerId = nat

  const EXPIRATION_MS: nat := 12 * 60 * 1000

  /** The loop: before its next wait, inside it, or between its time-out and DoTimeout's mutex.  `idle`
      says that the wait began with nothing in the timeline, and `lag` how long after the reading that
      its duration comes from. */
  datatype Loop = Starting | Waiting(deadline: nat, idle: bool, lag: nat) | TimedOut(idle: bool)

  datatype Delivery = Delivery(timer: TimerId, time: nat, at: nat)

  datatype Core = Core(
    timeline: multiset<nat>,
    table: map<nat, seq<TimerId>>,   // registeredTimers_
    resetTimer: bool,
    loop: Loop,
    now: nat,
    delivered: seq<Delivery>)        // history

  datatype Action =
    | Elapse(ms: nat)
    | RegisterTimer(time: nat, timer: TimerId)
    | DeregisterTimer(time: nat, timer: TimerId)
    | BeginWait(reading: nat)
    | Wake
    | TimeOut
    | DoTimeout

  const START := Core(multiset{}, map[], false, Starting, 0, [])

  predicate Can(c: Core, a: Action) {
    match a
    case BeginWait(reading) => c.loop.Starting? && reading <= c.now
    case Wake => c.loop.Waiting?
    case TimeOut => c.loop.Waiting? && c.loop.deadline <= c.now
    case DoTimeout => c.loop.TimedOut?
    case _ => true
  }

  function Without(timers: seq<TimerId>, timer: TimerId): (r: seq<TimerId>)
    ensures timer !in r && forall t :: t != timer ==> multiset(r)[t] == multiset(timers)[t]
  {
    if timers == [] then []
    else
      assert timers == [timers[0]] + timers[1..];
      if timers[0] == timer then Without(timers[1..], timer)
      else [timers[0]] + Without(timers[1..], timer)
  }

  function Deliveries(timers: seq<TimerId>, time: nat, at: nat): (r: seq<Delivery>)
    ensures |r| == |timers| && forall i :: 0 <= i < |r| ==> r[i] == Delivery(timers[i], time, at)
  {
    seq(|timers|, i requires 0 <= i < |timers| => Delivery(timers[i], time, at))
  }

  /** The wait's predicate consumes the reset flag; when it was set the loop starts over. */
  function Consumed(c: Core, otherwise: Loop): Core {
    if c.resetTimer then c.(resetTimer := false, loop := Starting) else c.(loop := otherwise)
  }

  /** The time to the top, or twelve minutes. */
  ghost function Remaining(timeline: multiset<nat>, reading: nat): nat {
    if timeline == multiset{} then EXPIRATION_MS
    else if Least(timeline) > reading then Least(timeline) - reading
    else 0
  }

  ghost function Do(c: Core, a: Action): Core
    requires Can(c, a)
  {
    match a
    case Elapse(ms) => c.(now := c.now + ms)
    case RegisterTimer(time, timer) =>
      if time in c.table then c.(table := c.table[time := c.table[time] + [timer]])
      else
        var timeline := c.timeline + multiset{time};
        c.(timeline := timeline, table := c.table[time := [timer]],
           resetTimer := c.resetTimer || time == Least(timeline))
    case DeregisterTimer(time, timer) =>
      if time !in c.table then c
      else if Without(c.table[time], timer) == [] then c.(table := c.table - {time})
      else c.(table := c.table[time := Without(c.table[time], timer)])
    case BeginWait(reading) =>
      Consumed(c, Waiting(c.now + Remaining(c.timeline, reading), c.timeline == multiset{}, c.now - reading))
    case Wake => Consumed(c, c.loop)
    case TimeOut => Consumed(c, TimedOut(c.loop.idle))
    case DoTimeout =>
      if c.timeline == multiset{} then c.(loop := Starting)
      else
        var time := Least(c.timeline);
        var popped := c.(timeline := c.timeline - multiset{time}, loop := Starting);
        if time !in c.table then popped
        else popped.(table := c.table - {time}, delivered := c.delivered + Deliveries(c.table[time], time, c.now))
  }

  ghost predicate Acts(c: Core, actions: seq<Action>)
    decreases |actions|
  {
    actions == [] || (Can(c, actions[0]) && Acts(Do(c, actions[0]), actions[1..]))
  }

  ghost function Ends(c: Core, actions: seq<Action>): Core
    requires Acts(c, actions)
    decreases |actions|
  {
    if actions == [] then c else Ends(Do(c, actions[0]), actions[1..])
  }

  // ---------------------------------------------------------------------------------------------
  // The invariant
  // ---------------------------------------------------------------------------------------------

  /** Every table entry has its time in the timeline, so its turn comes; a waiting loop that has not
      been told to start over wakes when the top is due, not earlier, and later by the lag of its
      reading at most; and after the time-out the top, if any, is due. */
  ghost predicate CoreInv(c: Core) {
    && (forall time :: time in c.table ==> time in c.timeline)
    && (c.loop.Waiting? && !c.resetTimer ==>
         if c.loop.idle then c.timeline == multiset{}
         else
           && c.timeline != multiset{} && Least(c.timeline) <= c.loop.deadline
           && (c.loop.deadline == Least(c.timeline) + c.loop.lag || c.loop.deadline <= c.now))
    && (c.loop.TimedOut? && c.timeline != multiset{} ==> Least(c.timeline) <= c.now)
  }

  ghost predicate CorePunctual(c: Core) {
    forall i :: 0 <= i < |c.delivered| ==> c.delivered[i].time <= c.delivered[i].at
  }

  /** The one action that breaks it: the first registration of a future time after a wait on an empty
      timeline has timed out and before DoTimeout takes the mutex. */
  ghost predicate Late(c: Core, a: Action) {
    && a.RegisterTimer? && c.loop.TimedOut? && c.timeline == multiset{} && c.now < a.time
  }

  lemma RegisterKeepsCore(c: Core, time: nat, timer: TimerId)
    requires CoreInv(c)
    ensures CoreInv(Do(c, RegisterTimer(time, timer))) <==> !Late(c, RegisterTimer(time, timer))
  {
    if time !in c.table {
      LeastOfMore(c.timeline, time);
      var n := Do(c, RegisterTimer(time, timer));
      assert n.timeline != multiset{} by { assert time in n.timeline; }
    }
  }

  lemma TimeoutKeepsCore(c: Core)
    requires CoreInv(c) && CorePunctual(c) && c.loop.TimedOut?
    ensures CoreInv(Do(c, DoTimeout)) && CorePunctual(Do(c, DoTimeout))
  {
    if c.timeline != multiset{} {
      var n, time := Do(c, DoTimeout), Least(c.timeline);
      assert forall t :: t in c.timeline && t != time ==> t in n.timeline;
    }
  }

  lemma DeregisterKeepsCore(c: Core, time: nat, timer: TimerId)
    requires CoreInv(c)
    ensures CoreInv(Do(c, DeregisterTimer(time, timer)))
    ensures var n := Do(c, DeregisterTimer(time, timer)); n.loop == c.loop && n.now == c.now
  {
    var n := Do(c, DeregisterTimer(time, timer));
    assert n.timeline == c.timeline && n.loop == c.loop && n.resetTimer == c.resetTimer && n.now == c.now;
  }

  lemma ElapseKeepsCore(c: Core, ms: nat)
    requires CoreInv(c)
    ensures CoreInv(c.(now := c.now + ms))
  {
  }

  lemma LoopKeepsCore(c: Core, a: Action)
    requires CoreInv(c) && Can(c, a) && (a.BeginWait? || a.Wake? || a.TimeOut?)
    ensures CoreInv(Do(c, a))
  {
    assert Do(c, a).table == c.table && Do(c, a).timeline == c.timeline;
  }

  lemma OnlyTimeoutDelivers(c: Core, a: Action)
    requires Can(c, a) && !a.DoTimeout?
    ensures Do(c, a).delivered == c.delivered
  {
  }

  /** An action keeps the invariant exactly when it is not a late registration, and what the loop
      delivers is due. */
  lemma ActionKeepsCoreExactlyWhen(c: Core, a: Action)
    requires CoreInv(c) && CorePunctual(c) && Can(c, a)
    ensures CoreInv(Do(c, a)) == !Late(c, a)
    ensures CorePunctual(Do(c, a))
  {
    if !a.DoTimeout? {
      OnlyTimeoutDelivers(c, a);
    }
    match a
    case RegisterTimer(time, timer) => RegisterKeepsCore(c, time, timer);
    case DeregisterTimer(time, timer) => DeregisterKeepsCore(c, time, timer);
    case DoTimeout => TimeoutKeepsCore(c);
    case Elapse(ms) => ElapseKeepsCore(c, ms);
    case _ => LoopKeepsCore(c, a);
  }

  /** What that means for the deliveries: the loop can hand a timer over too early by its very next
      time-out exactly when the action was a late registration. */
  lemma FiresEarlyNextExactlyWhen(c: Core, a: Action)
    requires CoreInv(c) && CorePunctual(c) && Can(c, a)
    ensures var n := Do(c, a); Late(c, a) <==> Can(n, DoTimeout) && !CorePunctual(Do(n, DoTimeout))
  {
    ActionKeepsCoreExactlyWhen(c, a);
    var n := Do(c, a);
    if Late(c, a) {
      LeastOfMore(c.timeline, a.time);
      assert n.timeline == multiset{a.time} && Least(n.timeline) == a.time;
      assert a.time in n.table && n.table[a.time] == [a.timer];
      var d := Do(n, DoTimeout).delivered;
      assert d[|c.delivered|] == Delivery(a.timer, a.time, c.now);
    } else if Can(n, DoTimeout) {
      TimeoutKeepsCore(n);
    }
  }

  ghost predicate NeverLate(c: Core, actions: seq<Action>)
    requires Acts(c, actions)
    decreases |actions|
  {
    actions == [] || (!Late(c, actions[0]) && NeverLate(Do(c, actions[0]), actions[1..]))
  }

  /** Over every run without a late registration, no timer is handed over before its time. */
  lemma {:induction false} RunIsPunctual(c: Core, actions: seq<Action>)
    requires CoreInv(c) && CorePunctual(c) && Acts(c, actions) && NeverLate(c, actions)
    ensures CoreInv(Ends(c, actions)) && CorePunctual(Ends(c, actions))
    decreases |actions|
  {
    if actions == [] {
    } else {
      ActionKeepsCoreExactlyWhen(c, actions[0]);
      RunIsPunctual(Do(c, actions[0]), actions[1..]);
    }
  }

  lemma ActsCons(c: Core, a: Action, rest: seq<Action>)
    requires Can(c, a) && Acts(Do(c, a), rest)
    ensures Acts(c, [a] + rest) && Ends(c, [a] + rest) == Ends(Do(c, a), rest)
  {
    assert ([a] + rest)[1..] == rest;
  }

  /** With one it is false: after twelve idle minutes a timer registered for any future time is handed
      over at once. */
  lemma LateRegistrationFiresEarly(ahead: nat) returns (actions: seq<Action>)
    requires ahead > 0
    ensures Acts(START, actions)
    ensures var e := Ends(START, actions);
      e.delivered == [Delivery(7, EXPIRATION_MS + ahead, EXPIRATION_MS)]
  {
    var time := EXPIRATION_MS + ahead;
    var c1 := START.(loop := Waiting(EXPIRATION_MS, true, 0));
    var c2 := c1.(now := EXPIRATION_MS);
    var c3 := c2.(loop := TimedOut(true));
    var c4 := Do(c3, RegisterTimer(time, 7));
    assert c4.timeline == multiset{time} && c4.table == map[time := [7]];
    var c5 := Do(c4, DoTimeout);
    assert Least(c4.timeline) == time;
    assert c5.delivered == [] + [Delivery(7, time, EXPIRATION_MS)];
    ActsCons(c4, DoTimeout, []);
    actions := [DoTimeout] + [];
    ActsCons(c3, RegisterTimer(time, 7), actions);
    actions := [RegisterTimer(time, 7)] + actions;
    ActsCons(c2, TimeOut, actions);
    actions := [TimeOut] + actions;
    ActsCons(c1, Elapse(EXPIRATION_MS), actions);
    actions := [Elapse(EXPIRATION_MS)] + actions;
    ActsCons(START, BeginWait(0), actions);
    actions := [BeginWait(0)] + actions;
  }

  // ---------------------------------------------------------------------------------------------
  // Nothing registered is lost
  // ---------------------------------------------------------------------------------------------

  /** How often the table holds this timer under this time. */
  function InTable(c: Core, time: nat, timer: TimerId): nat {
    if time in c.table then multiset(c.table[time])[timer] else 0
  }

  /** How often it has been handed over for it. */
  function HandedOver(delivered: seq<Delivery>, time: nat, timer: TimerId): nat {
    if delivered == [] then 0
    else
      var last := delivered[|delivered| - 1];
      HandedOver(delivered[..|delivered| - 1], time, timer) + if last.time == time && last.timer == timer then 1 else 0
  }

  /** How many of these actions register it for that time. */
  function Registrations(actions: seq<Action>, time: nat, timer: TimerId): nat {
    if actions == [] then 0
    else
      (if actions[0] == RegisterTimer(time, timer) then 1 else 0) + Registrations(actions[1..], time, timer)
  }

  /** How many entries the deregistrations of this run take out. */
  ghost function Deregistrations(c: Core, actions: seq<Action>, time: nat, timer: TimerId): nat
    requires Acts(c, actions)
    decreases |actions|
  {
    if actions == [] then 0
    else
      (if actions[0] == DeregisterTimer(time, timer) then InTable(c, time, timer) else 0)
      + Deregistrations(Do(c, actions[0]), actions[1..], time, timer)
  }

  lemma HandedOverNext(delivered: seq<Delivery>, last: Delivery, time: nat, timer: TimerId)
    ensures HandedOver(delivered + [last], time, timer)
      == HandedOver(delivered, time, timer) + if last.time == time && last.timer == timer then 1 else 0
  {
    assert (delivered + [last])[..|delivered|] == delivered;
  }

  lemma OneMoreDelivery(delivered: seq<Delivery>, before: seq<TimerId>, last: TimerId, at: nat, now: nat)
    ensures delivered + Deliveries(before + [last], at, now)
      == delivered + Deliveries(before, at, now) + [Delivery(last, at, now)]
  {
  }

  lemma {:induction false} HandedOverMore(delivered: seq<Delivery>, timers: seq<TimerId>, at: nat, now: nat,
                                          time: nat, timer: TimerId)
    ensures HandedOver(delivered + Deliveries(timers, at, now), time, timer)
      == HandedOver(delivered, time, timer) + if at == time then multiset(timers)[timer] else 0
    decreases |timers|
  {
    if timers == [] {
      assert delivered + Deliveries(timers, at, now) == delivered;
    } else {
      var before, last := timers[..|timers| - 1], timers[|timers| - 1];
      HandedOverMore(delivered, before, at, now, time, timer);
      HandedOverNext(delivered + Deliveries(before, at, now), Delivery(last, at, now), time, timer);
      OneMoreDelivery(delivered, before, last, at, now);
      assert timers == before + [last];
    }
  }

  lemma WithoutCounts(timers: seq<TimerId>, gone: TimerId, timer: TimerId)
    ensures multiset(Without(timers, gone))[timer] == if timer == gone then 0 else multiset(timers)[timer]
    ensures Without(timers, gone) == [] && timer != gone ==> multiset(timers)[timer] == 0
  {
    if timer == gone {
      assert timer !in multiset(Without(timers, gone));
    } else if Without(timers, gone) == [] {
      assert timer !in multiset(Without(timers, gone));
    }
  }

  lemma RegisterEnters(c: Core, at: nat, who: TimerId, time: nat, timer: TimerId)
    ensures InTable(Do(c, RegisterTimer(at, who)), time, timer)
      == InTable(c, time, timer) + if at == time && who == timer then 1 else 0
  {
    if at in c.table {
      assert multiset(c.table[at] + [who]) == multiset(c.table[at]) + multiset{who};
    }
  }

  lemma DeregisterTakesOut(c: Core, at: nat, who: TimerId, time: nat, timer: TimerId)
    ensures InTable(Do(c, DeregisterTimer(at, who)), time, timer)
      == if at == time && who == timer then 0 else InTable(c, time, timer)
  {
    if at in c.table {
      WithoutCounts(c.table[at], who, timer);
    }
  }

  /** A time-out hands over exactly what the row of the top held, and empties that row. */
  lemma TimeoutHandsOverTheRow(c: Core, time: nat, timer: TimerId)
    requires Can(c, DoTimeout)
    ensures var n, due := Do(c, DoTimeout), c.timeline != multiset{} && time == Least(c.timeline);
      && HandedOver(n.delivered, time, timer)
         == HandedOver(c.delivered, time, timer) + (if due then InTable(c, time, timer) else 0)
      && InTable(n, time, timer) == if due then 0 else InTable(c, time, timer)
  {
    if c.timeline != multiset{} && Least(c.timeline) in c.table {
      var top := Least(c.timeline);
      HandedOverMore(c.delivered, c.table[top], top, c.now, time, timer);
    }
  }

  lemma ActionBalances(c: Core, a: Action, time: nat, timer: TimerId)
    requires Can(c, a)
    ensures var n := Do(c, a);
      InTable(c, time, timer) + HandedOver(c.delivered, time, timer)
      + (if a == RegisterTimer(time, timer) then 1 else 0)
      == InTable(n, time, timer) + HandedOver(n.delivered, time, timer)
         + if a == DeregisterTimer(time, timer) then InTable(c, time, timer) else 0
  {
    if !a.DoTimeout? {
      OnlyTimeoutDelivers(c, a);
    }
    match a
    case RegisterTimer(at, who) => RegisterEnters(c, at, who, time, timer);
    case DeregisterTimer(at, who) => DeregisterTakesOut(c, at, who, time, timer);
    case DoTimeout => TimeoutHandsOverTheRow(c, time, timer);
    case _ => assert Do(c, a).table == c.table;
  }

  /** Over every run, late registrations or not, for every timer and time: what was there and what was
      registered is still in the table, has been handed over, or was deregistered. */
  lemma {:induction false} EveryEntryIsAccountedFor(c: Core, actions: seq<Action>, time: nat, timer: TimerId)
    requires Acts(c, actions)
    ensures var e := Ends(c, actions);
      InTable(c, time, timer) + HandedOver(c.delivered, time, timer) + Registrations(actions, time, timer)
      == InTable(e, time, timer) + HandedOver(e.delivered, time, timer)
         + Deregistrations(c, actions, time, timer)
    decreases |actions|
  {
    if actions == [] {
    } else {
      ActionBalances(c, actions[0], time, timer);
      EveryEntryIsAccountedFor(Do(c, actions[0]), actions[1..], time, timer);
    }
  }

  // ---------------------------------------------------------------------------------------------
  // The loop goes on
  // ---------------------------------------------------------------------------------------------

  /** A request to start over is honoured once, by the next evaluation of the wait's predicate; without
      one the wait goes on to its time-out; and behind DoTimeout the loop starts again. */
  lemma LoopGoesOn(c: Core, a: Action)
    requires Can(c, a)
    ensures var n := Do(c, a);
      match a
      case BeginWait(_) =>
        && !n.resetTimer && n.table == c.table && n.timeline == c.timeline
        && (if c.resetTimer then n.loop.Starting?
            else n.loop.Waiting? && (n.loop.idle <==> c.timeline == multiset{}))
      case Wake => !n.resetTimer && n.loop == if c.resetTimer then Starting else c.loop
      case TimeOut => !n.resetTimer && n.loop == if c.resetTimer then Starting else TimedOut(c.loop.idle)
      case DoTimeout => n.loop.Starting? && n.resetTimer == c.resetTimer
      case _ => n.loop == c.loop
  {
  }

  /** The loop's way through one wait, undisturbed. */
  function OneRound(now: nat, wait: nat): seq<Action> {
    [BeginWait(now), Elapse(wait), TimeOut, DoTimeout]
  }

  lemma Spelled(now: nat, wait: nat)
    ensures [BeginWait(now)] + [Elapse(wait), TimeOut, DoTimeout] == OneRound(now, wait)
    ensures [Elapse(wait)] + [TimeOut, DoTimeout] == [Elapse(wait), TimeOut, DoTimeout]
    ensures [TimeOut] + [DoTimeout] == [TimeOut, DoTimeout] && [DoTimeout] + [] == [DoTimeout]
  {
  }

  function TimedOutAfter(c: Core, wait: nat): Core {
    c.(now := c.now + wait, loop := TimedOut(false))
  }

  lemma WaitTimesOut(c: Core)
    requires c.loop.Starting? && !c.resetTimer && c.timeline != multiset{}
    ensures var wait := Remaining(c.timeline, c.now);
      var c1 := c.(loop := Waiting(c.now + wait, false, 0));
      var c2 := c1.(now := c.now + wait);
      && Do(c, BeginWait(c.now)) == c1 && Do(c1, Elapse(wait)) == c2
      && Can(c2, TimeOut) && Do(c2, TimeOut) == TimedOutAfter(c, wait)
  {
  }

  lemma TopRowGoes(c: Core)
    requires c.loop.TimedOut? && c.timeline != multiset{}
    ensures var top := Least(c.timeline);
      Do(c, DoTimeout) == c.(
        loop := Starting, timeline := c.timeline - multiset{top}, table := c.table - {top},
        delivered := c.delivered + Deliveries(if top in c.table then c.table[top] else [], top, c.now))
  {
    assert c.delivered + [] == c.delivered;
    assert Least(c.timeline) !in c.table ==> c.table - {Least(c.timeline)} == c.table;
  }

  /** Whatever is registered: a loop that reads the timeline now and is not disturbed hands the top row over
      when its time comes, or at once when that has passed. */
  lemma TopIsHandedOver(c: Core)
    requires c.loop.Starting? && !c.resetTimer && c.timeline != multiset{}
    ensures var top := Least(c.timeline);
      var wait := Remaining(c.timeline, c.now);
      && c.now + wait == (if top > c.now then top else c.now)
      && Acts(c, OneRound(c.now, wait))
      && Ends(c, OneRound(c.now, wait)) == c.(
           now := c.now + wait, timeline := c.timeline - multiset{top}, table := c.table - {top},
           delivered := c.delivered + Deliveries(if top in c.table then c.table[top] else [], top, c.now + wait))
  {
    var wait := Remaining(c.timeline, c.now);
    WaitTimesOut(c);
    TopRowGoes(TimedOutAfter(c, wait));
    Spelled(c.now, wait);
    ActsCons(TimedOutAfter(c, wait), DoTimeout, []);
    ActsCons(c.(loop := Waiting(c.now + wait, false, 0), now := c.now + wait), TimeOut, [DoTimeout]);
    ActsCons(c.(loop := Waiting(c.now + wait, false, 0)), Elapse(wait), [TimeOut, DoTimeout]);
    ActsCons(c, BeginWait(c.now), [Elapse(wait), TimeOut, DoTimeout]);
  }

  /** Without takes out that timer and keeps the order of the others. */
  lemma {:induction false} WithoutAppends(a: seq<TimerId>, b: seq<TimerId>, timer: TimerId)
    ensures Without(a + b, timer) == Without(a, timer) + Without(b, timer)
  {
    if a == [] {
      assert a + b == b;
    } else {
      assert (a + b)[1..] == a[1..] + b;
      WithoutAppends(a[1..], b, timer);
    }
  }

  // ---------------------------------------------------------------------------------------------
  // The class
  // ---------------------------------------------------------------------------------------------

  class TimerCore {
    var timeline: multiset<nat>
    var registeredTimers: map<nat, seq<TimerId>>
    var resetTimer: bool

    /** The fields are those of the state c. */
    ghost predicate Shows(c: Core)
      reads this
    {
      timeline == c.timeline && registeredTimers == c.table && resetTimer == c.resetTimer
    }

    constructor ()
      ensures Shows(START)
    {
      timeline, registeredTimers, resetTimer := multiset{}, map[], false;
    }

    method Top() returns (top: nat)
      requires timeline != multiset{}
      ensures top == Least(timeline)
    {
      assert IsLeast(timeline, Least(timeline));
      top :| top in timeline && forall y :: y in timeline ==> top <= y;
    }

    method RegisterTimer(time: nat, timer: TimerId, ghost c: Core)
      requires Shows(c)
      modifies this
      ensures Shows(Do(c, Action.RegisterTimer(time, timer)))
      ensures registeredTimers == old(registeredTimers)[time :=
        (if time in old(registeredTimers) then old(registeredTimers)[time] else []) + [timer]]
      ensures timeline == old(timeline) + if time in old(registeredTimers) then multiset{} else multiset{time}
      ensures resetTimer <==>
        old(resetTimer) || (time !in old(registeredTimers) && forall t :: t in old(timeline) ==> time <= t)
    {
      if time !in registeredTimers {
        timeline := timeline + multiset{time};
        LeastOfMore(old(timeline), time);
        var top := Top();
        if time == top {
          resetTimer := true;
        }
        registeredTimers := registeredTimers[time := []];
      }
      assert [] + [timer] == [timer];
      registeredTimers := registeredTimers[time := registeredTimers[time] + [timer]];
    }

    method DeregisterTimer(time: nat, timer: TimerId, ghost c: Core)
      requires Shows(c)
      modifies this`registeredTimers
      ensures Shows(Do(c, Action.DeregisterTimer(time, timer)))
      ensures time in registeredTimers ==> timer !in registeredTimers[time] && registeredTimers[time] != []
      ensures registeredTimers - {time} == old(registeredTimers) - {time}
    {
      if time in registeredTimers {
        var timers := Without(registeredTimers[time], timer);
        registeredTimers := registeredTimers[time := timers];
        if timers == [] {
          registeredTimers := registeredTimers - {time};
        }
      }
    }

    /** The wait's duration, from a clock reading: a wait that begins with it ends after it, unless the
        loop has been told to start over; and it is never longer than the time to any entry still to
        come. */
    method GetNextExpirationTimeUnlocked(reading: nat, ghost c: Core) returns (ms: nat)
      requires Shows(c) && Can(c, BeginWait(reading))
      ensures Do(c, BeginWait(reading)).loop ==
        if c.resetTimer then Starting else Waiting(c.now + ms, timeline == multiset{}, c.now - reading)
      ensures forall time :: time in timeline ==> ms == 0 || reading + ms <= time
      ensures if timeline == multiset{} then ms == 720_000
        else exists time :: time in timeline && ms == if time > reading then time - reading else 0
    {
      ms := EXPIRATION_MS;
      if timeline != multiset{} {
        var top := Top();
        ms := if top > reading then top - reading else 0;
      }
    }

    /** The locked block of DoTimeout; the caller then delivers to `timers` in order. */
    method DoTimeout(ghost c: Core) returns (ghost time: nat, timers: seq<TimerId>)
      requires Shows(c) && c.loop.TimedOut?
      modifies this
      ensures Shows(Do(c, Action.DoTimeout))
      ensures Do(c, Action.DoTimeout).delivered == c.delivered + Deliveries(timers, time, c.now)
      ensures old(timeline) == multiset{} ==>
        timers == [] && timeline == multiset{} && registeredTimers == old(registeredTimers)
      ensures old(timeline) != multiset{} ==>
        && IsLeast(old(timeline), time)
        && timeline == old(timeline) - multiset{time} && registeredTimers == old(registeredTimers) - {time}
        && timers == if time in old(registeredTimers) then old(registeredTimers)[time] else []
    {
      time, timers := 0, [];
      if timeline == multiset{} {
        return;
      }
      var timestamp := Top();
      time := timestamp;
      timeline := timeline - multiset{timestamp};
      if timestamp !in registeredTimers {
        return;
      }
      timers := registeredTimers[timestamp];
      registeredTimers := registeredTimers - {timestamp};
    }
  }
}

/** What a collision leads to.  It leaves TimeBrokers' timer with one entry too many, for a time that is
    due, and every restart hands that surplus on until no due time is left to expire: then the next timer
    to be registered fires early. */
module TimeBrokerCollisions {
  import opened TimerHandles
  import opened DeferredTimers
  import opened TimeBrokers

  // ---------------------------------------------------------------------------------------------
  // A handle to be had
  // ---------------------------------------------------------------------------------------------

  /** The search meets x before the previous handle. */
  predicate Free(b: Books, x: nat)
    requires b.counter <= MAX_HANDLE && b.preHandle <= MAX_HANDLE
  {
    && IsHandle(x) && x !in b.infos
    && (b.preHandle == 0 || Distance(b.counter, x) < Distance(b.counter, b.preHandle))
  }

  lemma Grants(b: Books, x: nat) returns (h: nat)
    requires HandlesOk(b) && Free(b, x)
    ensures Stops(b.infos.Keys, b.preHandle, b.counter, h) && h != b.preHandle && h !in b.infos
    decreases Distance(b.counter, x)
  {
    if y :| IsHandle(y) && Distance(b.counter, y) < Distance(b.counter, x) && y !in b.infos {
      h := Grants(b, y);
    } else {
      h := x;
    }
  }

  // ---------------------------------------------------------------------------------------------
  // One entry too many
  // ---------------------------------------------------------------------------------------------

  ghost predicate HasDue(m: multiset<nat>, now: nat) {
    exists x :: x in m && x <= now
  }

  ghost predicate TwoDue(m: multiset<nat>, now: nat) {
    exists x :: x in m && x <= now && (m[x] >= 2 || HasDue(m[x := 0], now))
  }

  ghost predicate NoneDue(s: State) {
    s.books.timeline == multiset{} || Least(s.books.timeline) > s.now
  }

  /** A delivery is on its way, or can be taken, that no due time of the timeline accounts for. */
  ghost predicate Surplus(s: State) {
    match s.phase
    case Idle =>
      && s.deliveries == 0 && HasDue(s.timer.registered, s.now)
      && (NoneDue(s) || (s.timer.active && TwoDue(s.timer.registered, s.now)))
    case InFlight =>
      && s.deliveries >= 1
      && (NoneDue(s) || (s.timer.active && (s.deliveries >= 2 || HasDue(s.timer.registered, s.now))))
    case Calling => false
  }

  /** TimerCore takes a due entry. */
  lemma TakeKeepsSurplus(s: State) returns (x: nat)
    requires Surplus(s) && s.phase.Idle?
    ensures Enabled(s, CoreTakes(x))
    ensures var n := Apply(s, CoreTakes(x)); Surplus(n) && n.phase.InFlight? && n.books == s.books
  {
    if NoneDue(s) {
      x :| x in s.timer.registered && x <= s.now;
    } else {
      x :| x in s.timer.registered && x <= s.now
        && (s.timer.registered[x] >= 2 || HasDue(s.timer.registered[x := 0], s.now));
    }
    assert s.timer.registered[x] - s.timer.registered[x] == 0;
  }

  /** The state behind Timer::TimerExpired. */
  ghost function Fired(s: State): State
    requires s.deliveries >= 1
  {
    s.(timer := s.timer.(active := false), deliveries := s.deliveries - 1, phase := Calling)
  }

  lemma FiresIs(s: State)
    requires s.phase.InFlight? && s.deliveries >= 1 && s.timer.active
    ensures Enabled(s, TimerFires) && Apply(s, TimerFires) == Fired(s)
  {
  }

  lemma DueStays(m: multiset<nat>, y: nat, now: nat)
    requires y <= now
    ensures HasDue(m + multiset{y}, now)
    ensures HasDue(m, now) ==> TwoDue(m + multiset{y}, now)
  {
    var more := m + multiset{y};
    assert y in more;
    if x :| x in m && x <= now {
      if x == y {
        assert more[y] >= 2;
      } else {
        assert x in more[y := 0];
      }
    }
  }

  lemma DueGrows(m: multiset<nat>, y: nat, now: nat)
    requires HasDue(m, now)
    ensures HasDue(m + multiset{y}, now)
  {
    var x :| x in m && x <= now;
    assert x in m + multiset{y};
  }

  /** The restart behind an expiry whose timer is off. */
  lemma RestartAdds(timer: TimerState, timeline: multiset<nat>, force: bool)
    requires !timer.active && timeline != multiset{}
    ensures var n := Restarted(timer, timeline, force);
      n.active && n.registered == timer.registered + multiset{Least(timeline)}
  {
  }

  /** One expiry of a due time keeps the surplus. */
  lemma ExpiryKeepsSurplus(s: State)
    requires Surplus(s) && s.phase.InFlight? && !NoneDue(s)
    ensures var n := ExpiredTop(Fired(s));
      Surplus(n) && n.books == TimeBrokers.Expired(s.books, Least(s.books.timeline), s.now)
  {
    var f, top := Fired(s), Least(s.books.timeline);
    var n, rest := ExpiredTop(f), s.books.timeline - multiset{top};
    assert n.books.timeline == rest;
    if rest != multiset{} {
      RestartAdds(f.timer, rest, top != 0);
      if Least(rest) <= s.now {
        DueStays(s.timer.registered, Least(rest), s.now);
      }
      if HasDue(s.timer.registered, s.now) {
        DueGrows(s.timer.registered, Least(rest), s.now);
      }
    }
  }

  lemma ExpiryKeepsFree(b: Books, time: nat, now: nat, x: nat)
    requires BooksOk(b) && Free(b, x)
    ensures BooksOk(TimeBrokers.Expired(b, time, now)) && Free(TimeBrokers.Expired(b, time, now), x)
  {
    ExpiredKeepsBooks(b, time, now);
    ExpiredInfos(b, time, now);
  }

  // ---------------------------------------------------------------------------------------------
  // The early callback
  // ---------------------------------------------------------------------------------------------

  lemma NewIsDue(b: Books, time: nat, callback: nat, handle: nat) returns (i: nat)
    requires BooksOk(b) && IsHandle(handle) && handle !in b.infos
    ensures var due := Due(Registered(b, time, callback, handle), time);
      i < |due| && due[i].timestamp == time
  {
    var r := Registered(b, time, callback, handle);
    RegisteredKeepsBooks(b, time, callback, handle);
    DueExactly(r, time);
    assert r.infos[handle] in r.infos.Values;
    i :| i < |Due(r, time)| && Due(r, time)[i] == r.infos[handle];
  }

  lemma FiredEarly(b: Books, time: nat, now: nat, i: nat)
    requires i < |Due(b, time)| && Due(b, time)[i].timestamp > now
    ensures !Punctual(TimeBrokers.Expired(b, time, now))
  {
    var fired := TimeBrokers.Expired(b, time, now).fired;
    assert fired[|b.fired| + i] == Firing(Due(b, time)[i], now);
  }

  /** Expiring a time still to come, with a live timer, breaks the deadline. */
  lemma ExpiresEarly(b: Books, time: nat, now: nat, callback: nat, handle: nat)
    requires BooksOk(b) && IsHandle(handle) && handle !in b.infos && time > now
    ensures !Punctual(TimeBrokers.Expired(Registered(b, time, callback, handle), time, now))
  {
    var i := NewIsDue(b, time, callback, handle);
    FiredEarly(Registered(b, time, callback, handle), time, now, i);
  }

  /** A registration for the next moment starts the timer, when nothing is due. */
  lemma NextMomentStarts(s: State, h: nat)
    requires s.phase.InFlight? && s.deliveries >= 1 && NoneDue(s)
    ensures var n := RegisteredAt(s, s.now + 1, 0, h);
      && n.timer.active && n.phase == s.phase && n.deliveries == s.deliveries && n.now == s.now
      && n.books == Registered(s.books, s.now + 1, 0, h)
      && n.books.timeline != multiset{} && Least(n.books.timeline) == s.now + 1
  {
    LeastOfMore(s.books.timeline, s.now + 1);
    assert s.now + 1 in s.books.timeline + multiset{s.now + 1};
  }

  lemma RegisterIs(s: State, h: nat)
    requires s.books.counter <= MAX_HANDLE && h != s.books.preHandle
    requires Stops(s.books.infos.Keys, s.books.preHandle, s.books.counter, h)
    ensures var step := Register(s.now, 1, 0, h);
      Enabled(s, step) && Apply(s, step) == RegisteredAt(s, s.now + 1, 0, h)
  {
  }

  /** With nothing due, the surplus delivery fires whatever is registered next. */
  lemma SurplusFiresNext(s: State, x: nat) returns (steps: seq<Step>)
    requires BooksOk(s.books) && Free(s.books, x)
    requires s.phase.InFlight? && s.deliveries >= 1 && NoneDue(s)
    ensures Runs(s, steps) && !Punctual(Final(s, steps).books)
  {
    var h := Grants(s.books, x);
    var n := RegisteredAt(s, s.now + 1, 0, h);
    NextMomentStarts(s, h);
    ExpiresEarly(s.books, s.now + 1, s.now, 0, h);
    RunsCons(Fired(n), BrokerExpires, []);
    FiresIs(n);
    RunsCons(n, TimerFires, [BrokerExpires] + []);
    RegisterIs(s, h);
    RunsCons(s, Register(s.now, 1, 0, h), [TimerFires] + ([BrokerExpires] + []));
    steps := [Register(s.now, 1, 0, h)] + ([TimerFires] + ([BrokerExpires] + []));
  }

  /** A surplus always leads to an early callback. */
  lemma SurplusFiresEarly(s: State, x: nat) returns (steps: seq<Step>)
    requires BooksOk(s.books) && Free(s.books, x) && Surplus(s)
    ensures Runs(s, steps) && !Punctual(Final(s, steps).books)
    decreases |s.books.timeline|, s.phase.Idle?
  {
    if s.phase.Idle? {
      var time := TakeKeepsSurplus(s);
      var rest := SurplusFiresEarly(Apply(s, CoreTakes(time)), x);
      RunsCons(s, CoreTakes(time), rest);
      steps := [CoreTakes(time)] + rest;
    } else if NoneDue(s) {
      steps := SurplusFiresNext(s, x);
    } else {
      var f, top := Fired(s), Least(s.books.timeline);
      ExpiryKeepsSurplus(s);
      ExpiryKeepsFree(s.books, top, s.now, x);
      var n := ExpiredTop(f);
      assert |n.books.timeline| == |s.books.timeline| - 1;
      var rest := SurplusFiresEarly(n, x);
      assert Apply(f, BrokerExpires) == n;
      RunsCons(f, BrokerExpires, rest);
      FiresIs(s);
      RunsCons(s, TimerFires, [BrokerExpires] + rest);
      steps := [TimerFires] + ([BrokerExpires] + rest);
    }
  }

  lemma CollisionIsSurplus(s: State, step: Step)
    requires Inv(s) && Enabled(s, step) && Collides(s, step)
    ensures var n := Apply(s, step);
      Surplus(n) && BooksOk(n.books) && n.books.counter == n.books.preHandle && IsHandle(step.handle)
  {
    var time, n := step.reading + step.delay, Apply(s, step);
    assert n == RegisteredAt(s, time, step.callback, step.handle);
    RegisteredKeepsBooks(s.books, time, step.callback, step.handle);
    LeastOfMore(s.books.timeline, time);
    assert n.timer.registered == multiset{time};
    assert time in n.timer.registered;
  }

  /** The previous handle is the last one a search behind it would come to. */
  lemma OthersAreFree(b: Books, x: nat)
    requires IsHandle(b.preHandle) && b.counter == b.preHandle
    requires IsHandle(x) && x != b.preHandle && x !in b.infos
    ensures Free(b, x)
  {
  }

  lemma SurplusFiresEarlyAnyway(s: State) returns (steps: seq<Step>)
    requires Surplus(s) && BooksOk(s.books) && s.books.counter == s.books.preHandle && IsHandle(s.books.preHandle)
    ensures Runs(s, steps) && !Punctual(Final(s, steps).books)
  {
    var x := if s.books.preHandle == 1 then 2 else 1;
    var d := Apply(s, Deregister(x));
    CancelledKeepsBooks(s.books, x);
    OthersAreFree(d.books, x);
    steps := SurplusFiresEarly(d, x);
    RunsCons(s, Deregister(x), steps);
    steps := [Deregister(x)] + steps;
  }

  /** Every collision, in whatever state of an orderly run, can be followed by a callback before its
      deadline. */
  lemma CollisionFiresEarly(s: State, step: Step) returns (steps: seq<Step>)
    requires Inv(s) && Enabled(s, step) && Collides(s, step)
    ensures Runs(s, [step] + steps) && !Punctual(Final(s, [step] + steps).books)
  {
    CollisionIsSurplus(s, step);
    steps := SurplusFiresEarlyAnyway(Apply(s, step));
    RunsCons(s, step, steps);
  }

  const A_DUE := HAS_A.(now := 100)
  const A_TAKEN := A_DUE.(timer := TimerState(true, 100, multiset{}), phase := InFlight, deliveries := 1)

  lemma TakeA()
    ensures Enabled(A_DUE, CoreTakes(100)) && Apply(A_DUE, CoreTakes(100)) == A_TAKEN && Inv(A_TAKEN)
  {
    RegisterA();
    assert multiset{100}[100 := 0] == multiset{};
    StepKeepsInvExactlyWhen(INIT, Register(0, 100, 0, 1));
    StepKeepsInvExactlyWhen(HAS_A, Tick(100));
    StepKeepsInvExactlyWhen(A_DUE, CoreTakes(100));
  }

  lemma CollisionWithA()
    ensures Enabled(A_TAKEN, Register(100, 0, 0, 2)) && Collides(A_TAKEN, Register(100, 0, 0, 2))
  {
    RegisterA();
  }

  lemma ReachTaken(rest: seq<Step>) returns (steps: seq<Step>)
    requires Runs(A_TAKEN, rest)
    ensures Runs(INIT, steps) && Final(INIT, steps) == Final(A_TAKEN, rest)
  {
    TakeA();
    RunsCons(A_DUE, CoreTakes(100), rest);
    steps := [CoreTakes(100)] + rest;
    assert Apply(HAS_A, Tick(100)) == A_DUE;
    RunsCons(HAS_A, Tick(100), steps);
    steps := [Tick(100)] + steps;
    RegisterA();
    RunsCons(INIT, Register(0, 100, 0, 1), steps);
    steps := [Register(0, 100, 0, 1)] + steps;
  }

  /** And collisions do occur: timer A has been taken at its time, 100, and another one is registered for
      the same time before the delivery. */
  lemma CollisionOccurs() returns (steps: seq<Step>)
    ensures Runs(INIT, steps) && !Punctual(Final(INIT, steps).books)
  {
    TakeA();
    CollisionWithA();
    var tail := CollisionFiresEarly(A_TAKEN, Register(100, 0, 0, 2));
    steps := ReachTaken([Register(100, 0, 0, 2)] + tail);
  }
}

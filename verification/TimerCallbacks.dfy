/** The callbacks of common/src/timer/time_broker.cpp:146-148: the timer thread runs them one by one
    after it has given the broker's mutex back, while other threads register and deregister. */
module TimerCallbacks {
  import opened TimerHandles
  import opened DeferredTimers
  import opened TimeBrokers

  /** A callback that has begun, and the registrations whose DeregisterCallback had returned by then. */
  datatype Called = Called(timer: TimerInfo, at: nat, told: set<nat>)

  datatype World = World(
    broker: State,
    queue: seq<TimerInfo>,    // handed over and not yet called
    called: seq<Called>,      // history: callbacks, in the order in which they began
    handed: seq<set<nat>>,    // history: for every timer handed over, what `told` was then
    owner: map<nat, nat>,     // history: the registration that was last given this handle
    told: set<nat>)           // history: registrations whose DeregisterCallback has returned

  datatype Act = Do(step: Step) | Callback

  const IDLE_WORLD := World(INIT, [], [], [], map[], {})

  /** The timer thread does nothing else until it has run its callbacks. */
  ghost predicate Can(w: World, act: Act) {
    match act
    case Do(step) =>
      Enabled(w.broker, step) && (w.queue != [] ==> !step.CoreTakes? && !step.TimerFires? && !step.BrokerExpires?)
    case Callback => w.queue != []
  }

  function Owned(w: World, handle: nat): set<nat> {
    if handle in w.owner then {w.owner[handle]} else {}
  }

  function Copies(told: set<nat>, n: nat): (r: seq<set<nat>>)
    ensures |r| == n && forall i :: 0 <= i < n ==> r[i] == told
  {
    seq(n, i => told)
  }

  ghost function Next(w: World, act: Act): World
    requires Can(w, act)
  {
    match act
    case Callback => w.(queue := w.queue[1..], called := w.called + [Called(w.queue[0], w.broker.now, w.told)])
    case Do(step) =>
      var n := w.(broker := Apply(w.broker, step));
      (match step
       case Register(_, _, _, handle) =>
         if handle == w.broker.books.preHandle then n
         else n.(owner := w.owner[handle := w.broker.books.registrations])
       case Deregister(handle) => n.(told := w.told + Owned(w, handle))
       case BrokerExpires =>
         if w.broker.books.timeline == multiset{} then n
         else
           var due := Due(w.broker.books, Least(w.broker.books.timeline));
           n.(queue := due, handed := w.handed + Copies(w.told, |due|))
       case _ => n)
  }

  ghost predicate Acts(w: World, acts: seq<Act>)
    decreases |acts|
  {
    acts == [] || (Can(w, acts[0]) && Acts(Next(w, acts[0]), acts[1..]))
  }

  ghost function Ends(w: World, acts: seq<Act>): World
    requires Acts(w, acts)
    decreases |acts|
  {
    if acts == [] then w else Ends(Next(w, acts[0]), acts[1..])
  }

  // ---------------------------------------------------------------------------------------------
  // The invariant
  // ---------------------------------------------------------------------------------------------

  /** The handle of a pending timer names it and no other, and nobody has deregistered it. */
  ghost predicate Named(b: Books, owner: map<nat, nat>, told: set<nat>) {
    && (forall h :: h in b.infos ==> h in owner && owner[h] == b.infos[h].id && b.infos[h].id !in told)
    && (forall h :: h in owner ==> h != 0 && owner[h] < b.registrations)
    && (forall g, h :: g in owner && h in owner && owner[g] == owner[h] ==> g == h)
    && (forall k :: k in told ==> k < b.registrations)
  }

  /** What was handed over has been called, in order and not before, or is still to be called. */
  ghost predicate InOrder(fired: seq<Firing>, called: seq<Called>, queue: seq<TimerInfo>, now: nat) {
    && |fired| == |called| + |queue|
    && (forall i :: 0 <= i < |called| ==> called[i].timer == fired[i].timer && fired[i].at <= called[i].at)
    && (forall i :: 0 <= i < |queue| ==> queue[i] == fired[|called| + i].timer)
    && (forall i :: 0 <= i < |fired| ==> fired[i].at <= now)
  }

  /** No timer was handed over after it had been deregistered, and what had been deregistered at the
      hand-over still is when the callback begins. */
  ghost predicate HandedFresh(fired: seq<Firing>, called: seq<Called>, handed: seq<set<nat>>, told: set<nat>) {
    && |handed| == |fired| && |called| <= |fired|
    && (forall i :: 0 <= i < |fired| ==> fired[i].timer.id !in handed[i] && handed[i] <= told)
    && (forall i :: 0 <= i < |called| ==> handed[i] <= called[i].told <= told)
  }

  /** Each deregistration has cancelled its timer, or the timer had been handed over. */
  ghost predicate ToldAccounted(b: Books, told: set<nat>) {
    && b.cancelled <= told
    && (forall k :: k in told ==> k in b.cancelled || HasFired(b, k))
  }

  ghost predicate WorldInv(w: World) {
    && BooksOk(w.broker.books)
    && Named(w.broker.books, w.owner, w.told)
    && InOrder(w.broker.books.fired, w.called, w.queue, w.broker.now)
    && HandedFresh(w.broker.books.fired, w.called, w.handed, w.told)
    && ToldAccounted(w.broker.books, w.told)
  }

  lemma NamedAfterRegister(b: Books, owner: map<nat, nat>, told: set<nat>, time: nat, callback: nat, handle: nat)
    requires Named(b, owner, told) && handle !in b.infos && handle != 0
    ensures Named(Registered(b, time, callback, handle), owner[handle := b.registrations], told)
  {
  }

  lemma NamedAfterCancel(w: World, b: Books, handle: nat)
    requires Named(b, w.owner, w.told)
    ensures Named(Cancelled(b, handle), w.owner, w.told + Owned(w, handle))
  {
  }

  lemma AccountedAfterCancel(w: World, b: Books, handle: nat)
    requires Named(b, w.owner, w.told) && ToldAccounted(b, w.told) && Complete(b)
    ensures ToldAccounted(Cancelled(b, handle), w.told + Owned(w, handle))
  {
    var n := Cancelled(b, handle);
    forall k | k in w.told + Owned(w, handle)
      ensures k in n.cancelled || HasFired(n, k)
    {
      if HasFired(b, k) {
        assert HasFired(n, k);
      } else if k !in b.cancelled {
        assert handle in w.owner && w.owner[handle] == k && IsPending(b, k);
        var h :| h in b.infos && b.infos[h].id == k;
        assert h == handle;
      }
    }
  }

  lemma AccountedAfter(b: Books, n: Books, told: set<nat>)
    requires ToldAccounted(b, told) && n.cancelled == b.cancelled && b.fired <= n.fired
    ensures ToldAccounted(n, told)
  {
    forall k | k in told && HasFired(b, k)
      ensures HasFired(n, k)
    {
      var i :| 0 <= i < |b.fired| && b.fired[i].timer.id == k;
      assert n.fired[i].timer.id == k;
    }
  }

  lemma NamedAfterExpiry(b: Books, owner: map<nat, nat>, told: set<nat>, time: nat, now: nat)
    requires Named(b, owner, told) && Indexed(b) && HandlesOk(b)
    ensures Named(TimeBrokers.Expired(b, time, now), owner, told)
  {
    ExpiredInfos(b, time, now);
  }

  lemma FreshAfterExpiry(fired: seq<Firing>, called: seq<Called>, handed: seq<set<nat>>, told: set<nat>,
                         due: seq<TimerInfo>, now: nat)
    requires HandedFresh(fired, called, handed, told) && forall t :: t in due ==> t.id !in told
    ensures HandedFresh(fired + FiredAt(due, now), called, handed + Copies(told, |due|), told)
  {
    var n, h := fired + FiredAt(due, now), handed + Copies(told, |due|);
    forall i | 0 <= i < |n|
      ensures n[i].timer.id !in h[i] && h[i] <= told
    {
      if i >= |fired| {
        assert n[i].timer == due[i - |fired|] && due[i - |fired|] in due;
      }
    }
  }

  lemma OrderAfterExpiry(fired: seq<Firing>, called: seq<Called>, due: seq<TimerInfo>, now: nat)
    requires InOrder(fired, called, [], now)
    ensures InOrder(fired + FiredAt(due, now), called, due, now)
  {
    var n := fired + FiredAt(due, now);
    assert forall i :: 0 <= i < |fired| ==> n[i] == fired[i];
    assert forall i :: 0 <= i < |due| ==> n[|fired| + i] == Firing(due[i], now);
  }

  lemma NoneToldAmongDue(b: Books, owner: map<nat, nat>, told: set<nat>, time: nat)
    requires Named(b, owner, told) && Indexed(b) && HandlesOk(b)
    ensures forall t :: t in Due(b, time) ==> t.id !in told
  {
    DueExactly(b, time);
    forall t | t in Due(b, time)
      ensures t.id !in told
    {
      var h :| h in b.infos && b.infos[h] == t;
    }
  }

  lemma RegisterKeeps(w: World, step: Step)
    requires WorldInv(w) && Can(w, Do(step)) && step.Register? && step.handle != w.broker.books.preHandle
    ensures WorldInv(Next(w, Do(step)))
  {
    var b, n, time := w.broker.books, Next(w, Do(step)), step.reading + step.delay;
    assert n.broker.books == Registered(b, time, step.callback, step.handle) && n.broker.now == w.broker.now;
    RegisteredKeepsBooks(b, time, step.callback, step.handle);
    NamedAfterRegister(b, w.owner, w.told, time, step.callback, step.handle);
    AccountedAfter(b, n.broker.books, w.told);
  }

  lemma RefusalKeeps(w: World, n: World, counter: nat)
    requires WorldInv(w) && counter <= MAX_HANDLE
    requires n == w.(broker := n.broker) && n.broker.now == w.broker.now
    requires n.broker.books == w.broker.books.(counter := counter)
    ensures WorldInv(n)
  {
    CounterKeepsBooks(w.broker.books, counter);
    AccountedAfter(w.broker.books, n.broker.books, w.told);
  }

  lemma DeregisterKeeps(w: World, handle: nat)
    requires WorldInv(w)
    ensures WorldInv(Next(w, Do(Deregister(handle))))
  {
    var b, n := w.broker.books, Next(w, Do(Deregister(handle)));
    assert n.broker.books == Cancelled(b, handle) && n.broker.now == w.broker.now;
    CancelledKeepsBooks(b, handle);
    NamedAfterCancel(w, b, handle);
    AccountedAfterCancel(w, b, handle);
  }

  lemma ExpiryKeeps(w: World)
    requires WorldInv(w) && Can(w, Do(BrokerExpires)) && w.broker.books.timeline != multiset{}
    ensures WorldInv(Next(w, Do(BrokerExpires)))
  {
    var b, n, top := w.broker.books, Next(w, Do(BrokerExpires)), Least(w.broker.books.timeline);
    assert w.queue == [];
    assert n.broker.books == TimeBrokers.Expired(b, top, w.broker.now) && n.broker.now == w.broker.now;
    ExpiredKeepsBooks(b, top, w.broker.now);
    NamedAfterExpiry(b, w.owner, w.told, top, w.broker.now);
    OrderAfterExpiry(b.fired, w.called, Due(b, top), w.broker.now);
    NoneToldAmongDue(b, w.owner, w.told, top);
    AccountedAfter(b, n.broker.books, w.told);
    FreshAfterExpiry(b.fired, w.called, w.handed, w.told, Due(b, top), w.broker.now);
  }

  /** The books stay, and time does not go back. */
  lemma QuietKeeps(w: World, n: World)
    requires WorldInv(w) && n == w.(broker := n.broker)
    requires n.broker.books == w.broker.books && n.broker.now >= w.broker.now
    ensures WorldInv(n)
  {
  }

  lemma OrderAfterCall(fired: seq<Firing>, called: seq<Called>, queue: seq<TimerInfo>, now: nat, told: set<nat>)
    requires InOrder(fired, called, queue, now) && queue != []
    ensures InOrder(fired, called + [Called(queue[0], now, told)], queue[1..], now)
  {
    var n := called + [Called(queue[0], now, told)];
    assert queue[0] == fired[|called|].timer;
    forall i | 0 <= i < |n|
      ensures n[i].timer == fired[i].timer && fired[i].at <= n[i].at
    {
    }
  }

  lemma FreshAfterCall(fired: seq<Firing>, called: seq<Called>, handed: seq<set<nat>>, told: set<nat>, call: Called)
    requires HandedFresh(fired, called, handed, told) && |called| < |fired| && call.told == told
    ensures HandedFresh(fired, called + [call], handed, told)
  {
    assert fired[|called|].timer.id !in handed[|called|];
  }

  lemma CallbackKeeps(w: World)
    requires WorldInv(w) && Can(w, Callback)
    ensures WorldInv(Next(w, Callback))
  {
    var fired, call := w.broker.books.fired, Called(w.queue[0], w.broker.now, w.told);
    assert Next(w, Callback).broker == w.broker;
    OrderAfterCall(fired, w.called, w.queue, w.broker.now, w.told);
    FreshAfterCall(fired, w.called, w.handed, w.told, call);
  }

  lemma ActKeepsInv(w: World, act: Act)
    requires WorldInv(w) && Can(w, act)
    ensures WorldInv(Next(w, act))
  {
    match act
    case Callback => CallbackKeeps(w);
    case Do(OtherBroker(counter)) => RefusalKeeps(w, Next(w, act), counter);
    case Do(Register(_, _, _, handle)) =>
      if handle == w.broker.books.preHandle {
        RefusalKeeps(w, Next(w, act), handle);
      } else {
        RegisterKeeps(w, act.step);
      }
    case Do(Deregister(handle)) => DeregisterKeeps(w, handle);
    case Do(BrokerExpires) =>
      if w.broker.books.timeline == multiset{} {
        QuietKeeps(w, Next(w, act));
      } else {
        ExpiryKeeps(w);
      }
    case Do(_) => QuietKeeps(w, Next(w, act));
  }

  /** Over every run, with or without collisions: callbacks run in the order of the hand-overs, each
      once and not before its hand-over. */
  lemma {:induction false} EveryRunCallsInOrder(w: World, acts: seq<Act>)
    requires WorldInv(w) && Acts(w, acts)
    ensures WorldInv(Ends(w, acts))
    decreases |acts|
  {
    if acts == [] {
    } else {
      ActKeepsInv(w, acts[0]);
      EveryRunCallsInOrder(Next(w, acts[0]), acts[1..]);
    }
  }

  // ---------------------------------------------------------------------------------------------
  // Late callbacks
  // ---------------------------------------------------------------------------------------------

  /** Over every run: no timer is handed over once its DeregisterCallback has returned, so a callback
      begins after that exactly when the call came behind the locked block of its expiry. */
  lemma LateExactlyWhen(acts: seq<Act>, i: nat)
    requires Acts(IDLE_WORLD, acts) && i < |Ends(IDLE_WORLD, acts).called|
    ensures var w := Ends(IDLE_WORLD, acts);
      && i < |w.handed|
      && w.called[i].timer.id !in w.handed[i] && w.handed[i] <= w.called[i].told
      && (w.called[i].timer.id in w.called[i].told <==> w.called[i].timer.id in w.called[i].told - w.handed[i])
  {
    EveryRunCallsInOrder(IDLE_WORLD, acts);
    var w := Ends(IDLE_WORLD, acts);
    assert w.called[i].timer == w.broker.books.fired[i].timer;
  }

  /** What the histories `handed` and `called` record is the truth of the moment, and stays. */
  lemma HistoriesAreTrue(w: World, act: Act)
    requires Can(w, act)
    ensures var n := Next(w, act);
      && w.handed <= n.handed && w.called <= n.called
      && (forall i :: |w.handed| <= i < |n.handed| ==> n.handed[i] == w.told)
      && (forall i :: |w.called| <= i < |n.called| ==>
           n.called[i].told == w.told && n.called[i].at == w.broker.now)
  {
  }

  lemma {:induction false} HistoriesStay(w: World, acts: seq<Act>)
    requires Acts(w, acts)
    ensures w.handed <= Ends(w, acts).handed && w.called <= Ends(w, acts).called
    decreases |acts|
  {
    if acts == [] {
    } else {
      HistoriesAreTrue(w, acts[0]);
      HistoriesStay(Next(w, acts[0]), acts[1..]);
    }
  }

  /** So in every run, whatever was handed over or begun by one act is recorded with what had been
      deregistered just then. */
  lemma RecordedAsItWas(w: World, act: Act, rest: seq<Act>)
    requires Can(w, act) && Acts(Next(w, act), rest)
    ensures var n, e := Next(w, act), Ends(Next(w, act), rest);
      && |n.handed| <= |e.handed| && |n.called| <= |e.called|
      && (forall i :: |w.handed| <= i < |n.handed| ==> e.handed[i] == w.told)
      && (forall i :: |w.called| <= i < |n.called| ==> e.called[i].told == w.told)
  {
    HistoriesAreTrue(w, act);
    HistoriesStay(Next(w, act), rest);
  }

  /** Over every run: a deregistration that has returned has cancelled its timer, whose callback then
      never begins, or the timer had been handed over before. */
  lemma DeregistrationCancelsOrIsLate(acts: seq<Act>, k: nat)
    requires Acts(IDLE_WORLD, acts) && k in Ends(IDLE_WORLD, acts).told
    ensures var w := Ends(IDLE_WORLD, acts);
      HasFired(w.broker.books, k) || forall i :: 0 <= i < |w.called| ==> w.called[i].timer.id != k
    ensures var w := Ends(IDLE_WORLD, acts); HasFired(w.broker.books, k) <==> k !in w.broker.books.cancelled
  {
    EveryRunCallsInOrder(IDLE_WORLD, acts);
    var w := Ends(IDLE_WORLD, acts);
    forall i | 0 <= i < |w.called| && w.called[i].timer.id == k
      ensures HasFired(w.broker.books, k)
    {
      assert w.broker.books.fired[i].timer.id == k;
    }
  }

  lemma ActsCons(w: World, act: Act, rest: seq<Act>)
    requires Can(w, act) && Acts(Next(w, act), rest)
    ensures Acts(w, [act] + rest) && Ends(w, [act] + rest) == Ends(Next(w, act), rest)
  {
    assert ([act] + rest)[1..] == rest;
  }

  const FIRED_A := [Firing(TIMER_A, 100)]

  /** Timer A has been handed over at 100. */
  const HANDED_OVER := World(
    State(Books(multiset{}, map[], map[], 1, 1, 1, FIRED_A, {}), TimerState(false, 100, multiset{}), Idle, 0, 100),
    [TIMER_A], [], [{}], map[1 := 0], {})

  lemma ExpireA()
    ensures Due(BOOKS_A, 100) == [TIMER_A]
    ensures TimeBrokers.Expired(BOOKS_A, 100, 100) == HANDED_OVER.broker.books
  {
    assert AliveOf([TIMER_A], BOOKS_A.infos) == [TIMER_A];
    assert HandlesOf([TIMER_A]) == {1} by { assert TIMER_A in [TIMER_A]; }
    assert multiset{100} - multiset{100} == multiset{};
    assert BOOKS_A.infos - {1} == map[] && BOOKS_A.buckets - {100} == map[];
    assert [] + FiredAt([TIMER_A], 100) == FIRED_A;
  }

  const HAS_TIMER := World(HAS_A, [], [], [], map[1 := 0], {})
  const TIMER_DUE := HAS_TIMER.(broker := HAS_A.(now := 100))
  const DELIVERED := HAS_TIMER.(broker := State(BOOKS_A, TimerState(true, 100, multiset{}), InFlight, 1, 100))
  const EXPIRING := HAS_TIMER.(broker := State(BOOKS_A, TimerState(false, 100, multiset{}), Calling, 0, 100))

  lemma RegisterInWorld()
    ensures var act := Do(Register(0, 100, 0, 1)); Can(IDLE_WORLD, act) && Next(IDLE_WORLD, act) == HAS_TIMER
  {
    RegisterA();
  }

  lemma ExpireInWorld()
    ensures Next(EXPIRING, Do(BrokerExpires)) == HANDED_OVER
  {
    ExpireA();
    RegisterA();
  }

  lemma TakeInWorld()
    ensures Can(TIMER_DUE, Do(CoreTakes(100))) && Next(TIMER_DUE, Do(CoreTakes(100))) == DELIVERED
  {
    assert multiset{100}[100 := 0] == multiset{};
  }

  lemma ReachHandedOver(rest: seq<Act>)
    requires Acts(HANDED_OVER, rest)
    ensures var acts := [Do(Register(0, 100, 0, 1))] + ([Do(Tick(100))] + ([Do(CoreTakes(100))]
        + ([Do(TimerFires)] + ([Do(BrokerExpires)] + rest))));
      Acts(IDLE_WORLD, acts) && Ends(IDLE_WORLD, acts) == Ends(HANDED_OVER, rest)
  {
    ExpireInWorld();
    ActsCons(EXPIRING, Do(BrokerExpires), rest);
    assert Next(DELIVERED, Do(TimerFires)) == EXPIRING;
    ActsCons(DELIVERED, Do(TimerFires), [Do(BrokerExpires)] + rest);
    TakeInWorld();
    ActsCons(TIMER_DUE, Do(CoreTakes(100)), [Do(TimerFires)] + ([Do(BrokerExpires)] + rest));
    ActsCons(HAS_TIMER, Do(Tick(100)), [Do(CoreTakes(100))] + ([Do(TimerFires)] + ([Do(BrokerExpires)] + rest)));
    RegisterInWorld();
    ActsCons(IDLE_WORLD, Do(Register(0, 100, 0, 1)),
             [Do(Tick(100))] + ([Do(CoreTakes(100))] + ([Do(TimerFires)] + ([Do(BrokerExpires)] + rest))));
  }

  /** It does happen: a run in which a timer's callback begins after its DeregisterCallback returned. */
  lemma CalledAfterDeregistration() returns (acts: seq<Act>)
    ensures Acts(IDLE_WORLD, acts)
    ensures Ends(IDLE_WORLD, acts).called == [Called(TIMER_A, 100, {TIMER_A.id})]
  {
    var w := HANDED_OVER.(told := {0});
    assert Next(w, Callback).called == [Called(TIMER_A, 100, {0})];
    ActsCons(w, Callback, []);
    assert Next(HANDED_OVER, Do(Deregister(1))) == w;
    ActsCons(HANDED_OVER, Do(Deregister(1)), [Callback] + []);
    var rest := [Do(Deregister(1))] + ([Callback] + []);
    ReachHandedOver(rest);
    acts := [Do(Register(0, 100, 0, 1))] + ([Do(Tick(100))] + ([Do(CoreTakes(100))]
      + ([Do(TimerFires)] + ([Do(BrokerExpires)] + rest))));
  }
}

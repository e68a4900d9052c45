/** common/src/timer/time_broker.cpp with its Timer: a heap of timestamps, buckets of weak pointers by
    timestamp and the owning map by handle, kept as an index on one set of pending timers.

    The expiry is three steps of the timer thread: TimerCore takes the due entries, Timer::TimerExpired
    marks the timer inactive, and the broker's callback runs under the broker's mutex.  Registrations
    and deregistrations by any thread may come between them.

    RegisterCallback reads the clock under the broker's mutex, which does not hold TimerCore up: the
    reading may be older than the insertion, and the timer thread may have stepped in between. */
module TimeBrokers {
  import opened TimerHandles
  import opened DeferredTimers

  /** A TimerInfo object.  `id` is its identity: the number of registrations before it. */
  datatype TimerInfo = TimerInfo(id: nat, handle: nat, timestamp: nat, callback: nat)

  datatype Firing = Firing(timer: TimerInfo, at: nat)

  /** What the broker's mutex protects, with the history of what became of each registration. */
  datatype Books = Books(
    timeline: multiset<nat>,
    infos: map<nat, TimerInfo>,          // timerInfos_: handle to owner
    buckets: map<nat, seq<TimerInfo>>,   // expiringTimers_: weak pointers, in the order of registration
    preHandle: nat,
    counter: nat,                        // the static counter of GenerateHandle
    registrations: nat,                  // history: successful registrations
    fired: seq<Firing>,                  // history: timers handed to their callback, in order
    cancelled: set<nat>)                 // history: ids deregistered while pending

  /** Where the timer thread is: idle, between TimerCore and Timer::TimerExpired, or between there and
      the broker's mutex. */
  datatype Phase = Idle | InFlight | Calling

  datatype State = State(
    books: Books,
    timer: TimerState,
    phase: Phase,
    deliveries: nat,   // entries TimerCore has taken and not yet delivered
    now: nat)

  datatype Step =
    | Tick(elapsed: nat)
    | OtherBroker(counter: nat)
    | Register(reading: nat, delay: nat, callback: nat, handle: nat)
    | Deregister(handle: nat)
    | CoreTakes(time: nat)
    | TimerFires
    | BrokerExpires

  const NO_BOOKS := Books(multiset{}, map[], map[], 0, 0, 0, [], {})
  const INIT := State(NO_BOOKS, FRESH, Idle, 0, 0)

  // ---------------------------------------------------------------------------------------------
  // The pieces
  // ---------------------------------------------------------------------------------------------

  ghost predicate IsLeast(m: multiset<nat>, x: nat) {
    x in m && forall y :: y in m ==> x <= y
  }

  lemma LeastExists(m: multiset<nat>) returns (x: nat)
    requires m != multiset{}
    ensures IsLeast(m, x)
    decreases |m|
  {
    x :| x in m;
    var rest := m - multiset{x};
    assert forall z :: z in m ==> z in rest || z == x;
    if rest != multiset{} {
      var y := LeastExists(rest);
      if y < x {
        x := y;
      }
    }
  }

  /** timeline_.top() */
  ghost function Least(m: multiset<nat>): (x: nat)
    requires m != multiset{}
    ensures IsLeast(m, x)
  {
    assert exists x :: IsLeast(m, x) by {
      var x := LeastExists(m);
    }
    var x :| IsLeast(m, x);
    x
  }

  lemma LeastOfMore(m: multiset<nat>, time: nat)
    ensures var more := m + multiset{time};
      Least(more) == if m == multiset{} || time <= Least(m) then time else Least(m)
  {
    var more := m + multiset{time};
    assert time in more;
    if m != multiset{} {
      assert Least(m) in more;
      assert forall y :: y in more ==> y in m || y == time;
    } else {
      assert more == multiset{time};
    }
  }

  /** A weak pointer locks exactly while the owning map still holds that very object. */
  predicate Alive(infos: map<nat, TimerInfo>, t: TimerInfo) {
    t.handle in infos && infos[t.handle] == t
  }

  function AliveOf(bucket: seq<TimerInfo>, infos: map<nat, TimerInfo>): (r: seq<TimerInfo>)
    ensures forall t :: t in r <==> t in bucket && Alive(infos, t)
  {
    if bucket == [] then []
    else (if Alive(infos, bucket[0]) then [bucket[0]] else []) + AliveOf(bucket[1..], infos)
  }

  ghost predicate Ascending(r: seq<TimerInfo>) {
    forall i, j :: 0 <= i < j < |r| ==> r[i].id < r[j].id
  }

  function HandlesOf(timers: seq<TimerInfo>): set<nat> {
    set t | t in timers :: t.handle
  }

  function FiredAt(timers: seq<TimerInfo>, now: nat): (r: seq<Firing>)
    ensures |r| == |timers| && forall i :: 0 <= i < |r| ==> r[i] == Firing(timers[i], now)
  {
    seq(|timers|, i requires 0 <= i < |timers| => Firing(timers[i], now))
  }

  function Bucket(b: Books, time: nat): seq<TimerInfo> {
    if time in b.buckets then b.buckets[time] else []
  }

  /** The timers that an expiry of `time` hands to their callbacks. */
  function Due(b: Books, time: nat): seq<TimerInfo> {
    AliveOf(Bucket(b, time), b.infos)
  }

  // ---------------------------------------------------------------------------------------------
  // The steps
  // ---------------------------------------------------------------------------------------------

  function Registered(b: Books, time: nat, callback: nat, handle: nat): Books {
    var info := TimerInfo(b.registrations, handle, time, callback);
    b.(infos := if handle in b.infos then b.infos else b.infos[handle := info],
       buckets := b.buckets[time := Bucket(b, time) + [info]],
       timeline := b.timeline + multiset{time},
       preHandle := handle, counter := handle,
       registrations := b.registrations + 1)
  }

  function Cancelled(b: Books, handle: nat): Books {
    if handle == 0 || handle !in b.infos then b
    else b.(infos := b.infos - {handle}, cancelled := b.cancelled + {b.infos[handle].id})
  }

  function Expired(b: Books, time: nat, now: nat): Books {
    b.(timeline := b.timeline - multiset{time},
       infos := b.infos - HandlesOf(Due(b, time)),
       buckets := b.buckets - {time},
       fired := b.fired + FiredAt(Due(b, time), now))
  }

  /** RestartTimer */
  ghost function Restarted(timer: TimerState, timeline: multiset<nat>, force: bool): TimerState {
    if timeline == multiset{} || (timer.active && !force) then timer
    else StartedAt(timer, Least(timeline))
  }

  ghost predicate Enabled(s: State, step: Step) {
    match step
    case OtherBroker(counter) => IsHandle(counter)
    case Register(reading, _, _, handle) =>
      && reading <= s.now && s.books.counter <= MAX_HANDLE
      && Stops(s.books.infos.Keys, s.books.preHandle, s.books.counter, handle)
    case CoreTakes(time) => s.phase.Idle? && time in s.timer.registered && time <= s.now
    case TimerFires => s.phase.InFlight? && s.deliveries > 0
    case BrokerExpires => s.phase.Calling?
    case _ => true
  }

  /** TimerCore goes on with the next entry it took, if any. */
  function AfterDelivery(deliveries: nat): Phase {
    if deliveries > 0 then InFlight else Idle
  }

  /** A registration that got a handle: the books, and the timer when the new time is the top. */
  ghost function RegisteredAt(s: State, time: nat, callback: nat, handle: nat): State {
    var books := Registered(s.books, time, callback, handle);
    s.(books := books, timer := if time == Least(books.timeline) then StartedAt(s.timer, time) else s.timer)
  }

  /** The broker's TimerExpired, up to the end of its locked block. */
  ghost function ExpiredTop(s: State): State {
    if s.books.timeline == multiset{} then s.(phase := AfterDelivery(s.deliveries))
    else
      var time := Least(s.books.timeline);
      var books := Expired(s.books, time, s.now);
      s.(books := books,
         timer := Restarted(s.timer, books.timeline, time != 0),
         phase := AfterDelivery(s.deliveries))
  }

  /** TimerCore has taken the `n` entries of this time. */
  function TakenAt(s: State, time: nat, n: nat): State {
    var left := if s.timer.registered[time] >= n then s.timer.registered[time] - n else 0;
    s.(timer := s.timer.(registered := s.timer.registered[time := left]), deliveries := n, phase := InFlight)
  }

  ghost function Apply(s: State, step: Step): State
    requires Enabled(s, step)
  {
    match step
    case Tick(elapsed) => s.(now := s.now + elapsed)
    case OtherBroker(counter) => s.(books := s.books.(counter := counter))
    case Register(reading, delay, callback, handle) =>
      if handle == s.books.preHandle then s.(books := s.books.(counter := handle))
      else RegisteredAt(s, reading + delay, callback, handle)
    case Deregister(handle) => s.(books := Cancelled(s.books, handle))
    case CoreTakes(time) => TakenAt(s, time, s.timer.registered[time])
    case TimerFires =>
      var (timer, calls) := DeferredTimers.Expired(s.timer, ONCE, s.now, 0);
      s.(timer := timer, deliveries := s.deliveries - 1,
         phase := if calls then Calling else AfterDelivery(s.deliveries - 1))
    case BrokerExpires => ExpiredTop(s)
  }

  ghost predicate Runs(s: State, steps: seq<Step>)
    decreases |steps|
  {
    steps == [] || (Enabled(s, steps[0]) && Runs(Apply(s, steps[0]), steps[1..]))
  }

  ghost function Final(s: State, steps: seq<Step>): State
    requires Runs(s, steps)
    decreases |steps|
  {
    if steps == [] then s else Final(Apply(s, steps[0]), steps[1..])
  }

  // ---------------------------------------------------------------------------------------------
  // The books: one set of pending timers
  // ---------------------------------------------------------------------------------------------

  ghost predicate HandlesOk(b: Books) {
    && b.preHandle <= MAX_HANDLE && b.counter <= MAX_HANDLE
    && (b.preHandle == 0 ==> b.infos == map[])
    && (forall h :: h in b.infos ==> IsHandle(h) && b.infos[h].handle == h)
  }

  ghost predicate TimesListed(b: Books) {
    forall time :: time in b.buckets ==> time in b.timeline && Ascending(b.buckets[time])
  }

  ghost predicate PendingListed(b: Books) {
    forall h :: h in b.infos ==> b.infos[h] in Bucket(b, b.infos[h].timestamp)
  }

  ghost predicate BucketsUniform(b: Books) {
    forall time, i :: time in b.buckets && 0 <= i < |b.buckets[time]| ==>
      b.buckets[time][i].timestamp == time && b.buckets[time][i].id < b.registrations
  }

  /** Each pending timer has a weak entry in the bucket of its timestamp; the buckets hold one time
      each, in the order of registration; and the time of every bucket is in the timeline. */
  ghost predicate Indexed(b: Books) {
    TimesListed(b) && PendingListed(b) && BucketsUniform(b)
  }

  ghost predicate IsPending(b: Books, id: nat) {
    exists h :: h in b.infos && b.infos[h].id == id
  }

  ghost predicate HasFired(b: Books, id: nat) {
    exists i :: 0 <= i < |b.fired| && b.fired[i].timer.id == id
  }

  /** No registration is two of pending, fired and cancelled, and none fires twice. */
  ghost predicate Disjoint(b: Books) {
    && (forall h :: h in b.infos ==> b.infos[h].id < b.registrations && b.infos[h].id !in b.cancelled)
    && (forall g, h :: g in b.infos && h in b.infos && b.infos[g].id == b.infos[h].id ==> g == h)
    && (forall i :: 0 <= i < |b.fired| ==>
         b.fired[i].timer.id < b.registrations && b.fired[i].timer.id !in b.cancelled)
    && (forall i, h :: 0 <= i < |b.fired| && h in b.infos ==> b.fired[i].timer.id != b.infos[h].id)
    && (forall i, j :: 0 <= i < j < |b.fired| ==> b.fired[i].timer.id != b.fired[j].timer.id)
    && (forall k :: k in b.cancelled ==> k < b.registrations)
  }

  /** Every registration is one of them. */
  ghost predicate Complete(b: Books) {
    forall k: nat :: k < b.registrations ==> IsPending(b, k) || HasFired(b, k) || k in b.cancelled
  }

  ghost predicate BooksOk(b: Books) {
    HandlesOk(b) && Indexed(b) && Disjoint(b) && Complete(b)
  }

  lemma RegisteredTimesListed(b: Books, time: nat, callback: nat, handle: nat)
    requires TimesListed(b) && BucketsUniform(b)
    ensures TimesListed(Registered(b, time, callback, handle))
  {
    var n := Registered(b, time, callback, handle);
    forall t | t in n.buckets
      ensures t in n.timeline && Ascending(n.buckets[t])
    {
      if t != time {
        assert n.buckets[t] == b.buckets[t];
      }
    }
  }

  lemma RegisteredPendingListed(b: Books, time: nat, callback: nat, handle: nat)
    requires PendingListed(b) && handle !in b.infos
    ensures PendingListed(Registered(b, time, callback, handle))
  {
    var n := Registered(b, time, callback, handle);
    forall h | h in n.infos
      ensures n.infos[h] in Bucket(n, n.infos[h].timestamp)
    {
      if h == handle {
        assert n.buckets[time][|n.buckets[time]| - 1] == n.infos[h];
      } else {
        assert n.infos[h] in Bucket(b, n.infos[h].timestamp);
      }
    }
  }

  lemma RegisteredUniform(b: Books, time: nat, callback: nat, handle: nat)
    requires BucketsUniform(b)
    ensures BucketsUniform(Registered(b, time, callback, handle))
  {
    var n := Registered(b, time, callback, handle);
    forall t, i | t in n.buckets && 0 <= i < |n.buckets[t]|
      ensures n.buckets[t][i].timestamp == t && n.buckets[t][i].id < n.registrations
    {
      if t != time {
        assert n.buckets[t] == b.buckets[t];
      } else if i < |Bucket(b, time)| {
        assert n.buckets[t][i] == b.buckets[time][i];
      }
    }
  }

  lemma RegisteredIndexed(b: Books, time: nat, callback: nat, handle: nat)
    requires Indexed(b) && handle !in b.infos
    ensures Indexed(Registered(b, time, callback, handle))
  {
    RegisteredTimesListed(b, time, callback, handle);
    RegisteredPendingListed(b, time, callback, handle);
    RegisteredUniform(b, time, callback, handle);
  }

  lemma RegisteredDisjoint(b: Books, time: nat, callback: nat, handle: nat)
    requires Disjoint(b) && handle !in b.infos
    ensures Disjoint(Registered(b, time, callback, handle))
  {
  }

  lemma RegisteredComplete(b: Books, time: nat, callback: nat, handle: nat)
    requires Complete(b) && handle !in b.infos
    ensures Complete(Registered(b, time, callback, handle))
  {
    var n := Registered(b, time, callback, handle);
    forall k: nat | k < n.registrations
      ensures IsPending(n, k) || HasFired(n, k) || k in n.cancelled
    {
      if k == b.registrations {
        assert n.infos[handle].id == k;
      } else if IsPending(b, k) {
        var h :| h in b.infos && b.infos[h].id == k;
        assert h in n.infos && n.infos[h].id == k;
      } else if HasFired(b, k) {
        assert HasFired(n, k);
      }
    }
  }

  lemma RegisteredKeepsBooks(b: Books, time: nat, callback: nat, handle: nat)
    requires BooksOk(b) && IsHandle(handle) && handle !in b.infos
    ensures BooksOk(Registered(b, time, callback, handle))
  {
    RegisteredIndexed(b, time, callback, handle);
    RegisteredDisjoint(b, time, callback, handle);
    RegisteredComplete(b, time, callback, handle);
  }

  lemma CounterKeepsBooks(b: Books, counter: nat)
    requires BooksOk(b) && counter <= MAX_HANDLE
    ensures BooksOk(b.(counter := counter))
  {
    var n := b.(counter := counter);
    forall k: nat | k < n.registrations
      ensures IsPending(n, k) || HasFired(n, k) || k in n.cancelled
    {
      assert IsPending(b, k) ==> IsPending(n, k);
      assert HasFired(b, k) ==> HasFired(n, k);
    }
  }

  lemma CancelledDisjoint(b: Books, handle: nat)
    requires Disjoint(b)
    ensures Disjoint(Cancelled(b, handle))
  {
  }

  lemma CancelledComplete(b: Books, handle: nat)
    requires Complete(b)
    ensures Complete(Cancelled(b, handle))
  {
    var n := Cancelled(b, handle);
    forall k: nat | k < n.registrations
      ensures IsPending(n, k) || HasFired(n, k) || k in n.cancelled
    {
      if IsPending(b, k) {
        var h :| h in b.infos && b.infos[h].id == k;
        if h != handle || handle == 0 { assert h in n.infos && n.infos[h].id == k; }
      } else if HasFired(b, k) {
        assert HasFired(n, k);
      }
    }
  }

  lemma CancelledIndexed(b: Books, handle: nat)
    requires Indexed(b) && HandlesOk(b)
    ensures Indexed(Cancelled(b, handle)) && HandlesOk(Cancelled(b, handle))
  {
    assert b.infos == map[] ==> Cancelled(b, handle).infos == map[];
  }

  lemma CancelledKeepsBooks(b: Books, handle: nat)
    requires BooksOk(b)
    ensures BooksOk(Cancelled(b, handle))
  {
    CancelledIndexed(b, handle);
    CancelledDisjoint(b, handle);
    CancelledComplete(b, handle);
  }

  lemma {:induction false} AliveSorted(bucket: seq<TimerInfo>, infos: map<nat, TimerInfo>)
    requires Ascending(bucket)
    ensures Ascending(AliveOf(bucket, infos))
  {
    if bucket == [] {
    } else {
      AliveSorted(bucket[1..], infos);
      var rest := AliveOf(bucket[1..], infos);
      forall i | 0 <= i < |rest|
        ensures bucket[0].id < rest[i].id
      {
        assert rest[i] in bucket[1..];
      }
      if Alive(infos, bucket[0]) {
        assert AliveOf(bucket, infos) == [bucket[0]] + rest;
      } else {
        assert AliveOf(bucket, infos) == rest;
      }
    }
  }

  /** The due timers are exactly the pending timers of that time, in the order of registration: a stale
      weak entry contributes nothing, whoever holds its handle now. */
  lemma DueExactly(b: Books, time: nat)
    requires Indexed(b) && HandlesOk(b)
    ensures forall t :: t in Due(b, time) <==> t in b.infos.Values && t.timestamp == time
    ensures Ascending(Due(b, time))
  {
    AliveSorted(Bucket(b, time), b.infos);
    forall t | t in b.infos.Values && t.timestamp == time
      ensures t in Due(b, time)
    {
      var h :| h in b.infos && b.infos[h] == t;
      assert t in Bucket(b, time) && Alive(b.infos, t);
    }
  }

  lemma ExpiredInfos(b: Books, time: nat, now: nat)
    requires Indexed(b) && HandlesOk(b)
    ensures forall h :: h in Expired(b, time, now).infos <==> h in b.infos && b.infos[h].timestamp != time
  {
    var due := Due(b, time);
    DueExactly(b, time);
    forall h | h in b.infos
      ensures h in HandlesOf(due) <==> b.infos[h].timestamp == time
    {
      assert b.infos[h] in due ==> h in HandlesOf(due);
      assert forall t :: t in due ==> Alive(b.infos, t);
    }
  }

  lemma IndexedWithout(b: Books, n: Books, time: nat)
    requires Indexed(b) && n.registrations == b.registrations
    requires n.timeline == b.timeline - multiset{time} && n.buckets == b.buckets - {time}
    requires forall h :: h in n.infos ==> h in b.infos && n.infos[h] == b.infos[h] && b.infos[h].timestamp != time
    ensures Indexed(n)
  {
    assert forall t :: t in b.timeline && t != time ==> t in n.timeline;
  }

  lemma ExpiredIndexed(b: Books, time: nat, now: nat)
    requires Indexed(b) && HandlesOk(b)
    ensures Indexed(Expired(b, time, now)) && HandlesOk(Expired(b, time, now))
  {
    ExpiredInfos(b, time, now);
    IndexedWithout(b, Expired(b, time, now), time);
    assert b.infos == map[] ==> Expired(b, time, now).infos == map[];
  }

  /** What was pending is pending still, or has fired now. */
  lemma CompleteWithout(b: Books, n: Books, time: nat, due: seq<TimerInfo>, now: nat, k: nat)
    requires Complete(b) && k < b.registrations
    requires forall t :: t in due <==> t in b.infos.Values && t.timestamp == time
    requires n.cancelled == b.cancelled && n.fired == b.fired + FiredAt(due, now)
    requires forall h :: h in b.infos && b.infos[h].timestamp != time ==> h in n.infos && n.infos[h] == b.infos[h]
    ensures IsPending(n, k) || HasFired(n, k) || k in n.cancelled
  {
    if IsPending(b, k) {
      var h :| h in b.infos && b.infos[h].id == k;
      if b.infos[h].timestamp == time {
        assert b.infos[h] in due;
        var i :| 0 <= i < |due| && due[i] == b.infos[h];
        assert n.fired[|b.fired| + i].timer.id == k;
      } else {
        assert n.infos[h].id == k;
      }
    } else if HasFired(b, k) {
      var i :| 0 <= i < |b.fired| && b.fired[i].timer.id == k;
      assert n.fired[i].timer.id == k;
    }
  }

  lemma ExpiredComplete(b: Books, time: nat, now: nat)
    requires Complete(b) && Indexed(b) && HandlesOk(b)
    ensures Complete(Expired(b, time, now))
  {
    var n := Expired(b, time, now);
    DueExactly(b, time);
    ExpiredInfos(b, time, now);
    forall k: nat | k < n.registrations
      ensures IsPending(n, k) || HasFired(n, k) || k in n.cancelled
    {
      CompleteWithout(b, n, time, Due(b, time), now, k);
    }
  }

  /** Firing pending timers in ascending order keeps the history free of repetitions. */
  lemma FiredDisjoint(b: Books, due: seq<TimerInfo>, now: nat, n: Books)
    requires Disjoint(b) && Ascending(due)
    requires forall i :: 0 <= i < |due| ==>
      due[i].handle in b.infos && b.infos[due[i].handle] == due[i] && due[i].handle !in n.infos
    requires n.fired == b.fired + FiredAt(due, now)
    requires n.registrations == b.registrations && n.cancelled == b.cancelled
    requires forall h :: h in n.infos ==> h in b.infos && n.infos[h] == b.infos[h]
    ensures Disjoint(n)
  {
  }

  lemma ExpiredDisjoint(b: Books, time: nat, now: nat)
    requires Disjoint(b) && Indexed(b) && HandlesOk(b)
    ensures Disjoint(Expired(b, time, now))
  {
    var n, due := Expired(b, time, now), Due(b, time);
    DueExactly(b, time);
    ExpiredInfos(b, time, now);
    forall i | 0 <= i < |due|
      ensures due[i].handle in b.infos && b.infos[due[i].handle] == due[i] && due[i].handle !in n.infos
    {
      assert due[i] in due && Alive(b.infos, due[i]);
    }
    FiredDisjoint(b, due, now, n);
  }

  lemma ExpiredKeepsBooks(b: Books, time: nat, now: nat)
    requires BooksOk(b)
    ensures BooksOk(Expired(b, time, now))
  {
    ExpiredIndexed(b, time, now);
    ExpiredDisjoint(b, time, now);
    ExpiredComplete(b, time, now);
  }

  /** An empty timeline means nothing is left anywhere. */
  lemma EmptyTimelineDrained(b: Books)
    requires BooksOk(b) && b.timeline == multiset{}
    ensures b.infos == map[] && b.buckets == map[]
  {
    assert b.buckets.Keys == {};
    assert b.infos.Keys == {};
  }

  /** No callback before its deadline. */
  ghost predicate Punctual(b: Books) {
    forall i :: 0 <= i < |b.fired| ==> b.fired[i].timer.timestamp <= b.fired[i].at
  }

  // ---------------------------------------------------------------------------------------------
  // The timer
  // ---------------------------------------------------------------------------------------------

  /** An armed timer is set for the top of the timeline.  (A top of zero is the exception: its expiry
      does not force the restart, so a timer started for zero behind an expiry may outlast it; the next
      top is due then.) */
  ghost predicate SetForTop(timer: TimerState, timeline: multiset<nat>, now: nat)
    requires timeline != multiset{}
  {
    Armed(timer) && (timer.expiredTime == Least(timeline) || (timer.expiredTime == 0 && Least(timeline) <= now))
  }

  /** The timer has been started behind an expiry, for the top of the timeline, and the entry that the
      expiry was for is still there and due. */
  ghost predicate Overtaken(timer: TimerState, timeline: multiset<nat>, now: nat)
    requires timeline != multiset{}
  {
    var rest := timeline - multiset{Least(timeline)};
    Armed(timer) && timer.expiredTime == Least(timeline) && rest != multiset{} && Least(rest) <= now
  }

  /** The timer thread idles: a timeline that is not empty has the timer armed for its top, and an
      empty one has it off.  While an expiry is being delivered the top is due and TimerCore does not
      hold the timer, unless a registration has started it again behind the delivery. */
  ghost predicate ArmedForTop(s: State) {
    match s.phase
    case Idle =>
      && s.deliveries == 0
      && (if s.books.timeline == multiset{} then s.timer.registered == multiset{} && !s.timer.active
          else SetForTop(s.timer, s.books.timeline, s.now))
    case InFlight =>
      && s.deliveries == 1 && s.books.timeline != multiset{} && Least(s.books.timeline) <= s.now
      && s.timer.active && s.timer.registered == multiset{}
    case Calling =>
      && s.deliveries == 0 && s.books.timeline != multiset{} && Least(s.books.timeline) <= s.now
      && (if s.timer.active then Overtaken(s.timer, s.books.timeline, s.now) else s.timer.registered == multiset{})
  }

  ghost predicate Inv(s: State) {
    BooksOk(s.books) && Punctual(s.books) && ArmedForTop(s)
  }

  /** The one step that breaks it: a registration, between TimerCore and Timer::TimerExpired, for a time
      no later than the one that is being delivered.  It puts the timer back into TimerCore's table, the
      delivery then switches the timer off without taking that entry out, and the restart adds a second
      one.  (A time before the one in delivery takes a clock reading from before TimerCore's step.) */
  ghost predicate Collides(s: State, step: Step) {
    && step.Register? && step.handle != s.books.preHandle
    && s.phase.InFlight? && s.books.timeline != multiset{} && step.reading + step.delay <= Least(s.books.timeline)
  }

  lemma LeastBehindNew(m: multiset<nat>, time: nat)
    requires m != multiset{}
    ensures var more := m + multiset{time}; var rest := more - multiset{Least(more)};
      rest != multiset{} &&
      if time <= Least(m) then rest == m
      else rest == m - multiset{Least(m)} + multiset{time} && Least(rest) <= time
  {
    LeastOfMore(m, time);
    var more := m + multiset{time};
    var rest := more - multiset{Least(more)};
    if time <= Least(m) {
      assert rest == m;
    } else {
      assert rest == m - multiset{Least(m)} + multiset{time};
      LeastOfMore(m - multiset{Least(m)}, time);
      assert time in rest;
    }
  }

  lemma RegisteredCalling(s: State, time: nat, callback: nat, handle: nat)
    requires ArmedForTop(s) && s.phase.Calling?
    ensures ArmedForTop(RegisteredAt(s, time, callback, handle))
  {
    var m := s.books.timeline;
    LeastOfMore(m, time);
    LeastBehindNew(m, time);
    if time <= Least(m) {
      StartAtArms(s.timer, time);
    } else if s.timer.active {
      LeastOfMore(m - multiset{Least(m)}, time);
    }
  }

  lemma RegisteredArmed(s: State, time: nat, callback: nat, handle: nat)
    requires ArmedForTop(s)
    ensures ArmedForTop(RegisteredAt(s, time, callback, handle))
      <==> !(s.phase.InFlight? && time <= Least(s.books.timeline))
  {
    LeastOfMore(s.books.timeline, time);
    if s.phase.Calling? {
      RegisteredCalling(s, time, callback, handle);
    } else {
      var n := RegisteredAt(s, time, callback, handle);
      assert n.books.timeline != multiset{} by { assert time in n.books.timeline; }
      if s.phase.Idle? && time == Least(n.books.timeline) {
        StartAtArms(s.timer, time);
      }
    }
  }

  lemma ExpiredArmed(s: State)
    requires ArmedForTop(s) && s.phase.Calling?
    ensures ArmedForTop(ExpiredTop(s))
  {
    var n := ExpiredTop(s);
    if n.books.timeline != multiset{} {
      StartAtArms(s.timer, Least(n.books.timeline));
    }
  }

  lemma GrantedKeepsInv(s: State, time: nat, callback: nat, handle: nat)
    requires Inv(s) && IsHandle(handle) && handle !in s.books.infos
    ensures Inv(RegisteredAt(s, time, callback, handle)) == !(s.phase.InFlight? && time <= Least(s.books.timeline))
  {
    RegisteredKeepsBooks(s.books, time, callback, handle);
    RegisteredArmed(s, time, callback, handle);
    assert Punctual(Registered(s.books, time, callback, handle));
  }

  lemma CounterKeepsInv(s: State, counter: nat)
    requires Inv(s) && counter <= MAX_HANDLE
    ensures Inv(s.(books := s.books.(counter := counter)))
  {
    CounterKeepsBooks(s.books, counter);
  }

  lemma RefusedRegisterKeepsInv(s: State, step: Step)
    requires Inv(s) && Enabled(s, step) && step.Register? && step.handle == s.books.preHandle
    ensures Inv(Apply(s, step))
  {
    CounterKeepsInv(s, step.handle);
  }

  lemma GrantedRegisterKeepsInv(s: State, step: Step)
    requires Inv(s) && Enabled(s, step) && step.Register? && step.handle != s.books.preHandle
    ensures Inv(Apply(s, step)) == !Collides(s, step)
  {
    var time, n := step.reading + step.delay, Apply(s, step);
    assert n == RegisteredAt(s, time, step.callback, step.handle);
    GrantedKeepsInv(s, time, step.callback, step.handle);
    assert Inv(n) == !(s.phase.InFlight? && time <= Least(s.books.timeline));
    assert s.phase.InFlight? ==> s.books.timeline != multiset{};
  }

  lemma ExpiredPunctual(b: Books, time: nat, now: nat)
    requires BooksOk(b) && Punctual(b) && time <= now
    ensures Punctual(Expired(b, time, now))
  {
    DueExactly(b, time);
    assert forall i :: 0 <= i < |Due(b, time)| ==> Due(b, time)[i] in Due(b, time);
  }

  lemma ExpiryKeepsInv(s: State)
    requires Inv(s) && s.phase.Calling?
    ensures Inv(Apply(s, BrokerExpires))
  {
    var time := Least(s.books.timeline);
    ExpiredKeepsBooks(s.books, time, s.now);
    ExpiredPunctual(s.books, time, s.now);
    ExpiredArmed(s);
  }

  lemma DeliveryKeepsInv(s: State, step: Step)
    requires Inv(s) && Enabled(s, step) && (step.CoreTakes? || step.TimerFires?)
    ensures Inv(Apply(s, step))
  {
    if step.CoreTakes? {
      assert s.timer.registered[step.time := 0] == multiset{};
    }
  }

  lemma TickKeepsInv(s: State, elapsed: nat)
    requires Inv(s)
    ensures Inv(s.(now := s.now + elapsed))
  {
  }

  lemma DeregisterKeepsInv(s: State, handle: nat)
    requires Inv(s)
    ensures Inv(s.(books := Cancelled(s.books, handle)))
  {
    CancelledKeepsBooks(s.books, handle);
  }

  /** A step keeps the invariant exactly when it does not collide with a delivery. */
  lemma StepKeepsInvExactlyWhen(s: State, step: Step)
    requires Inv(s) && Enabled(s, step)
    ensures Inv(Apply(s, step)) == !Collides(s, step)
  {
    match step
    case Tick(elapsed) => TickKeepsInv(s, elapsed);
    case OtherBroker(counter) => CounterKeepsInv(s, counter);
    case Register(_, _, _, handle) =>
      if handle == s.books.preHandle {
        RefusedRegisterKeepsInv(s, step);
      } else {
        GrantedRegisterKeepsInv(s, step);
      }
    case Deregister(handle) => DeregisterKeepsInv(s, handle);
    case CoreTakes(_) => DeliveryKeepsInv(s, step);
    case TimerFires => DeliveryKeepsInv(s, step);
    case BrokerExpires => ExpiryKeepsInv(s);
  }

  ghost predicate NoCollision(s: State, steps: seq<Step>)
    requires Runs(s, steps)
    decreases |steps|
  {
    steps == [] || (!Collides(s, steps[0]) && NoCollision(Apply(s, steps[0]), steps[1..]))
  }

  lemma {:induction false} RunKeepsInv(s: State, steps: seq<Step>)
    requires Inv(s) && Runs(s, steps) && NoCollision(s, steps)
    ensures Inv(Final(s, steps))
    decreases |steps|
  {
    if steps == [] {
    } else {
      StepKeepsInvExactlyWhen(s, steps[0]);
      RunKeepsInv(Apply(s, steps[0]), steps[1..]);
    }
  }

  // ---------------------------------------------------------------------------------------------
  // What a caller sees
  // ---------------------------------------------------------------------------------------------

  /** Over every run without a collision: each registration is exactly one of pending, fired once and
      cancelled, and nothing fires before its deadline. */
  lemma EveryRunKeepsTheBooks(steps: seq<Step>)
    requires Runs(INIT, steps) && NoCollision(INIT, steps)
    ensures var s := Final(INIT, steps);
      Inv(s) && Disjoint(s.books) && Complete(s.books) && Punctual(s.books)
  {
    RunKeepsInv(INIT, steps);
  }

  /** An expiry takes the least time of the timeline, which is due and is no later than any pending
      deadline; it fires exactly the pending timers of that time, in the order of their registration;
      the other pending timers stay; and the timeline loses one entry. */
  lemma ExpiryFiresExactly(s: State)
    requires Inv(s) && s.phase.Calling?
    ensures s.books.timeline != multiset{}
    ensures var b, n, top := s.books, Apply(s, BrokerExpires).books, Least(s.books.timeline);
      && top <= s.now
      && (forall t :: t in b.infos.Values ==> top <= t.timestamp)
      && n.fired == b.fired + FiredAt(Due(b, top), s.now)
      && (forall t :: t in Due(b, top) <==> t in b.infos.Values && t.timestamp == top)
      && Ascending(Due(b, top))
      && (forall h :: h in n.infos <==> h in b.infos && b.infos[h].timestamp != top)
      && (forall h :: h in n.infos ==> n.infos[h] == b.infos[h])
      && |n.timeline| == |b.timeline| - 1
  {
    var top := Least(s.books.timeline);
    DueExactly(s.books, top);
    ExpiredInfos(s.books, top, s.now);
    forall t | t in s.books.infos.Values
      ensures top <= t.timestamp
    {
      assert t in Bucket(s.books, t.timestamp);
    }
  }

  /** Whenever the timer thread idles with something pending, the timer is armed, once, for a time no
      later than any pending deadline. */
  lemma PendingMeansArmed(s: State)
    requires Inv(s) && s.phase.Idle? && s.books.infos != map[]
    ensures Armed(s.timer)
    ensures forall h :: h in s.books.infos ==> s.timer.expiredTime <= s.books.infos[h].timestamp
  {
    if s.books.timeline == multiset{} {
      EmptyTimelineDrained(s.books);
    } else {
      forall h | h in s.books.infos
        ensures s.books.infos[h].timestamp in s.books.timeline
      {
        assert s.books.infos[h] in Bucket(s.books, s.books.infos[h].timestamp);
      }
    }
  }

  // ---------------------------------------------------------------------------------------------
  // What was asked for
  // ---------------------------------------------------------------------------------------------

  /** A granted registration adds one pending timer, with the callback and the deadline asked for, and
      touches no other. */
  lemma RegisterStores(s: State, step: Step)
    requires Enabled(s, step) && step.Register? && step.handle != s.books.preHandle
    requires step.handle !in s.books.infos
    ensures var b, n, h := s.books, Apply(s, step).books, step.handle;
      && n.infos.Keys == b.infos.Keys + {h} && n.infos[h].handle == h
      && n.infos[h].callback == step.callback && n.infos[h].timestamp == step.reading + step.delay
      && n.infos[h].id == b.registrations && n.registrations == b.registrations + 1
      && (forall g :: g in b.infos ==> n.infos[g] == b.infos[g])
      && n.fired == b.fired && n.cancelled == b.cancelled && n.preHandle == n.counter == h
  {
  }

  /** A deregistration takes out the timer of its handle, for good, and touches no other. */
  lemma DeregisterRemovesOnly(s: State, handle: nat)
    requires HandlesOk(s.books)
    ensures var b, n := s.books, Apply(s, Deregister(handle)).books;
      && n.infos.Keys == b.infos.Keys - {handle}
      && (forall g :: g in n.infos ==> n.infos[g] == b.infos[g])
      && n.cancelled == b.cancelled + (if handle in b.infos then {b.infos[handle].id} else {})
      && n.fired == b.fired && n.timeline == b.timeline && n.buckets == b.buckets
      && n.registrations == b.registrations
  {
  }

  datatype Order = Order(callback: nat, time: nat)

  /** What a step asks for, if it is a registration that is granted. */
  function OrderOf(s: State, step: Step): seq<Order> {
    if step.Register? && step.handle != s.books.preHandle
    then [Order(step.callback, step.reading + step.delay)] else []
  }

  /** What the granted registrations of a run asked for, in their order. */
  ghost function Orders(s: State, steps: seq<Step>): seq<Order>
    requires Runs(s, steps)
    decreases |steps|
  {
    if steps == [] then [] else OrderOf(s, steps[0]) + Orders(Apply(s, steps[0]), steps[1..])
  }

  predicate Meets(t: TimerInfo, orders: seq<Order>) {
    t.id < |orders| && orders[t.id] == Order(t.callback, t.timestamp)
  }

  /** Every timer, pending or fired, is what its registration asked for. */
  ghost predicate AllMeet(b: Books, orders: seq<Order>) {
    && b.registrations == |orders|
    && (forall h :: h in b.infos ==> Meets(b.infos[h], orders))
    && (forall i :: 0 <= i < |b.fired| ==> Meets(b.fired[i].timer, orders))
  }

  lemma ExpiredMeets(b: Books, orders: seq<Order>, time: nat, now: nat)
    requires AllMeet(b, orders)
    ensures AllMeet(Expired(b, time, now), orders)
  {
    var due := Due(b, time);
    forall i | 0 <= i < |due|
      ensures Meets(due[i], orders)
    {
      assert due[i] in due && Alive(b.infos, due[i]);
    }
  }

  lemma StepMeets(s: State, step: Step, orders: seq<Order>)
    requires Enabled(s, step) && AllMeet(s.books, orders)
    ensures AllMeet(Apply(s, step).books, orders + OrderOf(s, step))
  {
    assert orders + [] == orders;
    match step
    case BrokerExpires =>
      if s.books.timeline != multiset{} {
        ExpiredMeets(s.books, orders, Least(s.books.timeline), s.now);
      }
    case _ =>
  }

  lemma Regrouped(a: seq<Order>, b: seq<Order>, c: seq<Order>)
    ensures (a + b) + c == a + (b + c)
  {
  }

  lemma {:induction false} RunMeets(s: State, steps: seq<Step>, orders: seq<Order>)
    requires Runs(s, steps) && AllMeet(s.books, orders)
    ensures AllMeet(Final(s, steps).books, orders + Orders(s, steps))
    decreases |steps|
  {
    if steps == [] {
      assert orders + [] == orders;
    } else {
      var n, first := Apply(s, steps[0]), OrderOf(s, steps[0]);
      StepMeets(s, steps[0], orders);
      RunMeets(n, steps[1..], orders + first);
      Regrouped(orders, first, Orders(n, steps[1..]));
    }
  }

  /** Over every run, collisions or not: whatever is pending or has fired carries the callback and the
      deadline of the registration that it came from. */
  lemma EveryTimerIsAsOrdered(steps: seq<Step>)
    requires Runs(INIT, steps)
    ensures AllMeet(Final(INIT, steps).books, Orders(INIT, steps))
  {
    RunMeets(INIT, steps, []);
    assert [] + Orders(INIT, steps) == Orders(INIT, steps);
  }

  // ---------------------------------------------------------------------------------------------
  // One broker
  // ---------------------------------------------------------------------------------------------

  /** As long as no other broker takes handles, the shared counter stands at the previous handle. */
  lemma {:induction false} AloneCounterStays(s: State, steps: seq<Step>)
    requires s.books.counter == s.books.preHandle <= MAX_HANDLE && Runs(s, steps)
    requires forall i :: 0 <= i < |steps| ==> !steps[i].OtherBroker?
    ensures Final(s, steps).books.counter == Final(s, steps).books.preHandle <= MAX_HANDLE
    decreases |steps|
  {
    if steps == [] {
    } else {
      AloneCounterStays(Apply(s, steps[0]), steps[1..]);
    }
  }

  /** Over every run of a single broker: a registration is refused exactly when every other handle is
      live, and before the first success it is never refused. */
  lemma AloneRefusesExactlyWhen(steps: seq<Step>, step: Step)
    requires Runs(INIT, steps) && forall i :: 0 <= i < |steps| ==> !steps[i].OtherBroker?
    requires step.Register? && Enabled(Final(INIT, steps), step)
    ensures var b := Final(INIT, steps).books;
      step.handle == b.preHandle <==>
        b.preHandle != 0 && forall h :: IsHandle(h) && h != b.preHandle ==> h in b.infos
  {
    AloneCounterStays(INIT, steps);
    var b := Final(INIT, steps).books;
    if b.preHandle != 0 {
      AloneFailsExactlyWhen(b.infos.Keys, b.preHandle, step.handle);
    }
  }

  // ---------------------------------------------------------------------------------------------
  // Single steps and a first registration
  // ---------------------------------------------------------------------------------------------

  lemma LeastIs(m: multiset<nat>, x: nat)
    requires IsLeast(m, x)
    ensures m != multiset{} && Least(m) == x
  {
  }

  lemma RunsCons(s: State, step: Step, rest: seq<Step>)
    requires Enabled(s, step) && Runs(Apply(s, step), rest)
    ensures Runs(s, [step] + rest) && Final(s, [step] + rest) == Final(Apply(s, step), rest)
  {
    assert ([step] + rest)[1..] == rest;
  }

  const TIMER_A := TimerInfo(0, 1, 100, 0)
  const BOOKS_A := Books(multiset{100}, map[1 := TIMER_A], map[100 := [TIMER_A]], 1, 1, 1, [], {})
  const HAS_A := State(BOOKS_A, TimerState(true, 100, multiset{100}), Idle, 0, 0)

  /** The first registration of all, for 100. */
  lemma RegisterA()
    ensures Enabled(INIT, Register(0, 100, 0, 1)) && Apply(INIT, Register(0, 100, 0, 1)) == HAS_A
    ensures BOOKS_A.timeline != multiset{} && Least(BOOKS_A.timeline) == 100
  {
    assert [] + [TIMER_A] == [TIMER_A];
    assert multiset{} + multiset{100} == multiset{100};
    LeastIs(multiset{100}, 100);
  }
}

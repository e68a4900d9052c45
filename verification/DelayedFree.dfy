/** The delayed free of common/utils/camera_dynamic_loader.cpp:55-75 and 216-241: per library name one
    slot with a close timer, shared ownership of the timers by the slot and by the calls in progress, and
    a timer's destructor that cancels it and waits for its worker.

    Names do not influence each other, so this is the machine of one name.  A timer is reduced to what
    SimpleTimers proves of one that is started once.  `g_delayedCloseTimerMutex` only delays threads; a
    step here may come between any two accesses to the slot.  The step Fire is a step Free of
    DynamicLoaders, which may come at any time there. */
module DelayedFrees {
  import opened ConditionVariables
  import opened Options
  import SimpleTimers

  type TimerId = nat
  type Status = SimpleTimers.Status

  /** Where a thread is inside CancelFreeDynamicLibDelayed, or FreeDynamicLibDelayed which begins with
      it (`free`); `Back` is behind the call. */
  datatype Call =
    | Found(t: TimerId, free: bool)     // has a copy of the slot
    | Told(t: TimerId, free: bool)      // CancelTask has returned
    | Removed(t: TimerId, free: bool)   // the slot has been erased
    | Cleared                           // about to make a new timer
    | Started(t: TimerId)               // its own timer runs
    | Stored(t: TimerId)                // and is in the slot
    | Joining(t: TimerId, next: Call)   // in the destructor of t
    | Back

  datatype State = State(
    slot: Option<TimerId>,
    timers: map<TimerId, Status>,   // the timers that exist, with their status
    calls: map<ThreadId, Call>,
    next: TimerId,
    freed: seq<TimerId>)            // history: timers whose callback ran FreeDynamiclibNoLock

  datatype Step =
    | Find(th: ThreadId, free: bool)
    | Tell(th: ThreadId)
    | Remove(th: ThreadId)
    | LetGo(th: ThreadId)
    | Begin(th: ThreadId)
    | Store(th: ThreadId)
    | Leave(th: ThreadId)
    | Joined(th: ThreadId)
    | Fire(t: TimerId)
    | Quit(t: TimerId)

  const INIT := State(None, map[], map[], 0, [])

  /** The call keeps t alive. */
  predicate Holds(call: Call, t: TimerId) {
    match call
    case Found(u, _) => t == u
    case Told(u, _) => t == u
    case Removed(u, _) => t == u
    case Started(u) => t == u
    case Stored(u) => t == u
    case Joining(_, next) => Holds(next, t)
    case _ => false
  }

  predicate Referenced(s: State, t: TimerId) {
    s.slot == Some(t) || exists th :: th in s.calls && Holds(s.calls[th], t)
  }

  function Goto(s: State, th: ThreadId, next: Call): State {
    s.(calls := if next.Back? then s.calls - {th} else s.calls[th := next])
  }

  function Stopped(status: Status): Status {
    if status.RUNNING? then SimpleTimers.CANCEL else status
  }

  /** Thread th, on its way to `next`, has given up a reference to t: the last one runs the destructor. */
  function Dropped(s: State, th: ThreadId, t: TimerId, next: Call): State {
    var n := Goto(s, th, next);
    if Referenced(n, t) || t !in s.timers then n
    else s.(timers := s.timers[t := Stopped(s.timers[t])], calls := s.calls[th := Joining(t, next)])
  }

  /** The slot gets a new value, and with it gives up the old one. */
  function Refilled(s: State, th: ThreadId, slot: Option<TimerId>, next: Call): State {
    if s.slot.Some? then Dropped(s.(slot := slot), th, s.slot.value, next)
    else Goto(s.(slot := slot), th, next)
  }

  predicate Enabled(s: State, step: Step) {
    match step
    case Find(th, _) => th !in s.calls
    case Tell(th) => th in s.calls && s.calls[th].Found?
    case Remove(th) => th in s.calls && s.calls[th].Told?
    case LetGo(th) => th in s.calls && s.calls[th].Removed?
    case Begin(th) => th in s.calls && s.calls[th].Cleared?
    case Store(th) => th in s.calls && s.calls[th].Started?
    case Leave(th) => th in s.calls && s.calls[th].Stored?
    case Joined(th) =>
      && th in s.calls && s.calls[th].Joining?
      && s.calls[th].t in s.timers && s.timers[s.calls[th].t].DONE?
    case Fire(t) => t in s.timers && s.timers[t].RUNNING?
    case Quit(t) => t in s.timers && s.timers[t].CANCEL?
  }

  function Apply(s: State, step: Step): State
    requires Enabled(s, step)
  {
    match step
    case Find(th, free) =>
      if s.slot.Some? then Goto(s, th, Found(s.slot.value, free)) else Goto(s, th, if free then Cleared else Back)
    case Tell(th) =>
      var t := s.calls[th].t;
      Goto(if t in s.timers then s.(timers := s.timers[t := Stopped(s.timers[t])]) else s,
           th, Told(t, s.calls[th].free))
    case Remove(th) => Refilled(s, th, None, Removed(s.calls[th].t, s.calls[th].free))
    case LetGo(th) => Dropped(s, th, s.calls[th].t, if s.calls[th].free then Cleared else Back)
    case Begin(th) =>
      Goto(s.(timers := s.timers[s.next := SimpleTimers.RUNNING], next := s.next + 1), th, Started(s.next))
    case Store(th) => Refilled(s, th, Some(s.calls[th].t), Stored(s.calls[th].t))
    case Leave(th) => Dropped(s, th, s.calls[th].t, Back)
    case Joined(th) => Goto(s.(timers := s.timers - {s.calls[th].t}), th, s.calls[th].next)
    case Fire(t) => s.(timers := s.timers[t := SimpleTimers.DONE], freed := s.freed + [t])
    case Quit(t) => s.(timers := s.timers[t := SimpleTimers.DONE])
  }

  predicate Runs(s: State, steps: seq<Step>)
    decreases |steps|
  {
    steps == [] || (Enabled(s, steps[0]) && Runs(Apply(s, steps[0]), steps[1..]))
  }

  function Final(s: State, steps: seq<Step>): State
    requires Runs(s, steps)
    decreases |steps|
  {
    if steps == [] then s else Final(Apply(s, steps[0]), steps[1..])
  }

  // ---------------------------------------------------------------------------------------------
  // Ownership
  // ---------------------------------------------------------------------------------------------

  /** Where a call may go on behind a destructor. */
  predicate Calm(next: Call) {
    next.Removed? || next.Cleared? || next.Stored? || next.Back?
  }

  predicate Joins(s: State, th: ThreadId, t: TimerId) {
    th in s.calls && s.calls[th].Joining? && s.calls[th].t == t
  }

  /** What the slot or a call refers to exists, and what exists is referred to or being destroyed. */
  ghost predicate Owned(s: State) {
    && (forall t :: Referenced(s, t) ==> t in s.timers)
    && (forall t :: t in s.timers ==> Referenced(s, t) || exists th :: Joins(s, th, t))
    && (forall th :: th in s.calls ==> !s.calls[th].Back? && (s.calls[th].Joining? ==> Calm(s.calls[th].next)))
  }

  /** A timer being destroyed has no other reference, one destroyer, and is not running. */
  ghost predicate Destroying(s: State) {
    && (forall th, t :: Joins(s, th, t) ==> t in s.timers && !s.timers[t].RUNNING? && !Referenced(s, t))
    && (forall a, b, t :: Joins(s, a, t) && Joins(s, b, t) ==> a == b)
  }

  /** A timer that has called back is done, and calls back no more. */
  ghost predicate FreedOnce(s: State) {
    && (forall t :: t in s.timers ==> t < s.next && !s.timers[t].IDLE?)
    && (forall i :: 0 <= i < |s.freed| ==>
         s.freed[i] < s.next && (s.freed[i] in s.timers ==> s.timers[s.freed[i]].DONE?))
    && (forall i, j :: 0 <= i < j < |s.freed| ==> s.freed[i] != s.freed[j])
  }

  ghost predicate Inv(s: State) {
    Owned(s) && Destroying(s) && FreedOnce(s)
  }

  lemma ReferencedAfterGoto(s: State, th: ThreadId, next: Call, t: TimerId)
    ensures Referenced(Goto(s, th, next), t) <==>
      s.slot == Some(t) || Holds(next, t) || exists u :: u != th && u in s.calls && Holds(s.calls[u], t)
  {
    var n := Goto(s, th, next);
    if Holds(next, t) {
      assert th in n.calls && Holds(n.calls[th], t);
    }
    if u :| u != th && u in s.calls && Holds(s.calls[u], t) {
      assert u in n.calls && n.calls[u] == s.calls[u];
    }
  }

  /** Timers were stopped or destroyed, and that is all. */
  lemma StoppingKeepsFreed(s: State, n: State)
    requires FreedOnce(s) && n.freed == s.freed && n.next == s.next
    requires forall t :: t in n.timers ==>
      t in s.timers && (n.timers[t] == s.timers[t] || n.timers[t] == Stopped(s.timers[t]))
    ensures FreedOnce(n)
  {
  }

  lemma StepKeepsFreed(s: State, step: Step)
    requires Inv(s) && Enabled(s, step)
    ensures FreedOnce(Apply(s, step))
  {
    if !step.Begin? && !step.Fire? && !step.Quit? {
      StoppingKeepsFreed(s, Apply(s, step));
    }
  }

  lemma QuietKeepsInv(s: State, step: Step)
    requires Inv(s) && Enabled(s, step) && (step.Fire? || step.Quit?)
    ensures Inv(Apply(s, step))
  {
    var n := Apply(s, step);
    assert forall t :: Referenced(n, t) == Referenced(s, t);
    assert forall th, t :: Joins(n, th, t) == Joins(s, th, t);
  }

  lemma GotoKeepsOthers(s: State, th: ThreadId, next: Call)
    ensures forall x, u :: x != th ==> Joins(Goto(s, th, next), x, u) == Joins(s, x, u)
    ensures forall u :: Joins(Goto(s, th, next), th, u) <==> next.Joining? && next.t == u
  {
  }

  /** Nothing is lost or gained but perhaps the reference to t. */
  ghost predicate LosesAtMost(s: State, n: State, t: TimerId) {
    && (forall u :: Referenced(n, u) ==> Referenced(s, u))
    && (forall u :: Referenced(s, u) && u != t ==> Referenced(n, u))
  }

  lemma DroppedKeepsOwned(s: State, m: State, th: ThreadId, t: TimerId, next: Call)
    requires Owned(s) && Destroying(s) && th in s.calls && !s.calls[th].Joining?
    requires m.timers == s.timers && m.calls == s.calls && Calm(next)
    requires Referenced(s, t) && LosesAtMost(s, Goto(m, th, next), t)
    ensures Owned(Dropped(m, th, t, next)) && Destroying(Dropped(m, th, t, next))
  {
    var n := Goto(m, th, next);
    var d := Dropped(m, th, t, next);
    GotoKeepsOthers(m, th, next);
    assert forall x, u :: Joins(m, x, u) == Joins(s, x, u);
    assert forall x, u :: Joins(n, x, u) == Joins(s, x, u);
    if !Referenced(n, t) {
      assert forall u :: Referenced(d, u) == Referenced(n, u) by {
        ReferencedAfterJoin(m, th, t, next);
      }
      assert forall x, u :: x != th ==> Joins(d, x, u) == Joins(n, x, u);
      assert Joins(d, th, t);
    }
  }

  lemma ReferencedAfterJoin(m: State, th: ThreadId, t: TimerId, next: Call)
    ensures var d := Dropped(m, th, t, next); forall u :: Referenced(d, u) == Referenced(Goto(m, th, next), u)
  {
    var n, d := Goto(m, th, next), Dropped(m, th, t, next);
    if d != n {
      assert d.calls == m.calls[th := Joining(t, next)];
      forall u: TimerId
        ensures Referenced(d, u) == Referenced(n, u)
      {
        if x :| x in n.calls && Holds(n.calls[x], u) {
          assert x in d.calls && Holds(d.calls[x], u);
        }
        if x :| x in d.calls && Holds(d.calls[x], u) {
          if x == th {
            assert d.calls[th] == Joining(t, next) && Holds(next, u);
          }
          assert x in n.calls && Holds(n.calls[x], u);
        }
      }
    }
  }

  /** LetGo and Leave: the call gives up its timer. */
  lemma LetGoKeepsInv(s: State, step: Step)
    requires Inv(s) && Enabled(s, step) && (step.LetGo? || step.Leave?)
    ensures Inv(Apply(s, step))
  {
    StepKeepsFreed(s, step);
    var th, t := step.th, s.calls[step.th].t;
    var next := if step.LetGo? && s.calls[th].free then Cleared else Back;
    assert Holds(s.calls[th], t);
    forall u: TimerId
      ensures Referenced(s, u) && u != t ==> Referenced(Goto(s, th, next), u)
      ensures Referenced(Goto(s, th, next), u) ==> Referenced(s, u)
    {
      ReferencedAfterGoto(s, th, next, u);
    }
    DroppedKeepsOwned(s, s, th, t, next);
  }

  /** Remove and Store: the slot gives up its timer, and the call keeps its own. */
  lemma RefillKeepsInv(s: State, step: Step)
    requires Inv(s) && Enabled(s, step) && (step.Remove? || step.Store?)
    ensures Inv(Apply(s, step))
  {
    StepKeepsFreed(s, step);
    var th, t := step.th, s.calls[step.th].t;
    var next := if step.Remove? then Removed(t, s.calls[th].free) else Stored(t);
    var m := s.(slot := if step.Remove? then None else Some(t));
    var n := Goto(m, th, next);
    assert Holds(s.calls[th], t) && Referenced(s, t);
    forall u: TimerId
      ensures Referenced(s, u) && s.slot != Some(u) ==> Referenced(n, u)
      ensures Referenced(n, u) ==> Referenced(s, u)
    {
      ReferencedAfterGoto(m, th, next, u);
    }
    if s.slot.Some? {
      DroppedKeepsOwned(s, m, th, s.slot.value, next);
    } else {
      GotoKeepsOwned(s, n, th);
    }
  }

  /** The same references and the same destructions. */
  lemma GotoKeepsOwned(s: State, n: State, th: ThreadId)
    requires Owned(s) && Destroying(s) && n.timers.Keys == s.timers.Keys
    requires forall t :: t in s.timers && !s.timers[t].RUNNING? ==> !n.timers[t].RUNNING?
    requires forall t :: Referenced(n, t) == Referenced(s, t)
    requires forall x :: x in n.calls && x != th ==> x in s.calls && n.calls[x] == s.calls[x]
    requires forall x :: x in s.calls && x != th ==> x in n.calls
    requires th in s.calls ==> !s.calls[th].Joining?
    requires th in n.calls ==> !n.calls[th].Joining? && !n.calls[th].Back?
    ensures Owned(n) && Destroying(n)
  {
    assert forall x, u :: Joins(n, x, u) == Joins(s, x, u);
  }

  lemma FindKeepsInv(s: State, step: Step)
    requires Inv(s) && Enabled(s, step) && (step.Find? || step.Tell?)
    ensures Inv(Apply(s, step))
  {
    StepKeepsFreed(s, step);
    var n, th := Apply(s, step), step.th;
    forall u: TimerId
      ensures Referenced(n, u) == Referenced(s, u)
    {
      if x :| x in s.calls && Holds(s.calls[x], u) {
        assert x in n.calls && Holds(n.calls[x], u);
      }
    }
    GotoKeepsOwned(s, n, th);
  }

  lemma BeginKeepsInv(s: State, step: Step)
    requires Inv(s) && Enabled(s, step) && step.Begin?
    ensures Inv(Apply(s, step))
  {
    StepKeepsFreed(s, step);
    var n, th := Apply(s, step), step.th;
    assert n.calls[th] == Started(s.next) && Holds(n.calls[th], s.next);
    forall u: TimerId
      ensures Referenced(n, u) <==> Referenced(s, u) || u == s.next
    {
      ReferencedAfterGoto(s.(timers := n.timers, next := n.next), th, Started(s.next), u);
    }
    assert forall x, u :: Joins(n, x, u) == Joins(s, x, u);
  }

  lemma JoinedKeepsInv(s: State, step: Step)
    requires Inv(s) && Enabled(s, step) && step.Joined?
    ensures Inv(Apply(s, step))
  {
    StepKeepsFreed(s, step);
    var n, th := Apply(s, step), step.th;
    var t, next := s.calls[th].t, s.calls[th].next;
    assert Joins(s, th, t);
    forall u: TimerId
      ensures Referenced(n, u) == Referenced(s, u)
    {
      ReferencedAfterGoto(s.(timers := n.timers), th, next, u);
      if Holds(next, u) {
        assert Holds(s.calls[th], u);
      }
    }
    assert forall x, u :: Joins(n, x, u) <==> Joins(s, x, u) && x != th;
  }

  lemma StepKeepsInv(s: State, step: Step)
    requires Inv(s) && Enabled(s, step)
    ensures Inv(Apply(s, step))
  {
    match step
    case Find(_, _) => FindKeepsInv(s, step);
    case Tell(_) => FindKeepsInv(s, step);
    case Remove(_) => RefillKeepsInv(s, step);
    case LetGo(_) => LetGoKeepsInv(s, step);
    case Begin(_) => BeginKeepsInv(s, step);
    case Store(_) => RefillKeepsInv(s, step);
    case Leave(_) => LetGoKeepsInv(s, step);
    case Joined(_) => JoinedKeepsInv(s, step);
    case Fire(_) => QuietKeepsInv(s, step);
    case Quit(_) => QuietKeepsInv(s, step);
  }

  lemma {:induction false} RunKeepsInv(s: State, steps: seq<Step>)
    requires Inv(s) && Runs(s, steps)
    ensures Inv(Final(s, steps))
    decreases |steps|
  {
    if steps == [] {
    } else {
      StepKeepsInv(s, steps[0]);
      RunKeepsInv(Apply(s, steps[0]), steps[1..]);
    }
  }

  // ---------------------------------------------------------------------------------------------
  // What the callers get
  // ---------------------------------------------------------------------------------------------

  /** Over every run: a pending free is one that the slot or a call in progress can still reach, each
      timer frees at most once, and with no call in progress only the slot's timer is pending. */
  lemma NoFreeEscapes(steps: seq<Step>)
    requires Runs(INIT, steps)
    ensures var s := Final(INIT, steps);
      && Inv(s)
      && (forall t :: t in s.timers && s.timers[t].RUNNING? ==> Referenced(s, t))
      && (forall i, j :: 0 <= i < j < |s.freed| ==> s.freed[i] != s.freed[j])
      && (s.calls == map[] ==> forall t :: t in s.timers && s.timers[t].RUNNING? ==> s.slot == Some(t))
  {
    RunKeepsInv(INIT, steps);
    var s := Final(INIT, steps);
    forall t | t in s.timers && s.timers[t].RUNNING?
      ensures Referenced(s, t)
    {
      assert forall th :: !Joins(s, th, t);
    }
  }

  /** A destructor that waits, waits for a timer that is done or only has to notice its cancellation. */
  lemma DestructorEnds(s: State, th: ThreadId, t: TimerId)
    requires Inv(s) && Joins(s, th, t)
    ensures Enabled(s, Joined(th)) || (Enabled(s, Quit(t)) && Enabled(Apply(s, Quit(t)), Joined(th)))
  {
    assert t in s.timers && !s.timers[t].RUNNING? && !s.timers[t].IDLE?;
  }

  predicate Silent(s: State, t: TimerId) {
    t < s.next && (t in s.timers ==> !s.timers[t].RUNNING?)
  }

  /** A timer that is not running never frees again. */
  lemma {:induction false} SilentStaysSilent(s: State, steps: seq<Step>, t: TimerId)
    requires Runs(s, steps) && Silent(s, t)
    ensures Silent(Final(s, steps), t) && (t in Final(s, steps).freed <==> t in s.freed)
    decreases |steps|
  {
    if steps == [] {
    } else {
      SilentStaysSilent(Apply(s, steps[0]), steps[1..], t);
    }
  }

  /** Once CancelTask has returned in any call, the timer that call found frees no more, whatever any
      thread does afterwards. */
  lemma CancelledNeverFrees(s: State, th: ThreadId, steps: seq<Step>)
    requires Inv(s) && Enabled(s, Tell(th)) && Runs(Apply(s, Tell(th)), steps)
    ensures var t := s.calls[th].t; t in Final(Apply(s, Tell(th)), steps).freed <==> t in s.freed
  {
    var t := s.calls[th].t;
    assert Holds(s.calls[th], t) && Referenced(s, t);
    SilentStaysSilent(Apply(s, Tell(th)), steps, t);
  }

  /** All running timers are t. */
  predicate OnlyRuns(s: State, t: TimerId) {
    forall u :: u in s.timers && s.timers[u].RUNNING? ==> u == t
  }

  predicate NothingRuns(s: State) {
    forall u :: u in s.timers ==> !s.timers[u].RUNNING?
  }

  /** Thread th is alone in one of the two calls, and has got this far; its own timer will be `mine`. */
  predicate Alone(s: State, th: ThreadId, free: bool, mine: TimerId) {
    && (forall x :: x in s.calls ==> x == th)
    && (if th !in s.calls then
          if free then s.slot == Some(mine) && OnlyRuns(s, mine) else s.slot == None && NothingRuns(s)
        else match s.calls[th]
          case Found(t, f) => f == free && s.slot == Some(t) && OnlyRuns(s, t) && s.next == mine
          case Told(t, f) => f == free && s.slot == Some(t) && NothingRuns(s) && s.next == mine
          case Removed(_, f) => f == free && s.slot == None && NothingRuns(s) && s.next == mine
          case Cleared => free && s.slot == None && NothingRuns(s) && s.next == mine
          case Started(t) => free && t == mine && s.slot == None && OnlyRuns(s, mine)
          case Stored(t) => free && t == mine && s.slot == Some(mine) && OnlyRuns(s, mine)
          case Joining(_, next) =>
            next == (if free then Cleared else Back) && s.slot == None && NothingRuns(s) && s.next == mine
          case Back => false)
  }

  lemma AloneStep(s: State, step: Step, th: ThreadId, free: bool, mine: TimerId)
    requires Inv(s) && Alone(s, th, free, mine) && Enabled(s, step) && !step.Find?
    ensures Alone(Apply(s, step), th, free, mine)
  {
    if step.Remove? {
      ReferencedAfterGoto(s.(slot := None), th, Removed(s.calls[th].t, free), s.calls[th].t);
    }
  }

  lemma {:induction false} AloneRun(s: State, steps: seq<Step>, th: ThreadId, free: bool, mine: TimerId)
    requires Inv(s) && Alone(s, th, free, mine) && Runs(s, steps)
    requires forall i :: 0 <= i < |steps| ==> !steps[i].Find?
    ensures Inv(Final(s, steps)) && Alone(Final(s, steps), th, free, mine)
    decreases |steps|
  {
    if steps == [] {
    } else {
      AloneStep(s, steps[0], th, free, mine);
      StepKeepsInv(s, steps[0]);
      AloneRun(Apply(s, steps[0]), steps[1..], th, free, mine);
    }
  }

  /** A call that no other call overlaps, however it interleaves with the timers: when it is over, a
      cancellation has left no free pending and the slot empty; a new delayed free has left its own
      timer in the slot and no older free pending. */
  lemma LoneCallSupersedes(s: State, th: ThreadId, free: bool, steps: seq<Step>)
    requires Inv(s) && s.calls == map[] && Runs(Apply(s, Find(th, free)), steps)
    requires forall i :: 0 <= i < |steps| ==> !steps[i].Find?
    ensures var e := Final(Apply(s, Find(th, free)), steps);
      e.calls == map[] ==>
        && e.slot == (if free then Some(s.next) else None)
        && (forall t :: t in e.timers && e.timers[t].RUNNING? ==> free && t == s.next)
  {
    forall t | t in s.timers && s.timers[t].RUNNING?
      ensures s.slot == Some(t)
    {
      assert forall x :: !Joins(s, x, t);
    }
    StepKeepsInv(s, Find(th, free));
    AloneRun(Apply(s, Find(th, free)), steps, th, free, s.next);
  }

  // ---------------------------------------------------------------------------------------------
  // Delayed frees that overlap
  // ---------------------------------------------------------------------------------------------

  /** The call belongs to a delayed free. */
  predicate ForFree(call: Call) {
    match call
    case Found(_, free) => free
    case Told(_, free) => free
    case Removed(_, free) => free
    case Joining(_, next) => ForFree(next)
    case _ => true
  }

  /** The call has yet to put its timer into the slot. */
  predicate WillStore(call: Call) {
    match call
    case Found(_, _) => true
    case Told(_, _) => true
    case Removed(_, _) => true
    case Cleared => true
    case Started(_) => true
    case Joining(_, next) => WillStore(next)
    case _ => false
  }

  ghost predicate SomeoneWillStore(s: State) {
    exists th :: th in s.calls && WillStore(s.calls[th])
  }

  /** The timer has freed the library, or still will. */
  predicate Kept(s: State, t: TimerId) {
    t in s.freed || (t in s.timers && s.timers[t].RUNNING?)
  }

  /** A timer that is not yet in the slot belongs to its call alone. */
  ghost predicate OwnTimers(s: State) {
    forall th :: th in s.calls && s.calls[th].Started? ==>
      var t := s.calls[th].t;
      Kept(s, t) && s.slot != Some(t) && forall x :: x in s.calls && x != th ==> !Holds(s.calls[x], t)
  }

  /** Only delayed frees are under way, and the slot holds a kept timer unless one of them will store
      its own. */
  ghost predicate OnlyFrees(s: State) {
    && (forall th :: th in s.calls ==> ForFree(s.calls[th]))
    && OwnTimers(s)
    && (SomeoneWillStore(s) || (s.slot.Some? && Kept(s, s.slot.value)))
  }

  /** A step of a delayed free, or of a timer. */
  predicate FreeStep(step: Step) {
    step.Find? ==> step.free
  }

  lemma CallsStayForFree(s: State, step: Step)
    requires OnlyFrees(s) && Enabled(s, step) && FreeStep(step)
    ensures forall th :: th in Apply(s, step).calls ==> ForFree(Apply(s, step).calls[th])
  {
  }

  /** The destructor stops only a timer that nobody refers to. */
  lemma DroppedKeepsReferenced(m: State, th: ThreadId, u: TimerId, next: Call, t: TimerId)
    requires Referenced(Dropped(m, th, u, next), t)
    ensures t in m.timers ==> Dropped(m, th, u, next).timers[t] == m.timers[t]
    ensures Dropped(m, th, u, next).freed == m.freed
  {
    ReferencedAfterJoin(m, th, u, next);
  }

  /** Only CancelTask and the destructor stop a timer, and neither can reach this one. */
  lemma StaysKept(s: State, step: Step, t: TimerId)
    requires Inv(s) && Enabled(s, step) && Kept(s, t)
    requires step.Tell? ==> s.calls[step.th].t != t
    requires Referenced(Apply(s, step), t)
    ensures Kept(Apply(s, step), t)
  {
    match step
    case Remove(th) =>
      if s.slot.Some? {
        var call := s.calls[th];
        DroppedKeepsReferenced(s.(slot := None), th, s.slot.value, Removed(call.t, call.free), t);
      }
    case Store(th) =>
      if s.slot.Some? {
        var u := s.calls[th].t;
        DroppedKeepsReferenced(s.(slot := Some(u)), th, s.slot.value, Stored(u), t);
      }
    case LetGo(th) => DroppedKeepsReferenced(s, th, s.calls[th].t, if s.calls[th].free then Cleared else Back, t);
    case Leave(th) => DroppedKeepsReferenced(s, th, s.calls[th].t, Back, t);
    case _ =>
  }

  /** Holding and starting do not come from nowhere. */
  lemma HoldersBefore(s: State, step: Step, x: ThreadId, t: TimerId)
    requires Inv(s) && Enabled(s, step) && x in Apply(s, step).calls && Holds(Apply(s, step).calls[x], t)
    requires t < s.next && s.slot != Some(t)
    ensures x in s.calls && Holds(s.calls[x], t)
  {
  }

  lemma StartedBefore(s: State, step: Step, th: ThreadId)
    requires Inv(s) && Enabled(s, step) && th in Apply(s, step).calls && Apply(s, step).calls[th].Started?
    requires !(step.Begin? && step.th == th)
    ensures th in s.calls && s.calls[th] == Apply(s, step).calls[th]
    ensures step.Remove? || step.Store? ==> step.th != th
  {
  }

  lemma OwnTimerStays(s: State, step: Step, th: ThreadId)
    requires Inv(s) && OnlyFrees(s) && Enabled(s, step) && !(step.Begin? && step.th == th)
    requires th in Apply(s, step).calls && Apply(s, step).calls[th].Started?
    ensures var n := Apply(s, step); var t := n.calls[th].t;
      Kept(n, t) && n.slot != Some(t) && forall x :: x in n.calls && x != th ==> !Holds(n.calls[x], t)
  {
    StartedBefore(s, step, th);
    var n := Apply(s, step);
    var t := n.calls[th].t;
    assert Holds(n.calls[th], t) && Referenced(n, t);
    assert Holds(s.calls[th], t) && Referenced(s, t);
    StaysKept(s, step, t);
    forall x | x in n.calls && x != th
      ensures !Holds(n.calls[x], t)
    {
      if Holds(n.calls[x], t) {
        HoldersBefore(s, step, x, t);
      }
    }
    if step.Store? {
      assert !Holds(s.calls[step.th], t);
    }
  }

  lemma NewTimerIsOwn(s: State, th: ThreadId)
    requires Inv(s) && Enabled(s, Begin(th))
    ensures var n := Apply(s, Begin(th));
      && n.calls[th] == Started(s.next) && Kept(n, s.next) && n.slot != Some(s.next)
      && forall x :: x in n.calls && x != th ==> !Holds(n.calls[x], s.next)
  {
    assert !Referenced(s, s.next);
  }

  lemma OwnTimersStay(s: State, step: Step)
    requires Inv(s) && OnlyFrees(s) && Enabled(s, step)
    ensures OwnTimers(Apply(s, step))
  {
    var n := Apply(s, step);
    forall th | th in n.calls && n.calls[th].Started?
      ensures var t := n.calls[th].t;
        Kept(n, t) && n.slot != Some(t) && forall x :: x in n.calls && x != th ==> !Holds(n.calls[x], t)
    {
      if step.Begin? && step.th == th {
        NewTimerIsOwn(s, th);
      } else {
        OwnTimerStays(s, step, th);
      }
    }
  }

  lemma StillWillStore(s: State, step: Step, th: ThreadId)
    requires Enabled(s, step) && th in s.calls && WillStore(s.calls[th]) && ForFree(s.calls[th])
    requires !(step.Store? && step.th == th)
    ensures th in Apply(s, step).calls && WillStore(Apply(s, step).calls[th])
  {
  }

  lemma SlotStaysKept(s: State, step: Step)
    requires Inv(s) && OnlyFrees(s) && Enabled(s, step) && FreeStep(step)
    ensures var n := Apply(s, step); SomeoneWillStore(n) || (n.slot.Some? && Kept(n, n.slot.value))
  {
    var n := Apply(s, step);
    if th :| th in s.calls && WillStore(s.calls[th]) && !(step.Store? && step.th == th) {
      StillWillStore(s, step, th);
    } else if step.Find? {
      assert step.th in n.calls && WillStore(n.calls[step.th]);
    } else if step.Store? {
      var t := s.calls[step.th].t;
      assert n.slot == Some(t) && Referenced(n, t);
      StaysKept(s, step, t);
    } else {
      assert !SomeoneWillStore(s);
      assert n.slot == s.slot && Referenced(n, s.slot.value);
      StaysKept(s, step, s.slot.value);
    }
  }

  lemma {:induction false} OnlyFreesStays(s: State, steps: seq<Step>)
    requires Inv(s) && OnlyFrees(s) && Runs(s, steps)
    requires forall i :: 0 <= i < |steps| ==> FreeStep(steps[i])
    ensures OnlyFrees(Final(s, steps))
    decreases |steps|
  {
    if steps == [] {
    } else {
      StepKeepsInv(s, steps[0]);
      CallsStayForFree(s, steps[0]);
      OwnTimersStay(s, steps[0]);
      SlotStaysKept(s, steps[0]);
      OnlyFreesStays(Apply(s, steps[0]), steps[1..]);
    }
  }

  /** However delayed frees overlap: once none is in progress, the slot holds a timer that nobody
      cancelled, so the library has been freed by it or still will be, and no other free is pending. */
  lemma OverlappingFreesKeepOne(steps: seq<Step>)
    requires Runs(INIT, steps) && steps != [] && forall i :: 0 <= i < |steps| ==> FreeStep(steps[i])
    ensures var e := Final(INIT, steps);
      e.calls == map[] ==>
        && e.slot.Some? && Kept(e, e.slot.value)
        && (forall t :: t in e.timers && e.timers[t].RUNNING? ==> e.slot == Some(t))
  {
    NoFreeEscapes(steps);
    var n := Apply(INIT, steps[0]);
    StepKeepsInv(INIT, steps[0]);
    assert n.calls == map[steps[0].th := Cleared];
    assert steps[0].th in n.calls && WillStore(n.calls[steps[0].th]);
    OnlyFreesStays(n, steps[1..]);
  }

  // ---------------------------------------------------------------------------------------------
  // Cancellations that overlap
  // ---------------------------------------------------------------------------------------------

  /** The call belongs to a cancellation alone. */
  predicate ForCancel(call: Call) {
    match call
    case Found(_, free) => !free
    case Told(_, free) => !free
    case Removed(_, free) => !free
    case Joining(_, next) => ForCancel(next)
    case Back => true
    case _ => false
  }

  ghost predicate AllForCancel(s: State) {
    forall th :: th in s.calls ==> ForCancel(s.calls[th])
  }

  ghost predicate FoundInSlot(s: State) {
    forall th :: th in s.calls && (s.calls[th].Found? || s.calls[th].Told?) ==>
      s.slot == None || s.slot == Some(s.calls[th].t)
  }

  ghost predicate RunsUntold(s: State) {
    forall t :: t in s.timers && s.timers[t].RUNNING? ==>
      s.slot == Some(t) && forall th :: th in s.calls && s.calls[th].Told? ==> s.calls[th].t != t
  }

  /** Only cancellations are under way: what they have found is in the slot or the slot is empty, and
      nothing runs but a timer in the slot that none of them has told. */
  ghost predicate OnlyCancels(s: State) {
    AllForCancel(s) && FoundInSlot(s) && RunsUntold(s)
  }

  /** The slot is empty or some cancellation will empty it. */
  ghost predicate Emptying(s: State) {
    s.slot == None || exists th :: th in s.calls && (s.calls[th].Found? || s.calls[th].Told?)
  }

  lemma CancelStepKeepsFound(s: State, step: Step)
    requires Inv(s) && OnlyCancels(s) && Enabled(s, step) && (step.Find? ==> !step.free)
    ensures AllForCancel(Apply(s, step)) && FoundInSlot(Apply(s, step))
  {
  }

  lemma CancelStepKeepsUntold(s: State, step: Step)
    requires Inv(s) && OnlyCancels(s) && Enabled(s, step) && (step.Find? ==> !step.free)
    ensures RunsUntold(Apply(s, step))
  {
    if step.Tell? || step.Remove? {
      assert Holds(s.calls[step.th], s.calls[step.th].t);
      assert Referenced(s, s.calls[step.th].t);
    }
  }

  lemma CancelStepKeepsOnly(s: State, step: Step)
    requires Inv(s) && OnlyCancels(s) && Enabled(s, step) && (step.Find? ==> !step.free)
    ensures OnlyCancels(Apply(s, step))
  {
    CancelStepKeepsFound(s, step);
    CancelStepKeepsUntold(s, step);
  }

  lemma CancelStepKeepsEmptying(s: State, step: Step)
    requires Inv(s) && OnlyCancels(s) && Enabled(s, step) && (step.Find? ==> !step.free)
    requires step.Find? || Emptying(s)
    ensures Emptying(Apply(s, step))
  {
    var n := Apply(s, step);
    if step.Find? && s.slot.Some? {
      assert step.th in n.calls && n.calls[step.th].Found?;
    } else if step.Tell? {
      assert step.th in n.calls && n.calls[step.th].Told?;
    } else if s.slot.Some? && !step.Find? && !step.Remove? {
      var th :| th in s.calls && (s.calls[th].Found? || s.calls[th].Told?);
      assert th in n.calls && n.calls[th] == s.calls[th];
    }
  }

  lemma {:induction false} OnlyCancelsStays(s: State, steps: seq<Step>)
    requires Inv(s) && OnlyCancels(s) && Emptying(s) && Runs(s, steps)
    requires forall i :: 0 <= i < |steps| && steps[i].Find? ==> !steps[i].free
    ensures OnlyCancels(Final(s, steps)) && Emptying(Final(s, steps))
    decreases |steps|
  {
    if steps == [] {
    } else {
      StepKeepsInv(s, steps[0]);
      CancelStepKeepsOnly(s, steps[0]);
      CancelStepKeepsEmptying(s, steps[0]);
      OnlyCancelsStays(Apply(s, steps[0]), steps[1..]);
    }
  }

  /** However cancellations overlap, from any moment without a call on: once the first has begun and
      none is in progress any more, the slot is empty and no free is pending. */
  lemma OverlappingCancelsLeaveNone(before: seq<Step>, th: ThreadId, steps: seq<Step>)
    requires Runs(INIT, before) && Final(INIT, before).calls == map[]
    requires Runs(Apply(Final(INIT, before), Find(th, false)), steps)
    requires forall i :: 0 <= i < |steps| && steps[i].Find? ==> !steps[i].free
    ensures var e := Final(Apply(Final(INIT, before), Find(th, false)), steps);
      e.calls == map[] ==> e.slot == None && NothingRuns(e)
  {
    NoFreeEscapes(before);
    var s := Final(INIT, before);
    StepKeepsInv(s, Find(th, false));
    CancelStepKeepsOnly(s, Find(th, false));
    CancelStepKeepsEmptying(s, Find(th, false));
    OnlyCancelsStays(Apply(s, Find(th, false)), steps);
  }

  // ---------------------------------------------------------------------------------------------
  // The timers themselves
  // ---------------------------------------------------------------------------------------------

  /** How a SimpleTimer looks to those who take its mutex: from the moment its callback begins it is as
      good as done. */
  function Seen(s: SimpleTimers.State): Status {
    if SimpleTimers.MutexFree(s) then s.status else SimpleTimers.DONE
  }

  /** A SimpleTimer that has been started takes only the steps of this machine: its callback is Fire, the
      end of a cancelled worker is Quit, CancelTask and the destructor stop it as Tell and the last
      reference do, and the destructor returns only where Joined may. */
  lemma TimerRefines(s: SimpleTimers.State, step: SimpleTimers.Step)
    requires SimpleTimers.Inv(s) && !s.status.IDLE? && SimpleTimers.Enabled(s, step) && !step.StartTask?
    ensures var n := SimpleTimers.Apply(s, step);
      && !n.status.IDLE?
      && (n.destruction.Destroyed? && !s.destruction.Destroyed? ==> Seen(s).DONE?)
      && if step.CancelTask? || step.Destroy? then Seen(n) == Stopped(Seen(s)) && n.fired == s.fired
         else if n.fired != s.fired then
           Seen(s).RUNNING? && Seen(n).DONE? && n.fired == s.fired + [s.starts - 1]
         else Seen(n) == Seen(s) || (Seen(s).CANCEL? && Seen(n).DONE?)
  {
    SimpleTimers.StepKeepsInvExactlyWhen(s, step);
    var n := SimpleTimers.Apply(s, step);
    if step.Sleep? || step.Wake? || step.Expire? || step.CallbackReturns? {
      assert step.w in s.workers.Keys;
      assert step.Expire? && s.status.RUNNING? ==> step.w in n.workers;
    }
  }
}

/** common/src/task_manager/thread_pool.cpp: submitters and workers around one deque and one
    condition variable, whose `notify_one` is sent after the mutex has been released.

    Tasks are named by the order of their submission: 0, 1, 2, ... */
module ThreadPools {
  import opened ConditionVariables
  import opened Options

  type TaskId = nat

  datatype State = State(
    tasks: seq<TaskId>,
    workers: Waiters,              // workers waiting on taskCv_
    announcing: set<ThreadId>,     // submitters between the unlock and their notify_one
    stopped: bool,
    started: seq<TaskId>,          // history: tasks handed to a worker, in order
    urgent: set<TaskId>,
    submitted: nat)

  datatype Step =
    // `sawStop` is what the unlocked read of isStopped_ returned, possibly before it became true.
    | Submit(t: ThreadId, isUrgent: bool, sawStop: bool)
    | Announce(t: ThreadId, wake: Option<ThreadId>)
    | GetTask(w: ThreadId)
    | GetTaskResume(w: ThreadId)
    | SetStopped
    | NotifyStopped

  const INIT := State([], NO_WAITERS, {}, false, [], {}, 0)

  predicate Idle(s: State, t: ThreadId) {
    !s.workers.Has(t) && t !in s.announcing
  }

  predicate Enabled(s: State, step: Step) {
    match step
    case Submit(t, _, sawStop) => Idle(s, t) && (sawStop ==> s.stopped)
    case Announce(t, wake) => t in s.announcing && s.workers.Choice(wake)
    case GetTask(w) => Idle(s, w)
    case GetTaskResume(w) => s.workers.Has(w)
    case _ => true
  }

  function Enqueue(s: State, isUrgent: bool): State {
    if isUrgent then
      s.(tasks := [s.submitted] + s.tasks, urgent := s.urgent + {s.submitted}, submitted := s.submitted + 1)
    else
      s.(tasks := s.tasks + [s.submitted], submitted := s.submitted + 1)
  }

  function Dequeue(s: State): State
    requires s.tasks != []
  {
    s.(tasks := s.tasks[1..], started := s.started + [s.tasks[0]])
  }

  function Apply(s: State, step: Step): State
    requires Enabled(s, step)
  {
    match step
    case Submit(t, isUrgent, sawStop) =>
      if sawStop then s else Enqueue(s, isUrgent).(announcing := s.announcing + {t})
    case Announce(t, wake) => s.(announcing := s.announcing - {t}, workers := s.workers.NotifyOne(wake))
    case GetTask(w) =>
      if s.stopped then s
      else if s.tasks != [] then Dequeue(s)
      else s.(workers := s.workers.Park(w))
    case GetTaskResume(w) =>
      if s.stopped then s.(workers := s.workers.Leave(w))
      else if s.tasks != [] then Dequeue(s.(workers := s.workers.Leave(w)))
      else s.(workers := s.workers.Park(w))
    case SetStopped => s.(stopped := true)
    case NotifyStopped => s.(workers := s.workers.NotifyAll())
  }

  predicate Runs(s: State, steps: seq<Step>)
    decreases |steps|
  {
    steps == [] || (Enabled(s, steps[0]) && Runs(Apply(s, steps[0]), steps[1..]))
  }

  function Final(s: State, steps: seq<Step>): State
    requires Runs(s, steps)
    decreases |steps|
  {
    if steps == [] then s else Final(Apply(s, steps[0]), steps[1..])
  }

  // ---------------------------------------------------------------------------------------------
  // Wake-ups
  // ---------------------------------------------------------------------------------------------

  /** While a worker is parked, every pending task has a woken worker or a notification on its way. */
  ghost predicate Covered(s: State) {
    && s.workers.Valid()
    && (s.workers.parked != {} ==> |s.workers.woken| + |s.announcing| >= |s.tasks|)
  }

  predicate BeforeStop(step: Step) {
    !step.SetStopped? && !step.NotifyStopped?
  }

  lemma StepKeepsCovered(s: State, step: Step)
    requires Covered(s) && !s.stopped && Enabled(s, step) && BeforeStop(step)
    ensures Covered(Apply(s, step)) && !Apply(s, step).stopped
  {
    match step
    case Submit(t, isUrgent, sawStop) =>
    case Announce(t, wake) => NotifyOneMovesOne(s.workers, wake);
    case GetTask(w) => ParkMoves(s.workers, w);
    case GetTaskResume(w) =>
      ParkMoves(s.workers, w);
      LeaveMoves(s.workers, w);
  }

  /** Until the pool is stopped, no interleaving of any number of submitters and workers loses a
      wake-up. */
  lemma {:induction false} NoWakeupLostBeforeStop(s: State, steps: seq<Step>)
    requires Covered(s) && !s.stopped && Runs(s, steps)
    requires forall i :: 0 <= i < |steps| ==> BeforeStop(steps[i])
    ensures Covered(Final(s, steps))
    decreases |steps|
  {
    if steps == [] {
    } else {
      StepKeepsCovered(s, steps[0]);
      NoWakeupLostBeforeStop(Apply(s, steps[0]), steps[1..]);
    }
  }

  // ---------------------------------------------------------------------------------------------
  // Order
  // ---------------------------------------------------------------------------------------------

  /** All tasks ever submitted, in the order in which they start if nothing more is submitted. */
  function Order(s: State): seq<TaskId> {
    s.started + s.tasks
  }

  ghost predicate Before(order: seq<TaskId>, a: TaskId, b: TaskId) {
    exists i, j :: 0 <= i < j < |order| && order[i] == a && order[j] == b
  }

  ghost predicate Placed(order: seq<TaskId>, a: TaskId) {
    exists i :: 0 <= i < |order| && order[i] == a
  }

  ghost predicate PlacedOnce(o: seq<TaskId>, n: nat) {
    && (forall a: TaskId :: a < n <==> Placed(o, a))
    && (forall i, j :: 0 <= i < j < |o| ==> o[i] != o[j])
  }

  ghost predicate NormalsAscend(o: seq<TaskId>, urgent: set<TaskId>) {
    forall i, j :: 0 <= i < j < |o| && o[i] !in urgent && o[j] !in urgent ==> o[i] < o[j]
  }

  /** Every one of the n submitted tasks has exactly one place in the order, and tasks that are not
      urgent keep the order of their submission. */
  ghost predicate Orderly(o: seq<TaskId>, urgent: set<TaskId>, n: nat) {
    PlacedOnce(o, n) && NormalsAscend(o, urgent)
  }

  ghost predicate WellOrdered(s: State) {
    Orderly(Order(s), s.urgent, s.submitted)
  }

  /** A submission appends the new task to the order or puts it right behind the tasks that have
      started; no other step changes the order. */
  lemma StepInsertsOnly(s: State, step: Step)
    requires Enabled(s, step)
    ensures var n := Apply(s, step);
      if step.Submit? && !step.sawStop then
        && n.submitted == s.submitted + 1
        && n.urgent == (if step.isUrgent then s.urgent + {s.submitted} else s.urgent)
        && Order(n) == (if step.isUrgent then s.started + [s.submitted] + s.tasks else Order(s) + [s.submitted])
      else
        Order(n) == Order(s) && n.submitted == s.submitted && n.urgent == s.urgent
  {
    var n := Apply(s, step);
    if n.started != s.started {
      assert s.tasks == [s.tasks[0]] + s.tasks[1..];
    }
  }

  /** `order` with `n` inserted at position k. */
  function Inserted(order: seq<TaskId>, k: nat, n: TaskId): (p: seq<TaskId>)
    requires k <= |order|
    ensures |p| == |order| + 1 && p[k] == n
  {
    order[..k] + [n] + order[k..]
  }

  /** Where the insertion at k moves position i, and where position i came from. */
  function NewPlace(i: nat, k: nat): nat {
    if i < k then i else i + 1
  }

  function OldPlace(i: nat, k: nat): nat
    requires i != k
  {
    if i < k then i else i - 1
  }

  lemma MovedTo(o: seq<TaskId>, k: nat, n: TaskId, i: nat)
    requires k <= |o| && i < |o|
    ensures Inserted(o, k, n)[NewPlace(i, k)] == o[i]
  {
  }

  lemma MovedFrom(o: seq<TaskId>, k: nat, n: TaskId, i: nat)
    requires k <= |o| && i <= |o| && i != k
    ensures Inserted(o, k, n)[i] == o[OldPlace(i, k)]
  {
  }

  lemma InsertPlaces(o: seq<TaskId>, k: nat, n: TaskId, a: TaskId)
    requires k <= |o|
    ensures Placed(Inserted(o, k, n), a) <==> Placed(o, a) || a == n
  {
    var p := Inserted(o, k, n);
    if i :| 0 <= i < |o| && o[i] == a {
      MovedTo(o, k, n, i);
      assert p[NewPlace(i, k)] == a;
    }
    if i :| 0 <= i < |p| && p[i] == a && i != k {
      MovedFrom(o, k, n, i);
      assert o[OldPlace(i, k)] == a;
    }
    if a == n {
      assert p[k] == a;
    }
  }

  lemma AllBelow(o: seq<TaskId>, n: nat)
    requires PlacedOnce(o, n)
    ensures forall i :: 0 <= i < |o| ==> o[i] < n
  {
    forall i | 0 <= i < |o|
      ensures o[i] < n
    {
      assert Placed(o, o[i]);
    }
  }

  lemma InsertedDiffer(o: seq<TaskId>, n: nat, k: nat, i: nat, j: nat)
    requires PlacedOnce(o, n) && k <= |o| && i < j <= |o|
    ensures Inserted(o, k, n)[i] != Inserted(o, k, n)[j]
  {
    AllBelow(o, n);
    if i == k {
      MovedFrom(o, k, n, j);
    } else if j == k {
      MovedFrom(o, k, n, i);
    } else {
      MovedFrom(o, k, n, i);
      MovedFrom(o, k, n, j);
    }
  }

  lemma InsertPlacesOnce(o: seq<TaskId>, n: nat, k: nat)
    requires PlacedOnce(o, n) && k <= |o|
    ensures PlacedOnce(Inserted(o, k, n), n + 1)
  {
    var p := Inserted(o, k, n);
    forall a: TaskId
      ensures a < n + 1 <==> Placed(p, a)
    {
      InsertPlaces(o, k, n, a);
    }
    forall i, j | 0 <= i < j < |p|
      ensures p[i] != p[j]
    {
      InsertedDiffer(o, n, k, i, j);
    }
  }

  lemma InsertedAscend(o: seq<TaskId>, urgent: set<TaskId>, n: nat, k: nat, urgent': set<TaskId>, i: nat, j: nat)
    requires PlacedOnce(o, n) && NormalsAscend(o, urgent) && k <= |o|
    requires (k == |o| && urgent' == urgent) || urgent' == urgent + {n}
    requires i < j <= |o| && Inserted(o, k, n)[i] !in urgent' && Inserted(o, k, n)[j] !in urgent'
    ensures Inserted(o, k, n)[i] < Inserted(o, k, n)[j]
  {
    AllBelow(o, n);
    if j == k {
      MovedFrom(o, k, n, i);
    } else if i != k {
      MovedFrom(o, k, n, i);
      MovedFrom(o, k, n, j);
    }
  }

  lemma InsertAscends(o: seq<TaskId>, urgent: set<TaskId>, n: nat, k: nat, urgent': set<TaskId>)
    requires PlacedOnce(o, n) && NormalsAscend(o, urgent) && k <= |o|
    requires (k == |o| && urgent' == urgent) || urgent' == urgent + {n}
    ensures NormalsAscend(Inserted(o, k, n), urgent')
  {
    var p := Inserted(o, k, n);
    forall i, j | 0 <= i < j < |p| && p[i] !in urgent' && p[j] !in urgent'
      ensures p[i] < p[j]
    {
      InsertedAscend(o, urgent, n, k, urgent', i, j);
    }
  }

  lemma InsertKeepsOrder(o: seq<TaskId>, urgent: set<TaskId>, n: nat, k: nat, urgent': set<TaskId>)
    requires Orderly(o, urgent, n) && k <= |o|
    requires (k == |o| && urgent' == urgent) || urgent' == urgent + {n}
    ensures Orderly(Inserted(o, k, n), urgent', n + 1)
  {
    InsertPlacesOnce(o, n, k);
    InsertAscends(o, urgent, n, k, urgent');
  }

  lemma StepInserts(s: State, step: Step) returns (k: nat)
    requires Enabled(s, step) && step.Submit? && !step.sawStop
    ensures k <= |Order(s)| && (k < |Order(s)| ==> step.isUrgent)
    ensures Order(Apply(s, step)) == Inserted(Order(s), k, s.submitted)
  {
    StepInsertsOnly(s, step);
    var o := Order(s);
    k := if step.isUrgent then |s.started| else |o|;
    assert o[..k] + [s.submitted] + o[k..] == Order(Apply(s, step));
  }

  lemma StepKeepsOrder(s: State, step: Step)
    requires WellOrdered(s) && Enabled(s, step)
    ensures WellOrdered(Apply(s, step))
  {
    StepInsertsOnly(s, step);
    if step.Submit? && !step.sawStop {
      var k := StepInserts(s, step);
      InsertKeepsOrder(Order(s), s.urgent, s.submitted, k, Apply(s, step).urgent);
    }
  }

  lemma InsertKeepsBefore(o: seq<TaskId>, k: nat, n: TaskId, a: TaskId, b: TaskId)
    requires k <= |o| && Before(o, a, b)
    ensures Before(Inserted(o, k, n), a, b)
  {
    var p := Inserted(o, k, n);
    var i, j :| 0 <= i < j < |o| && o[i] == a && o[j] == b;
    MovedTo(o, k, n, i);
    MovedTo(o, k, n, j);
    assert p[NewPlace(i, k)] == a && p[NewPlace(j, k)] == b;
  }

  lemma StepKeepsBefore(s: State, step: Step, a: TaskId, b: TaskId)
    requires Enabled(s, step) && Before(Order(s), a, b)
    ensures Before(Order(Apply(s, step)), a, b)
  {
    StepInsertsOnly(s, step);
    if step.Submit? && !step.sawStop {
      var k := StepInserts(s, step);
      InsertKeepsBefore(Order(s), k, s.submitted, a, b);
    }
  }

  /** Over every run, stopped or not, each submitted task starts at most once, tasks that are not
      urgent start in submission order, and no later submission changes who goes first between two
      tasks already submitted. */
  lemma {:induction false} OrderIsStable(s: State, steps: seq<Step>)
    requires WellOrdered(s) && Runs(s, steps)
    ensures WellOrdered(Final(s, steps))
    ensures forall a, b :: Before(Order(s), a, b) ==> Before(Order(Final(s, steps)), a, b)
    decreases |steps|
  {
    if steps == [] {
    } else {
      var n := Apply(s, steps[0]);
      StepKeepsOrder(s, steps[0]);
      OrderIsStable(n, steps[1..]);
      forall a, b | Before(Order(s), a, b)
        ensures Before(Order(n), a, b)
      {
        StepKeepsBefore(s, steps[0], a, b);
      }
    }
  }

  /** If `a` goes before `b` and `b` has started, then `a` started earlier. */
  lemma BeforeMeansEarlier(s: State, a: TaskId, b: TaskId)
    requires WellOrdered(s) && Before(Order(s), a, b) && b in s.started
    ensures exists i, j :: 0 <= i < j < |s.started| && s.started[i] == a && s.started[j] == b
  {
    var o := Order(s);
    var i, j :| 0 <= i < j < |o| && o[i] == a && o[j] == b;
    var k :| 0 <= k < |s.started| && s.started[k] == b;
    assert o[k] == b;
    assert k == j;
    assert s.started[i] == a;
  }

  /** An urgent task starts before every task that was queued when it was submitted, whatever is
      submitted or taken afterwards. */
  lemma UrgentStartsFirst(s: State, t: ThreadId, steps: seq<Step>, q: TaskId)
    requires WellOrdered(s) && Enabled(s, Submit(t, true, false)) && q in s.tasks
    requires Runs(Apply(s, Submit(t, true, false)), steps)
    ensures var e := Final(Apply(s, Submit(t, true, false)), steps);
      q in e.started ==>
        exists i, j :: 0 <= i < j < |e.started| && e.started[i] == s.submitted && e.started[j] == q
  {
    var n := Apply(s, Submit(t, true, false));
    var k :| 0 <= k < |s.tasks| && s.tasks[k] == q;
    var o := Order(n);
    assert o[|s.started|] == s.submitted && o[|s.started| + 1 + k] == q;
    StepKeepsOrder(s, Submit(t, true, false));
    OrderIsStable(n, steps);
    var e := Final(n, steps);
    if q in e.started {
      BeforeMeansEarlier(e, s.submitted, q);
    }
  }

  /** Two tasks that are not urgent start in the order of their submission. */
  lemma NormalTasksStartInOrder(steps: seq<Step>, a: TaskId, b: TaskId)
    requires Runs(INIT, steps)
    requires var e := Final(INIT, steps); a < b && b in e.started && a !in e.urgent && b !in e.urgent
    ensures var e := Final(INIT, steps);
      exists i, j :: 0 <= i < j < |e.started| && e.started[i] == a && e.started[j] == b
  {
    OrderIsStable(INIT, steps);
    var e := Final(INIT, steps);
    var o := Order(e);
    var j :| 0 <= j < |e.started| && e.started[j] == b;
    assert o[j] == b;
    assert Placed(o, b) && Placed(o, a);
    var i :| 0 <= i < |o| && o[i] == a;
    assert e.started[i] == a;
  }

  /** The task at the front of the deque has not been started. */
  lemma HeadIsNew(s: State)
    requires WellOrdered(s) && s.tasks != []
    ensures s.tasks[0] !in s.started
  {
    var o := Order(s);
    assert o[|s.started|] == s.tasks[0];
    assert forall k :: 0 <= k < |s.started| ==> o[k] == s.started[k];
  }

  /** From construction: the wake-up and the order guarantees together. */
  lemma EveryReachablePool(steps: seq<Step>)
    requires Runs(INIT, steps)
    ensures WellOrdered(Final(INIT, steps))
    ensures (forall i :: 0 <= i < |steps| ==> BeforeStop(steps[i])) ==> Covered(Final(INIT, steps))
  {
    OrderIsStable(INIT, steps);
    if forall i :: 0 <= i < |steps| ==> BeforeStop(steps[i]) {
      NoWakeupLostBeforeStop(INIT, steps);
    }
  }

  // ---------------------------------------------------------------------------------------------
  // The class
  // ---------------------------------------------------------------------------------------------

  datatype Fetched = Waiting | NoTask | Task(id: TaskId)

  class ThreadPool {
    var tasks: seq<TaskId>
    var taskCv: Waiters
    var announcing: set<ThreadId>
    var isStopped: bool
    var submitted: nat
    ghost var started: seq<TaskId>
    ghost var urgent: set<TaskId>

    ghost function View(): State
      reads this
    {
      State(tasks, taskCv, announcing, isStopped, started, urgent, submitted)
    }

    constructor ()
      ensures View() == INIT && Covered(View()) && WellOrdered(View())
    {
      tasks, taskCv, announcing, isStopped, submitted := [], NO_WAITERS, {}, false, 0;
      started, urgent := [], {};
    }

    /** Submit up to the end of its locked block. */
    method Submit(t: ThreadId, isUrgent: bool, sawStop: bool) returns (ok: bool)
      requires WellOrdered(View()) && Enabled(View(), Step.Submit(t, isUrgent, sawStop))
      modifies this
      ensures View() == Apply(old(View()), Step.Submit(t, isUrgent, sawStop)) && WellOrdered(View())
      ensures ok <==> !sawStop
      ensures tasks ==
        if !ok then old(tasks) else if isUrgent then [old(submitted)] + old(tasks) else old(tasks) + [old(submitted)]
      ensures old(Covered(View())) && !isStopped ==> Covered(View())
    {
      StepKeepsOrder(View(), Step.Submit(t, isUrgent, sawStop));
      if sawStop {
        return false;
      }
      if isUrgent {
        tasks := [submitted] + tasks;
        urgent := urgent + {submitted};
      } else {
        tasks := tasks + [submitted];
      }
      submitted := submitted + 1;
      announcing := announcing + {t};
      return true;
    }

    /** The `taskCv_.notify_one()` that ends Submit. */
    method Announce(t: ThreadId) returns (wake: Option<ThreadId>)
      requires WellOrdered(View()) && t in announcing
      modifies this`announcing, this`taskCv
      ensures Enabled(old(View()), Step.Announce(t, wake))
      ensures View() == Apply(old(View()), Step.Announce(t, wake)) && WellOrdered(View())
      ensures old(Covered(View())) && !isStopped ==> Covered(View())
    {
      wake := None;
      announcing := announcing - {t};
      if taskCv.parked != {} {
        var w :| w in taskCv.parked;
        wake := Some(w);
        taskCv := Waiters(taskCv.parked - {w}, taskCv.woken + {w});
      }
      if old(Covered(View())) && !isStopped {
        StepKeepsCovered(old(View()), Step.Announce(t, wake));
      }
    }

    /** The end of GetTask: the front task leaves the deque. */
    method TakeFront() returns (task: TaskId)
      requires WellOrdered(View()) && tasks != []
      modifies this`tasks, this`started
      ensures View() == Dequeue(old(View()))
      ensures task == old(tasks)[0] && task !in old(started)
    {
      HeadIsNew(View());
      task := tasks[0];
      tasks := tasks[1..];
      started := started + [task];
    }

    /** A worker that arrives evaluates GetTask's predicate. */
    method GetTask(w: ThreadId) returns (r: Fetched)
      requires WellOrdered(View()) && Enabled(View(), Step.GetTask(w))
      modifies this
      ensures View() == Apply(old(View()), Step.GetTask(w)) && WellOrdered(View())
      ensures r.NoTask? <==> isStopped
      ensures r.Task? <==> !isStopped && old(tasks) != []
      ensures if r.Task? then old(tasks) == [r.id] + tasks && r.id !in old(started) else tasks == old(tasks)
      ensures r.Waiting? <==> w in taskCv.parked
      ensures old(Covered(View())) && !isStopped ==> Covered(View())
    {
      ghost var before := View();
      StepKeepsOrder(before, Step.GetTask(w));
      if isStopped {
        r := NoTask;
      } else if tasks == [] {
        taskCv := Waiters(taskCv.parked + {w}, taskCv.woken - {w});
        r := Waiting;
      } else {
        var task := TakeFront();
        r := Task(task);
      }
      if Covered(before) && !isStopped {
        StepKeepsCovered(before, Step.GetTask(w));
      }
    }

    /** A waiting worker has the mutex again and evaluates GetTask's predicate. */
    method GetTaskResume(w: ThreadId) returns (r: Fetched)
      requires WellOrdered(View()) && Enabled(View(), Step.GetTaskResume(w))
      modifies this
      ensures View() == Apply(old(View()), Step.GetTaskResume(w)) && WellOrdered(View())
      ensures r.NoTask? <==> isStopped
      ensures r.Task? <==> !isStopped && old(tasks) != []
      ensures if r.Task? then old(tasks) == [r.id] + tasks && r.id !in old(started) else tasks == old(tasks)
      ensures r.Waiting? <==> w in taskCv.parked
      ensures old(Covered(View())) && !isStopped ==> Covered(View())
    {
      ghost var before := View();
      StepKeepsOrder(before, Step.GetTaskResume(w));
      if !isStopped && tasks == [] {
        taskCv := Waiters(taskCv.parked + {w}, taskCv.woken - {w});
        r := Waiting;
      } else {
        taskCv := Waiters(taskCv.parked - {w}, taskCv.woken - {w});
        if isStopped {
          r := NoTask;
        } else {
          var task := TakeFront();
          r := Task(task);
        }
      }
      if Covered(before) && !isStopped {
        StepKeepsCovered(before, Step.GetTaskResume(w));
      }
    }

    /** The destructor's store to the flag, without the mutex. */
    method SetStopped()
      modifies this`isStopped
      ensures isStopped
      ensures View() == Apply(old(View()), Step.SetStopped)
    {
      isStopped := true;
    }

    /** The destructor's `notify_all`. */
    method NotifyStopped()
      modifies this`taskCv
      ensures taskCv.parked == {} && taskCv.woken == old(taskCv.woken) + old(taskCv.parked)
      ensures View() == Apply(old(View()), Step.NotifyStopped)
    {
      taskCv := Waiters({}, taskCv.woken + taskCv.parked);
    }
  }
}

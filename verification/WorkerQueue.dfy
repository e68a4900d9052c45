/** frameworks/taihe/src/camera_worker_queue_keeper_taihe.cpp: a ticketed queue of tasks.

    `workerQueueMutex_` serialises the consumers, `workerQueueTaskMutex_` protects the list, and a
    waiter may evict the head task when its owner has not come in time.  Times are nanoseconds of a
    clock that never goes back.

    This module is the list and the operations on it; WorkerQueueProtocol is the threads around it. */
module WorkerQueue {

  const WORKER_TIMEOUT := 2000
  const WORKER_TASK_WAIT_COUNT_MAX := 1
  const NANOS_PER_MILLI := 1_000_000

  datatype Status = INIT | RUNNING | DONE

  /** One element of `workerQueueTasks_`: the task's identity and its fields. */
  datatype Entry<T> = Entry(task: T, waitCount: int, createTime: nat, status: Status)

  predicate Queued<T(==)>(q: seq<Entry<T>>, t: T) {
    exists i :: 0 <= i < |q| && q[i].task == t
  }

  ghost predicate Distinct<T>(q: seq<Entry<T>>) {
    forall i, j :: 0 <= i < j < |q| ==> q[i].task != q[j].task
  }

  /** The first position at which t is queued. */
  function Position<T(==)>(q: seq<Entry<T>>, t: T): (p: nat)
    requires Queued(q, t)
    ensures p < |q| && q[p].task == t
    ensures forall i :: 0 <= i < p ==> q[i].task != t
  {
    if q[0].task == t then 0
    else
      assert Queued(q[1..], t) by {
        var i :| 0 <= i < |q| && q[i].task == t;
        assert q[1..][i - 1].task == t;
      }
      Position(q[1..], t) + 1
  }

  /** The wait of the head task as the code measures it: whole milliseconds. */
  function WaitedMillis(now: nat, since: nat): nat {
    if now < since then 0 else (now - since) / NANOS_PER_MILLI
  }

  function ResetTimes<T>(q: seq<Entry<T>>, time: nat): (r: seq<Entry<T>>)
    ensures |r| == |q|
    ensures forall i :: 0 <= i < |q| ==> r[i] == q[i].(createTime := time, waitCount := 0)
  {
    seq(|q|, i requires 0 <= i < |q| => q[i].(createTime := time, waitCount := 0))
  }

  function Mark<T(==)>(q: seq<Entry<T>>, t: T, status: Status): (r: seq<Entry<T>>)
    ensures |r| == |q|
    ensures forall i :: 0 <= i < |q| ==> r[i] == if q[i].task == t then q[i].(status := status) else q[i]
  {
    seq(|q|, i requires 0 <= i < |q| => if q[i].task == t then q[i].(status := status) else q[i])
  }

  /** What the wait predicate tells its thread. */
  datatype Verdict = NotQueued | Admitted | KeepWaiting

  datatype Evaluation<T> = Evaluation(queue: seq<Entry<T>>, verdict: Verdict, evicts: bool)

  /** The head has been there for the timeout and its function is not running. */
  predicate HeadStale<T>(q: seq<Entry<T>>, now: nat) {
    q != [] && !q[0].status.RUNNING? && WaitedMillis(now, q[0].createTime) >= WORKER_TIMEOUT
  }

  function Evaluate<T(==)>(q: seq<Entry<T>>, t: T, now: nat): Evaluation<T> {
    if !Queued(q, t) then Evaluation(q, NotQueued, false)
    else if q[0].task == t then Evaluation(q, Admitted, false)
    else if !HeadStale(q, now) then Evaluation(q, KeepWaiting, false)
    else
      var p := Position(q, t);
      if q[p].waitCount < WORKER_TASK_WAIT_COUNT_MAX then
        Evaluation(q[p := q[p].(waitCount := q[p].waitCount + 1)], KeepWaiting, false)
      else if |q| == 1 then Evaluation([], KeepWaiting, true)
      else if q[1].task == t then Evaluation(q[1..], Admitted, true)
      else Evaluation(ResetTimes(q[1..], now), KeepWaiting, true)
  }

  // ---------------------------------------------------------------------------------------------
  // The class
  // ---------------------------------------------------------------------------------------------

  class WorkerQueueTask {
    var waitCount: int
    var createTimePoint: nat
    var queueStatus: Status

    constructor (now: nat)
      ensures waitCount == 0 && createTimePoint == now && queueStatus == INIT
    {
      waitCount, createTimePoint, queueStatus := 0, now, INIT;
    }

    ghost function View(): Entry<WorkerQueueTask>
      reads this
    {
      Entry(this, waitCount, createTimePoint, queueStatus)
    }
  }

  class WorkerQueueKeeper {
    var workerQueueTasks: seq<WorkerQueueTask>

    ghost function View(): (q: seq<Entry<WorkerQueueTask>>)
      reads this, workerQueueTasks
      ensures |q| == |workerQueueTasks|
      ensures forall i :: 0 <= i < |q| ==> q[i] == workerQueueTasks[i].View()
    {
      seq(|workerQueueTasks|, i requires 0 <= i < |workerQueueTasks| reads this, workerQueueTasks =>
        workerQueueTasks[i].View())
    }

    ghost predicate Valid()
      reads this, workerQueueTasks
    {
      Distinct(View())
    }

    constructor ()
      ensures Valid() && View() == []
    {
      workerQueueTasks := [];
    }

    method AcquireWorkerQueueTask(now: nat) returns (queueTask: WorkerQueueTask)
      requires Valid()
      modifies this
      ensures Valid() && fresh(queueTask)
      ensures View() == old(View()) + [Entry(queueTask, 0, now, INIT)]
    {
      queueTask := new WorkerQueueTask(now);
      workerQueueTasks := workerQueueTasks + [queueTask];
    }

    method Contains(queueTask: WorkerQueueTask) returns (found: bool)
      ensures found <==> Queued(View(), queueTask)
      ensures found <==> queueTask in workerQueueTasks
    {
      found := false;
      for i := 0 to |workerQueueTasks|
        invariant found <==> queueTask in workerQueueTasks[..i]
      {
        if workerQueueTasks[i] == queueTask {
          found := true;
        }
      }
      assert workerQueueTasks[..|workerQueueTasks|] == workerQueueTasks;
      assert forall i :: 0 <= i < |workerQueueTasks| ==> View()[i].task == workerQueueTasks[i];
    }

    method WorkerQueueTasksResetCreateTimeNoLock(timePoint: nat)
      requires Valid()
      modifies workerQueueTasks
      ensures Valid() && View() == ResetTimes(old(View()), timePoint)
    {
      for i := 0 to |workerQueueTasks|
        invariant forall k :: 0 <= k < i ==>
          View()[k] == old(View())[k].(createTime := timePoint, waitCount := 0)
        invariant forall k :: i <= k < |workerQueueTasks| ==> View()[k] == old(View())[k]
      {
        var task := workerQueueTasks[i];
        assert forall k :: 0 <= k < |workerQueueTasks| ==> old(View())[k].task == workerQueueTasks[k];
        task.createTimePoint := timePoint;
        task.waitCount := 0;
      }
    }

    /** The wait predicate; `isError` says that the task is not in the list. */
    method WorkerLockCondition(queueTask: WorkerQueueTask, now: nat) returns (r: bool, isError: bool)
      requires Valid()
      modifies this, workerQueueTasks
      ensures Valid()
      ensures var e := Evaluate(old(View()), queueTask, now);
        && View() == e.queue
        && (r <==> !e.verdict.KeepWaiting?) && (isError <==> e.verdict.NotQueued?)
      ensures isError <==> queueTask !in old(workerQueueTasks)
      ensures isError ==> r && View() == old(View())
      ensures old(workerQueueTasks) != [] && old(workerQueueTasks)[0] == queueTask ==>
        r && !isError && View() == old(View())
      ensures r && !isError ==> workerQueueTasks != [] && workerQueueTasks[0] == queueTask
      ensures workerQueueTasks == old(workerQueueTasks) || workerQueueTasks == old(workerQueueTasks)[1..]
    {
      isError := false;
      var found := Contains(queueTask);
      if !found {
        return true, true;
      }
      ghost var q := View();
      var firstTask := workerQueueTasks[0];
      assert q[0] == firstTask.View();
      if firstTask == queueTask {
        return true, false;
      }
      if firstTask.queueStatus == RUNNING {
        return false, false;
      }
      var diffTime := WaitedMillis(now, firstTask.createTimePoint);
      if diffTime < WORKER_TIMEOUT {
        return false, false;
      }
      ghost var p := Position(q, queueTask);
      assert q[p] == queueTask.View();
      if queueTask.waitCount < WORKER_TASK_WAIT_COUNT_MAX {
        queueTask.waitCount := queueTask.waitCount + 1;
        assert View() == q[p := q[p].(waitCount := q[p].waitCount + 1)];
        return false, false;
      }
      r := EvictHead(queueTask, now);
    }

    /** The last branch of the wait predicate: the head makes room. */
    method EvictHead(queueTask: WorkerQueueTask, now: nat) returns (r: bool)
      requires Valid() && workerQueueTasks != []
      modifies this, workerQueueTasks
      ensures Valid() && workerQueueTasks == old(workerQueueTasks)[1..]
      ensures r <==> workerQueueTasks != [] && workerQueueTasks[0] == queueTask
      ensures View() == if r then old(View())[1..] else ResetTimes(old(View())[1..], now)
    {
      workerQueueTasks := workerQueueTasks[1..];
      assert View() == old(View())[1..];
      if workerQueueTasks == [] {
        return false;
      }
      if workerQueueTasks[0] == queueTask {
        return true;
      }
      WorkerQueueTasksResetCreateTimeNoLock(now);
      return false;
    }

    /** `queueTask->queueStatus = status` in ConsumeWorkerQueueTask. */
    method SetStatus(queueTask: WorkerQueueTask, status: Status)
      requires Valid()
      modifies queueTask`queueStatus
      ensures Valid() && View() == Mark(old(View()), queueTask, status)
    {
      queueTask.queueStatus := status;
    }

    /** The last locked block of ConsumeWorkerQueueTask, with the clock read before the lock. */
    method PopAndReset(reading: nat)
      requires Valid() && workerQueueTasks != []
      modifies this, workerQueueTasks
      ensures Valid() && View() == ResetTimes(old(View())[1..], reading)
    {
      workerQueueTasks := workerQueueTasks[1..];
      assert View() == old(View())[1..];
      WorkerQueueTasksResetCreateTimeNoLock(reading);
    }
  }
}

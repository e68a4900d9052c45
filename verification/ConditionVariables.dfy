/** The waiting side of a condition variable, shared by the monitors of this project.

    A thread that waits is `parked` until a notification reaches it; then it is `woken` until it has
    the mutex again and evaluates its predicate.  A spurious wake-up is a parked thread that resumes. */
module ConditionVariables {
  import opened Options

  type ThreadId = nat

  datatype Waiters = Waiters(parked: set<ThreadId>, woken: set<ThreadId>) {
    ghost predicate Valid() {
      forall t <- parked :: t !in woken
    }

    predicate Has(t: ThreadId) {
      t in parked || t in woken
    }

    /** `notify_one` may pick any parked thread, and has no effect when none is parked. */
    predicate Choice(pick: Option<ThreadId>) {
      if parked == {} then pick == None else pick.Some? && pick.value in parked
    }

    function NotifyOne(pick: Option<ThreadId>): Waiters {
      match pick
      case None => this
      case Some(t) => Waiters(parked - {t}, woken + {t})
    }

    function NotifyAll(): Waiters {
      Waiters({}, woken + parked)
    }

    /** The predicate was false: the thread waits (again). */
    function Park(t: ThreadId): Waiters {
      Waiters(parked + {t}, woken - {t})
    }

    /** The predicate was true: the thread is no longer waiting. */
    function Leave(t: ThreadId): Waiters {
      Waiters(parked - {t}, woken - {t})
    }
  }

  const NO_WAITERS := Waiters({}, {})

  /** One notification moves exactly one thread from parked to woken. */
  lemma NotifyOneMovesOne(w: Waiters, pick: Option<ThreadId>)
    requires w.Valid() && w.Choice(pick)
    ensures w.NotifyOne(pick).Valid() && forall t :: w.NotifyOne(pick).Has(t) <==> w.Has(t)
    ensures w.parked != {} ==>
      |w.NotifyOne(pick).parked| == |w.parked| - 1 && |w.NotifyOne(pick).woken| == |w.woken| + 1
    ensures w.parked == {} ==> w.NotifyOne(pick) == w
  {
  }

  lemma NotifyAllKeeps(w: Waiters)
    requires w.Valid()
    ensures w.NotifyAll().Valid() && forall t :: w.NotifyAll().Has(t) <==> w.Has(t)
  {
  }

  lemma ParkMoves(w: Waiters, t: ThreadId)
    requires w.Valid()
    ensures w.Park(t).Valid() && forall u :: w.Park(t).Has(u) <==> w.Has(u) || u == t
    ensures |w.Park(t).woken| >= |w.woken| - 1
    ensures t !in w.woken ==> |w.Park(t).woken| == |w.woken|
  {
    if t !in w.woken {
      assert w.woken - {t} == w.woken;
    }
  }

  lemma LeaveMoves(w: Waiters, t: ThreadId)
    requires w.Valid()
    ensures w.Leave(t).Valid() && forall u :: w.Leave(t).Has(u) <==> w.Has(u) && u != t
    ensures |w.Leave(t).woken| >= |w.woken| - 1
    ensures w.Leave(t).parked != {} ==> w.parked != {}
  {
    if t !in w.woken {
      assert w.woken - {t} == w.woken;
    }
  }
}

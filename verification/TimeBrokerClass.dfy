/** The TimeBroker class itself, each method against the functions of TimeBrokers. */
module TimeBrokerClass {
  import opened TimerHandles
  import opened DeferredTimers
  import opened TimeBrokers
  import opened Options

  lemma {:induction false} AliveSnoc(bucket: seq<TimerInfo>, t: TimerInfo, infos: map<nat, TimerInfo>)
    ensures AliveOf(bucket + [t], infos) == AliveOf(bucket, infos) + (if Alive(infos, t) then [t] else [])
  {
    if bucket == [] {
    } else {
      assert (bucket + [t])[1..] == bucket[1..] + [t];
      AliveSnoc(bucket[1..], t, infos);
    }
  }

  /** A live entry of an ascending bucket is still in the map after the live entries before it have
      been erased. */
  lemma StillAlive(bucket: seq<TimerInfo>, i: nat, infos: map<nat, TimerInfo>, left: map<nat, TimerInfo>)
    requires i < |bucket| && Ascending(bucket)
    requires left == infos - HandlesOf(AliveOf(bucket[..i], infos))
    ensures Alive(left, bucket[i]) <==> Alive(infos, bucket[i])
  {
    forall t | t in AliveOf(bucket[..i], infos)
      ensures t != bucket[i] && (Alive(infos, bucket[i]) ==> t.handle != bucket[i].handle)
    {
      assert t in bucket[..i] && Alive(infos, t);
    }
  }

  lemma BucketAscends(b: Books, time: nat)
    requires Indexed(b)
    ensures Ascending(Bucket(b, time))
  {
  }

  class TimeBroker {
    var timeline: multiset<nat>
    var timerInfos: map<nat, TimerInfo>
    var expiringTimers: map<nat, seq<TimerInfo>>
    var preHandle: nat
    var handleCounter: nat     // GenerateHandle's static variable
    var created: nat           // how many TimerInfo objects there have been
    const timer: Timer
    ghost var fired: seq<Firing>
    ghost var cancelled: set<nat>

    ghost function View(): Books
      reads this
    {
      Books(timeline, timerInfos, expiringTimers, preHandle, handleCounter, created, fired, cancelled)
    }

    constructor ()
      ensures View() == NO_BOOKS && BooksOk(View()) && timer.View() == FRESH && timer.timerType == ONCE
      ensures fresh(timer)
    {
      timeline, timerInfos, expiringTimers := multiset{}, map[], map[];
      preHandle, handleCounter, created := 0, 0, 0;
      timer := new Timer(ONCE, 0);
      fired, cancelled := [], {};
    }

    method GetNextHandle() returns (ok: bool, handle: nat)
      requires HandlesOk(View())
      modifies this`handleCounter, this`preHandle
      ensures Stops(timerInfos.Keys, old(preHandle), old(handleCounter), handle)
      ensures handleCounter == handle && preHandle == handle
      ensures ok <==> handle != old(preHandle)
    {
      handle := Search(timerInfos.Keys, preHandle, handleCounter);
      handleCounter := handle;
      if handle != preHandle {
        preHandle := handle;
        return true, handle;
      }
      return false, handle;
    }

    /** The rest of RegisterCallback, once it has a handle. */
    method Insert(timestamp: nat, callback: nat, handle: nat)
      requires preHandle == handle && handleCounter == handle && handle !in timerInfos
      modifies this, timer
      ensures View() == Registered(old(View()), timestamp, callback, handle)
      ensures timer.View() ==
        if timestamp == Least(timeline) then StartedAt(old(timer.View()), timestamp) else old(timer.View())
      ensures timerInfos == old(timerInfos)[handle := TimerInfo(old(created), handle, timestamp, callback)]
    {
      var timerInfo := TimerInfo(created, handle, timestamp, callback);
      created := created + 1;
      var bucket := if timestamp in expiringTimers then expiringTimers[timestamp] else [];
      expiringTimers := expiringTimers[timestamp := bucket + [timerInfo]];
      timerInfos := timerInfos[handle := timerInfo];
      timeline := timeline + multiset{timestamp};
      var top := Top();
      if timestamp == top {
        timer.StartAt(timestamp);
      }
    }

    /** RegisterCallback with the clock read as `reading`; on failure the caller's handle is the previous
        one.  Books and timer are those of the step Register. */
    method RegisterCallback(delay: nat, callback: nat, reading: nat) returns (ok: bool, handle: nat)
      requires HandlesOk(View())
      modifies this, timer
      ensures Stops(old(timerInfos.Keys), old(preHandle), old(handleCounter), handle)
      ensures ok <==> handle != old(preHandle)
      ensures View() == if ok then Registered(old(View()), reading + delay, callback, handle)
        else old(View()).(counter := handle)
      ensures timer.View() ==
        if ok && reading + delay == Least(timeline) then StartedAt(old(timer.View()), reading + delay)
        else old(timer.View())
      ensures ok ==>
        timerInfos == old(timerInfos)[handle := TimerInfo(old(created), handle, reading + delay, callback)]
      ensures !ok ==> timerInfos == old(timerInfos)
    {
      ok, handle := GetNextHandle();
      if ok {
        Insert(reading + delay, callback, handle);
      }
    }

    method Top() returns (top: nat)
      requires timeline != multiset{}
      ensures top == Least(timeline)
    {
      assert IsLeast(timeline, Least(timeline));
      top :| top in timeline && forall y :: y in timeline ==> top <= y;
    }

    method DeregisterCallback(handle: nat)
      requires HandlesOk(View())
      modifies this`timerInfos, this`cancelled
      ensures View() == Cancelled(old(View()), handle)
      ensures timerInfos == old(timerInfos) - {handle}
    {
      if handle == 0 {
        return;
      }
      if handle in timerInfos {
        cancelled := cancelled + {timerInfos[handle].id};
      }
      timerInfos := timerInfos - {handle};
    }

    /** GetExpiredFunc: the callback that the expiry of the timer with this handle will run.  Without
        one no expiry would run anything for the handle (the source then returns a function that only
        logs). */
    method GetExpiredFunc(handle: nat) returns (f: Option<nat>)
      requires BooksOk(View())
      ensures f.None? <==> forall time, t :: t in Due(View(), time) ==> t.handle != handle
      ensures forall time, t :: t in Due(View(), time) && t.handle == handle ==> f == Some(t.callback)
    {
      forall time
        ensures forall t :: t in Due(View(), time) <==> t in timerInfos.Values && t.timestamp == time
      {
        DueExactly(View(), time);
      }
      if handle in timerInfos {
        assert timerInfos[handle] in Due(View(), timerInfos[handle].timestamp);
        return Some(timerInfos[handle].callback);
      }
      return None;
    }

    method RestartTimer(force: bool)
      modifies timer
      ensures timer.View() == Restarted(old(timer.View()), timeline, force)
    {
      if timeline == multiset{} || (timer.active && !force) {
        return;
      }
      var timestamp := Top();
      timer.StartAt(timestamp);
    }

    /** Locks the weak pointers of one bucket and takes the timers that are still pending. */
    method TakeDue(weak: seq<TimerInfo>) returns (due: seq<TimerInfo>)
      requires Ascending(weak)
      modifies this`timerInfos
      ensures due == AliveOf(weak, old(timerInfos))
      ensures timerInfos == old(timerInfos) - HandlesOf(due)
    {
      due := [];
      for i := 0 to |weak|
        invariant due == AliveOf(weak[..i], old(timerInfos))
        invariant timerInfos == old(timerInfos) - HandlesOf(due)
      {
        AliveSnoc(weak[..i], weak[i], old(timerInfos));
        StillAlive(weak, i, old(timerInfos), timerInfos);
        assert weak[..i + 1] == weak[..i] + [weak[i]];
        ghost var was := due;
        if weak[i].handle in timerInfos && timerInfos[weak[i].handle] == weak[i] {
          timerInfos := timerInfos - {weak[i].handle};
          due := due + [weak[i]];
          assert HandlesOf(due) == HandlesOf(was) + {weak[i].handle};
        }
      }
      assert weak[..|weak|] == weak;
    }

    /** The part of it that empties the top: its timeline entry, its bucket and its pending timers. */
    method PopTop(timestamp: nat, now: nat) returns (due: seq<TimerInfo>)
      requires Indexed(View()) && timestamp in timeline
      modifies this
      ensures due == Due(old(View()), timestamp)
      ensures View() == TimeBrokers.Expired(old(View()), timestamp, now)
    {
      BucketAscends(View(), timestamp);
      timeline := timeline - multiset{timestamp};
      var weak := if timestamp in expiringTimers then expiringTimers[timestamp] else [];
      assert weak == Bucket(old(View()), timestamp);
      due := TakeDue(weak);
      assert due == Due(old(View()), timestamp);
      expiringTimers := expiringTimers - {timestamp};
      fired := fired + FiredAt(due, now);
    }

    /** The locked block of TimerExpired; the caller then runs the callbacks of `due` in order.  Books
        and timer are those of the step BrokerExpires. */
    method TimerExpired(now: nat) returns (due: seq<TimerInfo>)
      requires Indexed(View())
      modifies this, timer
      ensures old(timeline) == multiset{} ==>
        due == [] && View() == old(View()) && timer.View() == old(timer.View())
      ensures old(timeline) != multiset{} ==>
        var top := Least(old(timeline));
        && due == Due(old(View()), top)
        && View() == TimeBrokers.Expired(old(View()), top, now)
        && timer.View() == Restarted(old(timer.View()), timeline, top != 0)
    {
      if timeline == multiset{} {
        return [];
      }
      var timestamp := Top();
      due := PopTop(timestamp, now);
      RestartTimer(timestamp != 0);
    }
  }
}

/** common/src/timer/camera_deferred_timer.cpp: one Timer and what TimerCore holds for it. */
module DeferredTimers {
  datatype TimerType = ONCE | PERIODIC

  /** `registered` are the timestamps under which TimerCore has this timer in its table. */
  datatype TimerState = TimerState(active: bool, expiredTime: nat, registered: multiset<nat>)

  const FRESH := TimerState(false, 0, multiset{})

  /** TimerCore::DeregisterTimer removes every entry of the timer under that timestamp. */
  function Deregistered(t: TimerState, time: nat): TimerState {
    t.(registered := t.registered[time := 0])
  }

  function StartedAt(t: TimerState, time: nat): TimerState {
    var d := if t.active then Deregistered(t, t.expiredTime) else t;
    TimerState(true, time, d.registered + multiset{time})
  }

  function Stopped(t: TimerState): TimerState {
    if t.active then Deregistered(t, t.expiredTime).(active := false) else t
  }

  /** TimerCore hands an expiry over; the result says whether the callback runs. */
  function Expired(t: TimerState, timerType: TimerType, now: nat, interval: nat): (TimerState, bool) {
    if !t.active then (t, false)
    else if timerType.PERIODIC? then (StartedAt(t, now + interval), true)
    else (t.(active := false), true)
  }

  /** An active timer is in the table exactly once, under its expiry time. */
  ghost predicate Armed(t: TimerState) {
    t.active && t.registered == multiset{t.expiredTime}
  }

  /** Whatever the timer was doing, once its table entry is its own expiry time or has been taken, a
      new start leaves it armed once, for the new time. */
  lemma StartAtArms(t: TimerState, time: nat)
    requires if t.active then t.registered <= multiset{t.expiredTime} else t.registered == multiset{}
    ensures Armed(StartedAt(t, time)) && StartedAt(t, time).expiredTime == time
  {
    if t.active {
      assert t.registered[t.expiredTime := 0] == multiset{};
    }
  }

  class Timer {
    const timerType: TimerType
    const intervalMs: nat
    var active: bool
    var expiredTimeMs: nat
    var registered: multiset<nat>

    ghost function View(): TimerState
      reads this
    {
      TimerState(active, expiredTimeMs, registered)
    }

    constructor (timerType: TimerType, intervalMs: nat)
      ensures View() == FRESH && this.timerType == timerType && this.intervalMs == intervalMs
    {
      this.timerType, this.intervalMs := timerType, intervalMs;
      active, expiredTimeMs, registered := false, 0, multiset{};
    }

    method StartAt(timestampMs: nat)
      modifies this
      ensures View() == StartedAt(old(View()), timestampMs)
      ensures active && expiredTimeMs == timestampMs
      ensures registered == multiset{timestampMs}
        + if old(active) then old(registered)[old(expiredTimeMs) := 0] else old(registered)
    {
      if active {
        registered := registered[expiredTimeMs := 0];
      }
      active := true;
      expiredTimeMs := timestampMs;
      registered := registered + multiset{timestampMs};
    }

    /** Start: a zero delay means the timer's own interval. */
    method Start(now: nat, delayTimeMs: nat)
      modifies this
      ensures View() == StartedAt(old(View()), now + if delayTimeMs == 0 then intervalMs else delayTimeMs)
      ensures active && expiredTimeMs == if delayTimeMs == 0 then now + intervalMs else now + delayTimeMs
    {
      var timestampMs := now + (if delayTimeMs == 0 then intervalMs else delayTimeMs);
      StartAt(timestampMs);
    }

    method Stop()
      modifies this
      ensures View() == Stopped(old(View())) && !active
      ensures registered == if old(active) then old(registered)[old(expiredTimeMs) := 0] else old(registered)
    {
      if !active {
        return;
      }
      active := false;
      registered := registered[expiredTimeMs := 0];
    }

    /** TimerExpired up to the call of the callback. */
    method TimerExpired(now: nat) returns (callBack: bool)
      modifies this
      ensures (View(), callBack) == Expired(old(View()), timerType, now, intervalMs)
      ensures callBack <==> old(active)
      ensures active <==> old(active) && timerType.PERIODIC?
      ensures active ==> expiredTimeMs == now + intervalMs
      ensures !active ==> registered == old(registered)
    {
      if !active {
        return false;
      }
      if timerType.PERIODIC? {
        Start(now, 0);
      } else {
        active := false;
      }
      return true;
    }
  }
}

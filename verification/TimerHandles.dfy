/** The handle ring of common/src/timer/time_broker.cpp:100-119: 32-bit handles, zero excepted, handed
    out by a counter that all brokers share. */
module TimerHandles {
  const MAX_HANDLE: nat := 0xFFFF_FFFF

  predicate IsHandle(h: nat) {
    1 <= h <= MAX_HANDLE
  }

  /** `if (++handle == 0) ++handle;` on 32 bits. */
  function Successor(counter: nat): (h: nat)
    requires counter <= MAX_HANDLE
    ensures IsHandle(h)
  {
    var incremented := (counter + 1) % (MAX_HANDLE + 1);
    if incremented == 0 then 1 else incremented
  }

  /** How many successors lead from the counter to h. */
  function Distance(counter: nat, h: nat): (d: nat)
    requires counter <= MAX_HANDLE && IsHandle(h)
    ensures 1 <= d <= MAX_HANDLE
  {
    if h > counter then h - counter else h + MAX_HANDLE - counter
  }

  lemma DistanceSteps(counter: nat, h: nat)
    requires counter <= MAX_HANDLE && IsHandle(h)
    ensures Distance(counter, h) == if h == Successor(counter) then 1 else 1 + Distance(Successor(counter), h)
  {
  }

  lemma DistanceInjective(counter: nat, g: nat, h: nat)
    requires counter <= MAX_HANDLE && IsHandle(g) && IsHandle(h) && Distance(counter, g) == Distance(counter, h)
    ensures g == h
  {
  }

  /** GetNextHandle's search from this counter ends at h: every handle passed on the way is live and is
      not the previous handle, and h is free or is the previous handle. */
  ghost predicate Stops(live: set<nat>, pre: nat, counter: nat, h: nat)
    requires counter <= MAX_HANDLE
  {
    && IsHandle(h)
    && (h !in live || h == pre)
    && (forall x :: IsHandle(x) && Distance(counter, x) < Distance(counter, h) ==> x in live && x != pre)
  }

  lemma StopsOnce(live: set<nat>, pre: nat, counter: nat, g: nat, h: nat)
    requires counter <= MAX_HANDLE && Stops(live, pre, counter, g) && Stops(live, pre, counter, h)
    ensures g == h
  {
    if Distance(counter, g) == Distance(counter, h) {
      DistanceInjective(counter, g, h);
    }
  }

  /** The search fails exactly when every handle from the counter up to the previous handle is live.
      (Before the first success there is no previous handle and it cannot fail.) */
  lemma FailsExactlyWhen(live: set<nat>, pre: nat, counter: nat, h: nat)
    requires counter <= MAX_HANDLE && IsHandle(pre) && Stops(live, pre, counter, h)
    ensures h == pre <==> forall x :: IsHandle(x) && Distance(counter, x) < Distance(counter, pre) ==> x in live
  {
    if forall x :: IsHandle(x) && Distance(counter, x) < Distance(counter, pre) ==> x in live {
      assert Stops(live, pre, counter, pre) by {
        forall x | IsHandle(x) && Distance(counter, x) < Distance(counter, pre)
          ensures x != pre
        {
        }
      }
      StopsOnce(live, pre, counter, pre, h);
    }
  }

  /** With one broker the counter stands at the previous handle, and the search fails exactly when
      every other handle is live. */
  lemma AloneFailsExactlyWhen(live: set<nat>, pre: nat, h: nat)
    requires IsHandle(pre) && Stops(live, pre, pre, h)
    ensures h == pre <==> forall x :: IsHandle(x) && x != pre ==> x in live
  {
    FailsExactlyWhen(live, pre, pre, h);
    forall x | IsHandle(x)
      ensures Distance(pre, x) < Distance(pre, pre) <==> x != pre
    {
      if x != pre && Distance(pre, x) == Distance(pre, pre) {
        DistanceInjective(pre, x, pre);
      }
    }
  }

  /** Other brokers make it fail early: with the counter just behind the previous handle, not one
      handle is looked at, however many are free. */
  lemma SharedCounterFailsAtOnce(live: set<nat>, pre: nat)
    requires IsHandle(pre) && pre > 1
    ensures Stops(live, pre, pre - 1, pre)
  {
  }

  /** The do-while loop itself; it ends because it never passes the previous handle, and without a
      previous handle nothing is live. */
  method Search(live: set<nat>, pre: nat, counter: nat) returns (handle: nat)
    requires counter <= MAX_HANDLE && pre <= MAX_HANDLE
    requires pre == 0 ==> live == {}
    ensures Stops(live, pre, counter, handle)
  {
    handle := Successor(counter);
    DistanceSteps(counter, handle);
    while handle in live && handle != pre
      invariant IsHandle(handle)
      invariant forall x :: IsHandle(x) && Distance(counter, x) < Distance(counter, handle) ==> x in live && x != pre
      invariant pre != 0 ==> Distance(counter, handle) <= Distance(counter, pre)
      decreases MAX_HANDLE - Distance(counter, handle)
    {
      ghost var passed := handle;
      handle := Successor(handle);
      assert Distance(counter, handle) == Distance(counter, passed) + 1 by {
        if Distance(counter, passed) == Distance(counter, pre) {
          DistanceInjective(counter, passed, pre);
        }
      }
      forall x | IsHandle(x) && Distance(counter, x) < Distance(counter, handle)
        ensures x in live && x != pre
      {
        if Distance(counter, x) == Distance(counter, passed) {
          DistanceInjective(counter, x, passed);
        }
      }
    }
  }
}

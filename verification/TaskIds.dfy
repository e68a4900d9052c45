/** The task ids of the Taihe worker queue: CameraUtilsTaihe::IncrementAndGet in
    frameworks/taihe/src/camera_utils_taihe.cpp:492-500, started from the classes of
    frameworks/taihe/include/camera_worker_queue_keeper_taihe.h:24-41. */
module TaskIds {
  const TWO_TO_THE_24: nat := 0x100_0000
  const TWO_TO_THE_31: nat := 0x8000_0000
  const TWO_TO_THE_32: nat := 0x1_0000_0000
  const LAST_NUMBER: nat := 0xffff

  /** CameraTaskId: CAMERA_MANAGER_TASKID is class 1, CAMERA_CONTROL_CENTER_TASKID class 16. */
  predicate IsTaskClass(c: nat) {
    1 <= c <= 0x10
  }

  function Base(c: nat): nat {
    c * TWO_TO_THE_24
  }

  /** num & 0x00ffffff */
  function Low(num: nat): nat {
    num % TWO_TO_THE_24
  }

  /** The byte above it. */
  function ClassByte(num: nat): nat {
    num / TWO_TO_THE_24
  }

  /** int32_t of a uint32_t. */
  function ToInt32(num: nat): (id: int)
    requires num < TWO_TO_THE_32
    ensures -0x8000_0000 <= id <= 0x7fff_ffff && (id == num || id == num - 0x1_0000_0000)
  {
    if num < TWO_TO_THE_31 then num else num - TWO_TO_THE_32
  }

  /** num after one call. */
  function Next(num: nat): (r: nat)
    requires num < TWO_TO_THE_32
    ensures r < TWO_TO_THE_32 && ClassByte(r) == ClassByte(num) && 1 <= Low(r) <= LAST_NUMBER
  {
    (if Low(num) >= LAST_NUMBER then num - Low(num) else num) + 1
  }

  /** num after n calls. */
  function After(num: nat, n: nat): (r: nat)
    requires num < TWO_TO_THE_32
    ensures r < TWO_TO_THE_32 && ClassByte(r) == ClassByte(num)
  {
    if n == 0 then num else Next(After(num, n - 1))
  }

  lemma NextRemainder(m: nat)
    ensures (m + 1) % LAST_NUMBER == if m % LAST_NUMBER + 1 == LAST_NUMBER then 0 else m % LAST_NUMBER + 1
  {
  }

  lemma NextOf(c: nat, k: nat)
    requires c < 0x100 && k <= LAST_NUMBER
    ensures Base(c) + k < TWO_TO_THE_32
    ensures Next(Base(c) + k) == Base(c) + (if k == LAST_NUMBER then 1 else k + 1)
  {
  }

  /** The n-th id of a class. */
  lemma {:induction false} NthId(c: nat, n: nat)
    requires c < 0x100 && n > 0
    ensures After(Base(c), n) == Base(c) + (n - 1) % LAST_NUMBER + 1
  {
    if n == 1 {
      assert After(Base(c), 0) == Base(c);
      NextOf(c, 0);
    } else {
      NthId(c, n - 1);
      NextOf(c, (n - 2) % LAST_NUMBER + 1);
      NextRemainder(n - 2);
    }
  }

  /** And the id that the n-th call of a task class returns is that number itself. */
  lemma NthReturnedId(c: nat, n: nat)
    requires IsTaskClass(c) && n > 0
    ensures ToInt32(After(Base(c), n)) == c * 0x0100_0000 + (n - 1) % 65535 + 1
  {
    NthId(c, n);
  }

  /** Two calls on one counter get the same id exactly when a whole number of rounds of 65535 calls
      lies between them. */
  lemma SameIdExactlyWhen(c: nat, i: nat, j: nat)
    requires IsTaskClass(c) && 0 < i <= j
    ensures ToInt32(After(Base(c), i)) == ToInt32(After(Base(c), j)) <==> (j - i) % LAST_NUMBER == 0
  {
    NthId(c, i);
    NthId(c, j);
  }

  /** So any 65535 calls in a row get different ids. */
  lemma RoundIsDistinct(c: nat, i: nat, j: nat)
    requires IsTaskClass(c) && 0 < i < j < i + LAST_NUMBER
    ensures ToInt32(After(Base(c), i)) != ToInt32(After(Base(c), j))
  {
    SameIdExactlyWhen(c, i, j);
  }

  /** Ids of different classes never collide, and all are positive. */
  lemma ClassesNeverCollide(c: nat, i: nat, d: nat, j: nat)
    requires IsTaskClass(c) && IsTaskClass(d) && c != d && 0 < i && 0 < j
    ensures ToInt32(After(Base(c), i)) != ToInt32(After(Base(d), j))
    ensures ToInt32(After(Base(c), i)) > 0
  {
    NthId(c, i);
    NthId(d, j);
  }

  class TaskIdCounter {
    var num: nat

    ghost predicate Valid()
      reads this
    {
      num < TWO_TO_THE_32
    }

    constructor (c: nat)
      requires IsTaskClass(c)
      ensures Valid() && num == Base(c) == c * 0x0100_0000
    {
      num := Base(c);
    }

    method IncrementAndGet() returns (id: int)
      requires Valid()
      modifies this
      ensures Valid() && num == Next(old(num)) && id == ToInt32(num)
      ensures num == old(num) + 1 - if old(num) % 0x0100_0000 >= 0xffff then old(num) % 0x0100_0000 else 0
      ensures num <= 0x7fff_ffff ==> id == num
    {
      var temp := num % TWO_TO_THE_24;
      if temp >= 0xffff {
        num := num - temp;
      }
      num := (num + 1) % TWO_TO_THE_32;
      id := if num < TWO_TO_THE_31 then num else num - TWO_TO_THE_32;
    }
  }
}

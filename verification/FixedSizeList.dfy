/** FixedSizeList in common/utils/fixed_size_list.h:27-80. */
module FixedSizeLists {
  import opened Options

  // ---------------------------------------------------------------------------------------------
  // The slots, as a value
  // ---------------------------------------------------------------------------------------------

  /** `slots` has maxSize places, the first `size` of them are visible, and the next value goes to
      `index`.  A list of size zero can be made, but adding to it divides by zero in the source. */
  datatype Slots<T> = Slots(slots: seq<T>, size: nat, index: nat) {
    predicate Valid() {
      size <= |slots| && (if slots == [] then index == 0 else index < |slots|)
    }

    function Visible(): seq<T>
      requires Valid()
    {
      slots[..size]
    }

    function Added(value: T): Slots<T>
      requires Valid() && slots != []
    {
      Slots(slots[index := value], if size < |slots| then size + 1 else size, (index + 1) % |slots|)
    }

    /** The later visible slots move down by one; the last of them keeps its value as well. */
    function RemovedAt(position: nat): Slots<T>
      requires Valid() && position < size
    {
      Slots(slots[..position] + slots[position + 1..size] + slots[size - 1..], size - 1,
            (index + |slots| - 1) % |slots|)
    }

    function Without(wanted: T -> bool): Slots<T>
      requires Valid()
    {
      var k := FirstMatch(Visible(), wanted);
      if k < size then RemovedAt(k) else this
    }
  }

  /** The first place with a wanted value, or the length. */
  function FirstMatch<T>(s: seq<T>, wanted: T -> bool): (k: nat)
    ensures k <= |s| && (k < |s| ==> wanted(s[k]))
    ensures forall j :: 0 <= j < k ==> !wanted(s[j])
  {
    if s == [] then 0 else if wanted(s[0]) then 0 else 1 + FirstMatch(s[1..], wanted)
  }

  lemma FirstMatchIs<T>(s: seq<T>, wanted: T -> bool, k: nat)
    requires k <= |s| && (k < |s| ==> wanted(s[k]))
    requires forall j :: 0 <= j < k ==> !wanted(s[j])
    ensures FirstMatch(s, wanted) == k
  {
    if s != [] && !wanted(s[0]) {
      FirstMatchIs(s[1..], wanted, k - 1);
    }
  }

  // ---------------------------------------------------------------------------------------------
  // Remainders
  // ---------------------------------------------------------------------------------------------

  lemma Parts(n: int, m: int)
    requires m > 0
    ensures n == (n / m) * m + n % m
  {
  }

  lemma MultipleIsLarge(d: int, m: int)
    requires m > 0
    ensures d >= 1 ==> d * m >= m
    ensures d <= -1 ==> d * m <= -m
  {
    if d >= 1 {
      assert d * m == (d - 1) * m + m;
    } else if d <= -1 {
      assert d * m == (d + 1) * m - m;
    }
  }

  lemma RemainderIs(n: int, m: int, q: int, r: int)
    requires n == q * m + r && 0 <= r < m
    ensures n % m == r
  {
    Parts(n, m);
    assert (n / m - q) * m == r - n % m;
    MultipleIsLarge(n / m - q, m);
  }

  /** The remainder of what has gone round once at most. */
  lemma RemainderOnce(n: nat, m: nat)
    requires n < 2 * m
    ensures n % m == if n < m then n else n - m
  {
    if n < m {
      RemainderIs(n, m, 0, n);
    } else {
      RemainderIs(n, m, 1, n - m);
    }
  }

  lemma NextRemainder(n: nat, m: nat)
    requires m > 0
    ensures (n % m + 1) % m == (n + 1) % m
  {
    Parts(n, m);
    RemainderOnce(n % m + 1, m);
    if n % m + 1 < m {
      RemainderIs(n + 1, m, n / m, n % m + 1);
    } else {
      assert (n / m + 1) * m == (n / m) * m + m;
      RemainderIs(n + 1, m, n / m + 1, 0);
    }
  }

  lemma SameSlot(j: nat, k: nat, m: nat)
    requires j <= k < j + m && j % m == k % m
    ensures j == k
  {
    Parts(j, m);
    Parts(k, m);
    assert (k / m - j / m) * m == k - j;
    MultipleIsLarge(k / m - j / m, m);
  }

  // ---------------------------------------------------------------------------------------------
  // The plain list it stands for
  // ---------------------------------------------------------------------------------------------

  datatype Call<!T> = Add(value: T) | FindIf(wanted: T -> bool) | Clear

  function WithoutFirst<T>(s: seq<T>, wanted: T -> bool): seq<T> {
    var k := FirstMatch(s, wanted);
    if k < |s| then s[..k] + s[k + 1..] else s
  }

  function Listed<T>(s: seq<T>, call: Call<T>): seq<T> {
    match call
    case Add(value) => s + [value]
    case FindIf(wanted) => WithoutFirst(s, wanted)
    case Clear => []
  }

  function ListAfter<T>(calls: seq<Call<T>>): seq<T>
    decreases |calls|
  {
    if calls == [] then [] else Listed(ListAfter(calls[..|calls| - 1]), calls[|calls| - 1])
  }

  function Applied<T>(r: Slots<T>, call: Call<T>, empty: Slots<T>): (r': Slots<T>)
    requires r.Valid() && empty.Valid() && |empty.slots| == |r.slots| > 0
    ensures r'.Valid() && |r'.slots| == |r.slots|
  {
    match call
    case Add(value) => r.Added(value)
    case FindIf(wanted) => r.Without(wanted)
    case Clear => empty
  }

  /** A new list, whose slots hold default values. */
  predicate IsNew<T>(r: Slots<T>) {
    r.Valid() && r.size == 0 && r.index == 0
  }

  predicate IsEmpty<T>(r: Slots<T>) {
    IsNew(r) && r.slots != []
  }

  function After<T>(empty: Slots<T>, calls: seq<Call<T>>): (r: Slots<T>)
    requires empty.Valid() && empty.slots != []
    ensures r.Valid() && |r.slots| == |empty.slots|
    decreases |calls|
  {
    if calls == [] then empty else Applied(After(empty, calls[..|calls| - 1]), calls[|calls| - 1], empty)
  }

  /** How many values were written over a full list since the last clear. */
  function Overwrites<T>(empty: Slots<T>, calls: seq<Call<T>>): nat
    requires empty.Valid() && empty.slots != []
    decreases |calls|
  {
    if calls == [] then 0 else
      var before := calls[..|calls| - 1];
      match calls[|calls| - 1]
      case Add(_) =>
        Overwrites(empty, before) + (if After(empty, before).size == |empty.slots| then 1 else 0)
      case FindIf(_) => Overwrites(empty, before)
      case Clear => 0
  }

  // ---------------------------------------------------------------------------------------------
  // How far the next slot is from the end of the visible ones
  // ---------------------------------------------------------------------------------------------

  /** The next value goes right behind the visible ones, or round to the first slot. */
  predicate Aligned<T>(r: Slots<T>) {
    r.index == if r.size == |r.slots| then 0 else r.size
  }

  /** How many places round from there it goes instead. */
  function Offset<T>(r: Slots<T>): (o: nat)
    requires r.Valid() && r.slots != []
    ensures o < |r.slots|
    ensures Aligned(r) <==> o == 0
  {
    if r.index >= r.size then r.index - r.size else r.index + |r.slots| - r.size
  }

  lemma OffsetStep<T>(r: Slots<T>, call: Call<T>, empty: Slots<T>)
    requires r.Valid() && IsEmpty(empty) && |empty.slots| == |r.slots|
    ensures Offset(Applied(r, call, empty)) ==
      match call
      case Add(_) => if r.size < |r.slots| then Offset(r) else (Offset(r) + 1) % |r.slots|
      case FindIf(_) => Offset(r)
      case Clear => 0
  {
    var m := |r.slots|;
    RemainderOnce(r.index + 1, m);
    RemainderOnce(r.index + m - 1, m);
    RemainderOnce(Offset(r) + 1, m);
  }

  lemma CountsOn(off: nat, off': nat, w: nat, w': nat, m: nat)
    requires m > 0 && off == w % m
    requires (off' == off && w' == w) || (off' == (off + 1) % m && w' == w + 1) || (off' == 0 && w' == 0)
    ensures off' == w' % m
  {
    NextRemainder(w, m);
    RemainderOnce(0, m);
  }

  /** In every run the next slot is off by as many places as a full list was written over. */
  lemma {:induction false} OffsetCountsOverwrites<T>(empty: Slots<T>, calls: seq<Call<T>>)
    requires IsEmpty(empty)
    ensures Offset(After(empty, calls)) == Overwrites(empty, calls) % |empty.slots|
    decreases |calls|
  {
    var m := |empty.slots|;
    if calls == [] {
      RemainderOnce(0, m);
    } else {
      var before, last := calls[..|calls| - 1], calls[|calls| - 1];
      OffsetCountsOverwrites(empty, before);
      OffsetStep(After(empty, before), last, empty);
      CountsOn(Offset(After(empty, before)), Offset(After(empty, calls)),
               Overwrites(empty, before), Overwrites(empty, calls), m);
    }
  }

  lemma AddAppends<T>(r: Slots<T>, value: T)
    requires r.Valid() && Aligned(r) && r.size < |r.slots|
    ensures r.Added(value).Visible() == r.Visible() + [value]
  {
  }

  /** Adding to a list that is not full appends, whatever the value, exactly when it is aligned. (Out
      of line, the value lands on or beyond the visible ones and a stale slot comes into view.) */
  lemma AddAppendsExactlyWhen<T>(r: Slots<T>, a: T, b: T)
    requires r.Valid() && r.size < |r.slots| && a != b
    ensures (r.Added(a).Visible() == r.Visible() + [a] && r.Added(b).Visible() == r.Visible() + [b]) <==> Aligned(r)
  {
    if Aligned(r) {
      AddAppends(r, a);
      AddAppends(r, b);
    } else {
      assert r.Added(a).Visible()[r.size] == r.slots[r.size] == r.Added(b).Visible()[r.size];
      assert (r.Visible() + [a])[r.size] == a && (r.Visible() + [b])[r.size] == b;
    }
  }

  /** So in every run the next value is appended exactly when a full list was written over a whole
      number of rounds since the last clear. */
  lemma NextAddAppendsExactlyWhen<T>(empty: Slots<T>, calls: seq<Call<T>>, a: T, b: T)
    requires IsEmpty(empty) && a != b && After(empty, calls).size < |empty.slots|
    ensures var r := After(empty, calls);
      (r.Added(a).Visible() == r.Visible() + [a] && r.Added(b).Visible() == r.Visible() + [b])
      <==> Overwrites(empty, calls) % |empty.slots| == 0
  {
    OffsetCountsOverwrites(empty, calls);
    AddAppendsExactlyWhen(After(empty, calls), a, b);
  }

  // ---------------------------------------------------------------------------------------------
  // Until the first overwrite it is a plain list
  // ---------------------------------------------------------------------------------------------

  lemma RemovedIsListed<T>(r: Slots<T>, k: nat)
    requires r.Valid() && k < r.size
    ensures r.RemovedAt(k).Visible() == r.Visible()[..k] + r.Visible()[k + 1..]
  {
  }

  lemma WithoutIsListed<T>(r: Slots<T>, wanted: T -> bool)
    requires r.Valid()
    ensures r.Without(wanted).Visible() == WithoutFirst(r.Visible(), wanted)
  {
  }

  /** While no full list was written over since the last clear, the visible slots are exactly the
      list that appends, removes first matches and clears. */
  lemma {:induction false} PlainListUntilOverwritten<T>(empty: Slots<T>, calls: seq<Call<T>>)
    requires IsEmpty(empty) && Overwrites(empty, calls) == 0
    ensures After(empty, calls).Visible() == ListAfter(calls)
    decreases |calls|
  {
    if calls == [] {
    } else {
      var before, last := calls[..|calls| - 1], calls[|calls| - 1];
      var r := After(empty, before);
      match last
      case Clear =>
      case FindIf(wanted) =>
        PlainListUntilOverwritten(empty, before);
        WithoutIsListed(r, wanted);
      case Add(value) =>
        PlainListUntilOverwritten(empty, before);
        OffsetCountsOverwrites(empty, before);
        AddAppends(r, value);
    }
  }

  lemma ThreeIntoTwo(empty: Slots<int>)
    requires IsEmpty(empty) && |empty.slots| == 2
    ensures empty.Added(1).Added(2) == Slots([1, 2], 2, 0)
    ensures empty.Added(1).Added(2).Added(3) == Slots([3, 2], 2, 1)
  {
    var one := empty.Added(1);
    assert one == Slots([1, one.slots[1]], 1, 1);
    assert one.Added(2) == Slots([1, 2], 2, 0);
  }

  /** After one overwrite it no longer is: with two slots, add 1, 2 and 3, remove 2 and add 4, and
      the removed 2 is back while 3 is gone. */
  lemma OverwrittenIsNotAList(empty: Slots<int>)
    requires IsEmpty(empty) && |empty.slots| == 2
    ensures var over := empty.Added(1).Added(2).Added(3);
      && over.Visible() == [3, 2]
      && over.Without(x => x == 2).Visible() == [3]
      && over.Without(x => x == 2).Added(4).Visible() == [4, 2]
  {
    ThreeIntoTwo(empty);
    var over := Slots([3, 2], 2, 1);
    FirstMatchIs(over.Visible(), x => x == 2, 1);
    assert over.Without(x => x == 2) == over.RemovedAt(1) == Slots([3, 2], 1, 0);
    assert Slots([3, 2], 1, 0).Added(4) == Slots([4, 2], 2, 1);
  }

  // ---------------------------------------------------------------------------------------------
  // Runs of additions
  // ---------------------------------------------------------------------------------------------

  function AddAll<T>(empty: Slots<T>, values: seq<T>): (r: Slots<T>)
    requires empty.Valid() && empty.slots != []
    ensures r.Valid() && |r.slots| == |empty.slots|
    decreases |values|
  {
    if values == [] then empty else AddAll(empty, values[..|values| - 1]).Added(values[|values| - 1])
  }

  /** Value k goes to slot k mod maxSize and stays until value k + maxSize. */
  lemma {:induction false} ValueStays<T>(empty: Slots<T>, values: seq<T>, k: nat)
    requires IsEmpty(empty) && k < |values| <= k + |empty.slots|
    ensures AddAll(empty, values).slots[k % |empty.slots|] == values[k]
    decreases |values|
  {
    AddAllCounts(empty, values[..|values| - 1]);
    if k < |values| - 1 {
      ValueStays(empty, values[..|values| - 1], k);
      if k % |empty.slots| == (|values| - 1) % |empty.slots| {
        SameSlot(k, |values| - 1, |empty.slots|);
      }
    }
  }

  lemma {:induction false} AddAllFills<T>(empty: Slots<T>, values: seq<T>)
    requires IsEmpty(empty)
    ensures AddAll(empty, values).size == if |values| < |empty.slots| then |values| else |empty.slots|
    decreases |values|
  {
    if values == [] {
    } else {
      AddAllFills(empty, values[..|values| - 1]);
    }
  }

  lemma {:induction false} AddAllCounts<T>(empty: Slots<T>, values: seq<T>)
    requires IsEmpty(empty)
    ensures AddAll(empty, values).index == |values| % |empty.slots|
    ensures AddAll(empty, values).size == if |values| < |empty.slots| then |values| else |empty.slots|
    decreases |values|
  {
    if values == [] {
    } else {
      AddAllCounts(empty, values[..|values| - 1]);
      NextRemainder(|values| - 1, |empty.slots|);
    }
  }

  /** How many of the values belong to the last, unfinished round. */
  function LastRound(n: nat, m: nat): (t: nat)
    requires m > 0
    ensures t < m
  {
    n % m
  }

  /** The value that slot j holds after n additions, t of them in the last round. */
  function KeptIn(n: nat, m: nat, t: nat, j: nat): (k: nat)
    requires t < m <= n && j < m
    ensures k < n
  {
    if j < t then n - t + j else n - t - m + j
  }

  lemma SlotHolds<T>(empty: Slots<T>, values: seq<T>, t: nat, j: nat)
    requires IsEmpty(empty) && j < |empty.slots| <= |values|
    requires t == LastRound(|values|, |empty.slots|)
    ensures AddAll(empty, values).slots[j] == values[KeptIn(|values|, |empty.slots|, t, j)]
  {
    SlotOf(|values|, |empty.slots|, t, j);
    ValueStays(empty, values, KeptIn(|values|, |empty.slots|, t, j));
  }

  /** The last m values, of which the last t have come round to the front. */
  function LastTurned<T>(values: seq<T>, m: nat, t: nat): seq<T>
    requires t < m <= |values|
  {
    values[|values| - t..] + values[|values| - m..|values| - t]
  }

  lemma TurnedIs<T>(slots: seq<T>, values: seq<T>, t: nat)
    requires t < |slots| <= |values|
    requires forall j :: 0 <= j < |slots| ==>
      slots[j] == values[KeptIn(|values|, |slots|, t, j)]
    ensures slots == LastTurned(values, |slots|, t)
  {
  }

  lemma AllSlotsHold<T>(empty: Slots<T>, values: seq<T>, t: nat)
    requires IsEmpty(empty) && |empty.slots| <= |values|
    requires t == LastRound(|values|, |empty.slots|)
    ensures AddAll(empty, values).slots == LastTurned(values, |empty.slots|, t)
  {
    var n, m := |values|, |empty.slots|;
    forall j | 0 <= j < m
      ensures AddAll(empty, values).slots[j] == values[KeptIn(n, m, t, j)]
    {
      SlotHolds(empty, values, t, j);
    }
    TurnedIs(AddAll(empty, values).slots, values, t);
  }

  lemma {:induction false} AddAllStarts<T>(empty: Slots<T>, values: seq<T>)
    requires IsEmpty(empty) && |values| < |empty.slots|
    ensures AddAll(empty, values).Visible() == values
    decreases |values|
  {
    AddAllCounts(empty, values);
    RemainderOnce(|values|, |empty.slots|);
    if values == [] {
    } else {
      var before := values[..|values| - 1];
      AddAllStarts(empty, before);
      AddAllCounts(empty, before);
      RemainderOnce(|before|, |empty.slots|);
      AddAppends(AddAll(empty, before), values[|values| - 1]);
      assert values == before + [values[|values| - 1]];
    }
  }

  lemma FullIsVisible<T>(r: Slots<T>)
    requires r.Valid() && r.size == |r.slots|
    ensures r.Visible() == r.slots
  {
  }

  lemma AddsTurn<T>(empty: Slots<T>, values: seq<T>, t: nat)
    requires IsEmpty(empty) && |empty.slots| <= |values|
    requires t == LastRound(|values|, |empty.slots|)
    ensures AddAll(empty, values).Visible() == LastTurned(values, |empty.slots|, t)
  {
    AddAllFills(empty, values);
    AllSlotsHold(empty, values, t);
    FullIsVisible(AddAll(empty, values));
  }

  /** After any number of additions the visible slots are the last maxSize values, turned so that each
      stands in its own slot. */
  lemma AddsKeepTheLast<T>(empty: Slots<T>, values: seq<T>)
    requires IsEmpty(empty)
    ensures var m := |empty.slots|;
      AddAll(empty, values).Visible() ==
        if |values| < m then values else LastTurned(values, m, LastRound(|values|, m))
  {
    if |values| < |empty.slots| {
      AddAllStarts(empty, values);
    } else {
      AddsTurn(empty, values, LastRound(|values|, |empty.slots|));
    }
  }

  lemma SlotOf(n: nat, m: nat, t: nat, j: nat)
    requires j < m <= n && t == LastRound(n, m)
    ensures KeptIn(n, m, t, j) % m == j
  {
    Parts(n, m);
    RemainderIs(n - t + j, m, n / m, j);
    assert (n / m - 1) * m == (n / m) * m - m;
    RemainderIs(n - t - m + j, m, n / m - 1, j);
  }

  // ---------------------------------------------------------------------------------------------
  // The class
  // ---------------------------------------------------------------------------------------------

  /** Between position and i the values have moved down by one. */
  ghost predicate Shifting<T>(was: seq<T>, now: seq<T>, position: nat, i: nat)
    requires position <= i < |was|
  {
    && |now| == |was|
    && (forall k :: 0 <= k < |was| && (k < position || i <= k) ==> now[k] == was[k])
    && (forall k :: position <= k < i ==> now[k] == was[k + 1])
  }

  lemma ShiftedIs<T>(was: seq<T>, now: seq<T>, position: nat, size: nat)
    requires position < size <= |was| && Shifting(was, now, position, size - 1)
    ensures now == was[..position] + was[position + 1..size] + was[size - 1..]
  {
  }

  class FixedSizeList<T(0)> {
    const maxSize: nat
    var data: array<T>
    var currentSize: nat
    var index: nat

    ghost predicate Valid()
      reads this
    {
      data.Length == maxSize && currentSize <= maxSize && (if maxSize == 0 then index == 0 else index < maxSize)
    }

    ghost function View(): (r: Slots<T>)
      requires Valid()
      reads this, data
      ensures r.Valid()
    {
      Slots(data[..], currentSize, index)
    }

    constructor (size: nat)
      ensures Valid() && fresh(data) && maxSize == size && IsNew(View())
    {
      maxSize, currentSize, index := size, 0, 0;
      data := new T[size];
    }

    method Add(value: T)
      requires Valid() && maxSize > 0
      modifies this, data
      ensures Valid() && data == old(data) && View() == old(View()).Added(value)
      ensures data[old(index)] == value && index == (if old(index) + 1 == maxSize then 0 else old(index) + 1)
      ensures currentSize == if old(currentSize) < maxSize then old(currentSize) + 1 else maxSize
    {
      data[index] := value;
      RemainderOnce(index + 1, maxSize);
      index := (index + 1) % maxSize;
      if currentSize < maxSize {
        currentSize := currentSize + 1;
      }
    }

    method FindIf(wanted: T -> bool) returns (found: Option<T>)
      requires Valid()
      modifies this, data
      ensures Valid() && data == old(data) && View() == old(View()).Without(wanted)
      ensures var visible, k := old(View()).Visible(), FirstMatch(old(View()).Visible(), wanted);
        && found == (if k < |visible| then Some(visible[k]) else None)
        && View().Visible() == if k < |visible| then visible[..k] + visible[k + 1..] else visible
    {
      ghost var visible := View().Visible();
      for i := 0 to currentSize
        invariant View() == old(View())
        invariant Valid()
        invariant forall j :: 0 <= j < i ==> !wanted(visible[j])
      {
        if wanted(data[i]) {
          FirstMatchIs(visible, wanted, i);
          var result := data[i];
          RemoveAt(i);
          RemovedIsListed(old(View()), i);
          return Some(result);
        }
      }
      FirstMatchIs(visible, wanted, currentSize);
      return None;
    }

    method RemoveAt(position: nat)
      requires Valid()
      modifies this, data
      ensures Valid() && data == old(data)
      ensures View() == if position < old(currentSize) then old(View()).RemovedAt(position) else old(View())
    {
      if position < currentSize {
        ghost var was := data[..];
        for i := position to currentSize - 1
          invariant Valid() && data == old(data) && currentSize == old(currentSize) && index == old(index)
          invariant Shifting(was, data[..], position, i)
        {
          data[i] := data[i + 1];
        }
        ShiftedIs(was, data[..], position, currentSize);
        currentSize := currentSize - 1;
        index := (index + maxSize - 1) % maxSize;
      }
    }

    method Clear()
      requires Valid()
      modifies this
      ensures Valid() && fresh(data) && IsNew(View())
    {
      data := new T[maxSize];
      currentSize, index := 0, 0;
    }
  }
}

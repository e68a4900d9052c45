/** common/utils/camera_dynamic_loader.cpp: a cache of loaded libraries by name, with strong entries, weak
    entries and shared ownership by clients.

    Every map of the source is keyed by the library name, so the state is kept per name; `g_libMutex` is
    the only thing names share.  It is held through a whole GetDynamiclib, including the constructor's
    wait for the old instance to be closed, which gives up after five seconds; clients drop their
    references, and so run destructors, without it. */
module DynamicLoaders {
  import opened Options

  type Name = string
  type LibId = nat

  datatype LibState = UNLOAD | LOADED

  /** The life of one Dynamiclib object. */
  datatype Phase =
    | Constructing   // in its constructor, before dlopen
    | Opened         // dlopen succeeded, the state map not yet updated
    | Live           // owned by somebody
    | Closing        // nobody owns it any more, dlclose still to come
    | Closed         // dlclose done, the state map not yet updated

  datatype Lib = Lib(phase: Phase, clients: nat) {
    /** libHandle_ != nullptr */
    predicate Open() {
      phase.Opened? || phase.Live? || phase.Closing?
    }

    /** The constructor is not done with it. */
    predicate Building() {
      phase.Constructing? || phase.Opened?
    }
  }

  /** Everything about one name. */
  datatype Entry = Entry(
    strong: Option<LibId>,       // g_dynamiclibMap
    weak: Option<LibId>,         // g_weakDynamiclibMap
    state: Option<LibState>,     // g_dynamiclibStateMap
    libs: map<LibId, Lib>,       // the objects of this name that exist
    building: Option<LibId>,     // the one whose constructor runs, under g_libMutex
    next: LibId)

  datatype Step =
    | Get
    | Dlopen(success: bool, timedOut: bool)   // whether the wait before it has timed out
    | Publish
    | Free
    | Share(id: LibId)
    | Drop(id: LibId)
    | Dlclose(id: LibId)
    | MarkUnloaded(id: LibId)
  {
    /** The steps that begin by taking g_libMutex. */
    predicate Locks() { Get? || Free? }
  }

  const FRESH := Entry(None, None, None, map[], None, 0)

  predicate IsLive(e: Entry, id: LibId) {
    id in e.libs && e.libs[id].phase.Live?
  }

  /** What GetDynamiclib finds without constructing anything: the strong entry, or the weak one while
      its object is still owned. */
  function Cached(e: Entry): Option<LibId> {
    if e.strong.Some? then e.strong
    else if e.weak.Some? && IsLive(e, e.weak.value) then e.weak
    else None
  }

  predicate Builds(e: Entry, phase: Phase) {
    e.building.Some? && e.building.value in e.libs && e.libs[e.building.value].phase == phase
  }

  predicate Enabled(e: Entry, step: Step) {
    match step
    case Get => e.building.None? && (Cached(e).Some? ==> Cached(e).value in e.libs)
    case Dlopen(_, timedOut) => Builds(e, Constructing) && (timedOut || e.state != Some(LOADED))
    case Publish => Builds(e, Opened)
    case Free => e.building.None? && (e.strong.Some? ==> e.strong.value in e.libs)
    case Share(id) => IsLive(e, id) && e.libs[id].clients > 0
    case Drop(id) => IsLive(e, id) && e.libs[id].clients > 0
    case Dlclose(id) => id in e.libs && e.libs[id].phase.Closing?
    case MarkUnloaded(id) => id in e.libs && e.libs[id].phase.Closed?
  }

  /** The object with this number of clients; without any, and outside the strong map, its destructor
      starts. */
  function WithClients(e: Entry, id: LibId, clients: nat): Entry {
    e.(libs := e.libs[id := Lib(if clients == 0 && e.strong != Some(id) then Closing else Live, clients)])
  }

  function Apply(e: Entry, step: Step): Entry
    requires Enabled(e, step)
  {
    match step
    case Get =>
      (match Cached(e)
       case Some(id) => WithClients(e, id, e.libs[id].clients + 1).(strong := Some(id))
       case None => e.(libs := e.libs[e.next := Lib(Constructing, 0)], building := Some(e.next), next := e.next + 1))
    case Dlopen(success, _) =>
      var id := e.building.value;
      if success then e.(libs := e.libs[id := Lib(Opened, 0)]) else e.(libs := e.libs - {id}, building := None)
    case Publish =>
      var id := e.building.value;
      e.(state := Some(LOADED), strong := Some(id), building := None, libs := e.libs[id := Lib(Live, 1)])
    case Free =>
      (match e.strong
       case None => e
       case Some(id) => WithClients(e.(weak := Some(id), strong := None), id, e.libs[id].clients))
    case Share(id) => WithClients(e, id, e.libs[id].clients + 1)
    case Drop(id) => WithClients(e, id, e.libs[id].clients - 1)
    case Dlclose(id) => e.(libs := e.libs[id := Lib(Closed, 0)])
    case MarkUnloaded(id) => e.(state := Some(UNLOAD), libs := e.libs - {id})
  }

  // ---------------------------------------------------------------------------------------------
  // One name
  // ---------------------------------------------------------------------------------------------

  ghost predicate Loaded(e: Entry) {
    exists i :: i in e.libs && !e.libs[i].Building()
  }

  ghost predicate Inv(e: Entry) {
    // one object at most is beyond its dlopen
    && (forall i, j :: i in e.libs && j in e.libs && !e.libs[i].phase.Constructing? && !e.libs[j].phase.Constructing?
          ==> i == j)
    // LOADED from the publication of an object until its handle has been closed, and only then
    && (e.state == Some(LOADED) <==> Loaded(e))
    // the strong entry is live, and a live object is in the strong entry or owned and in the weak one
    && (e.strong.Some? ==> IsLive(e, e.strong.value))
    && (forall i :: IsLive(e, i) ==>
         e.strong == Some(i) || (e.strong == None && e.weak == Some(i) && e.libs[i].clients > 0))
    // one constructor at a time, and only while nothing is live
    && (forall i :: i in e.libs && e.libs[i].Building() ==> e.building == Some(i))
    && (e.building.Some? ==> e.building.value in e.libs && e.libs[e.building.value].Building())
    && (e.building.Some? ==> forall i :: !IsLive(e, i))
    && (forall i :: i in e.libs ==> i < e.next)
  }

  lemma GetCachedKeepsInv(e: Entry, id: LibId)
    requires Inv(e) && Enabled(e, Get) && Cached(e) == Some(id)
    ensures Inv(Apply(e, Get))
  {
    assert !Apply(e, Get).libs[id].Building() && !e.libs[id].Building();
  }

  lemma GetNewKeepsInv(e: Entry)
    requires Inv(e) && Enabled(e, Get) && Cached(e) == None
    ensures Inv(Apply(e, Get))
  {
    var n := Apply(e, Get);
    assert Loaded(n) <==> Loaded(e) by {
      assert forall i :: i in n.libs && !n.libs[i].Building() ==> i in e.libs && n.libs[i] == e.libs[i];
      assert forall i :: i in e.libs ==> n.libs[i] == e.libs[i];
    }
  }

  /** The one step that breaks it: a constructor that has waited in vain opens the library again. */
  predicate Overruns(e: Entry, step: Step) {
    step.Dlopen? && step.success && e.state == Some(LOADED)
  }

  lemma DlopenKeepsInvExactlyWhen(e: Entry, success: bool, timedOut: bool)
    requires Inv(e) && Enabled(e, Dlopen(success, timedOut))
    ensures Inv(Apply(e, Dlopen(success, timedOut))) == !(success && e.state == Some(LOADED))
  {
    var n, id := Apply(e, Dlopen(success, timedOut)), e.building.value;
    assert e.libs[id].Building();
    assert Loaded(n) == Loaded(e) by {
      assert forall i :: i != id ==> (i in n.libs <==> i in e.libs);
      assert forall i :: i in n.libs && i != id ==> n.libs[i] == e.libs[i];
    }
    if success && e.state == Some(LOADED) {
      var i :| i in e.libs && !e.libs[i].Building();
      assert i != id && !n.libs[i].phase.Constructing? && !n.libs[id].phase.Constructing?;
    } else if success {
      assert forall i :: i in e.libs ==> e.libs[i].Building();
    }
  }

  lemma PublishKeepsInv(e: Entry)
    requires Inv(e) && Enabled(e, Publish)
    ensures Inv(Apply(e, Publish))
  {
    assert !Apply(e, Publish).libs[e.building.value].Building();
  }

  lemma OwnersKeepInv(e: Entry, step: Step)
    requires Inv(e) && Enabled(e, step) && (step.Free? || step.Share? || step.Drop?)
    ensures Inv(Apply(e, step))
  {
    var n := Apply(e, step);
    if step.Free? {
      if e.strong.Some? { assert !n.libs[e.strong.value].Building() && !e.libs[e.strong.value].Building(); }
    } else {
      assert !n.libs[step.id].Building() && !e.libs[step.id].Building();
    }
  }

  lemma CloseKeepsInv(e: Entry, step: Step)
    requires Inv(e) && Enabled(e, step) && (step.Dlclose? || step.MarkUnloaded?)
    ensures Inv(Apply(e, step))
  {
    var n := Apply(e, step);
    assert !e.libs[step.id].Building();
    if step.Dlclose? {
      assert !n.libs[step.id].Building();
    } else {
      assert !Loaded(n);
    }
  }

  /** A step keeps the invariant exactly when it does not open the library past a wait that gave up. */
  lemma StepKeepsInvExactlyWhen(e: Entry, step: Step)
    requires Inv(e) && Enabled(e, step)
    ensures Inv(Apply(e, step)) == !Overruns(e, step)
  {
    match step
    case Get =>
      if Cached(e).Some? {
        GetCachedKeepsInv(e, Cached(e).value);
      } else {
        GetNewKeepsInv(e);
      }
    case Dlopen(success, timedOut) => DlopenKeepsInvExactlyWhen(e, success, timedOut);
    case Publish => PublishKeepsInv(e);
    case Free => OwnersKeepInv(e, step);
    case Share(_) => OwnersKeepInv(e, step);
    case Drop(_) => OwnersKeepInv(e, step);
    case Dlclose(_) => CloseKeepsInv(e, step);
    case MarkUnloaded(_) => CloseKeepsInv(e, step);
  }

  /** Such a step leaves two handles open exactly when the old instance has not been closed by then. */
  lemma OverrunOpensTwoExactlyWhen(e: Entry, step: Step)
    requires Inv(e) && Enabled(e, step) && Overruns(e, step)
    ensures var n := Apply(e, step);
      (exists i, j :: i != j && i in n.libs && j in n.libs && n.libs[i].Open() && n.libs[j].Open())
      <==> exists i :: i in e.libs && e.libs[i].phase.Closing?
  {
    var n, id := Apply(e, step), e.building.value;
    assert n.libs[id].Open();
    if i :| i in e.libs && e.libs[i].phase.Closing? {
      assert i != id && n.libs[i].Open();
    }
    if i, j :| i != j && i in n.libs && j in n.libs && n.libs[i].Open() && n.libs[j].Open() {
      var k := if i == id then j else i;
      assert k in e.libs && e.libs[k] == n.libs[k] && !IsLive(e, k);
      assert e.libs[k].phase.Closing?;
    }
  }

  lemma OnlyGetBuilds(e: Entry, step: Step)
    requires Enabled(e, step) && e.building.None?
    ensures Apply(e, step).building.Some? ==> step.Locks()
  {
  }

  /** References are counted: a get, a share and a drop change the clients of their instance by one, and
      nothing else does; and an instance that loses its last client while it is not strong, or its strong
      entry while it has no client, begins to close. */
  lemma ReferencesAreCounted(e: Entry, step: Step, id: LibId)
    requires Inv(e) && Enabled(e, step) && !Overruns(e, step) && IsLive(e, id)
    ensures var n := Apply(e, step);
      && id in n.libs
      && n.libs[id].clients == e.libs[id].clients
         + (if step.Get? && Cached(e) == Some(id) then 1 else 0) + (if step == Share(id) then 1 else 0)
         - (if step == Drop(id) then 1 else 0)
      && (n.libs[id].phase.Closing? <==> n.libs[id].clients == 0 && n.strong != Some(id))
      && (n.libs[id].phase.Closing? || n.libs[id].phase.Live?)
  {
  }

  /** How an instance comes and goes: a get without one at hand constructs it; dlopen and the publication
      make it strong with one client; and a closing one ends with dlclose and UNLOAD. */
  lemma LifeOfAnInstance(e: Entry, id: LibId)
    requires Inv(e)
    ensures Enabled(e, Get) && Cached(e) == None ==>
      var n := Apply(e, Get); n.building == Some(e.next) && n.libs == e.libs[e.next := Lib(Constructing, 0)]
    ensures Enabled(e, Dlopen(true, false)) ==>
      var n := Apply(e, Dlopen(true, false)); n.libs == e.libs[e.building.value := Lib(Opened, 0)]
    ensures Enabled(e, Dlopen(false, false)) ==>
      var n := Apply(e, Dlopen(false, false)); n.building == None && n.libs == e.libs - {e.building.value}
    ensures Enabled(e, Publish) ==>
      var n := Apply(e, Publish);
      n.strong == e.building && n.state == Some(LOADED) && n.building == None
      && n.libs == e.libs[e.building.value := Lib(Live, 1)]
    ensures Enabled(e, Free) && e.strong.Some? ==>
      var n := Apply(e, Free); n.strong == None && n.weak == e.strong
    ensures Enabled(e, Dlclose(id)) ==> Apply(e, Dlclose(id)) == e.(libs := e.libs[id := Lib(Closed, 0)])
    ensures Enabled(e, MarkUnloaded(id)) ==>
      Apply(e, MarkUnloaded(id)) == e.(state := Some(UNLOAD), libs := e.libs - {id})
  {
  }

  /** Two open handles for the name never coexist. */
  lemma OneHandle(e: Entry, i: LibId, j: LibId)
    requires Inv(e) && i in e.libs && j in e.libs && e.libs[i].Open() && e.libs[j].Open()
    ensures i == j
  {
  }

  /** While any client holds an instance, GetDynamiclib returns that same instance. */
  lemma GetReturnsTheHeldInstance(e: Entry, id: LibId)
    requires Inv(e) && IsLive(e, id) && e.libs[id].clients > 0 && e.building == None
    ensures Enabled(e, Get) && Cached(e) == Some(id)
    ensures var n := Apply(e, Get); n.strong == Some(id) && n.libs == e.libs[id := Lib(Live, e.libs[id].clients + 1)]
  {
  }

  /** A constructor that waits for UNLOAD waits for one object whose destructor is under way: as soon as
      that is through, or else when it gives up, the wait is over. */
  lemma WaitEnds(e: Entry)
    requires Inv(e) && Builds(e, Constructing) && e.state == Some(LOADED)
    ensures Enabled(e, Dlopen(true, true)) && !Enabled(e, Dlopen(true, false))
    ensures exists id ::
      || (Enabled(e, Dlclose(id)) && Enabled(Apply(e, Dlclose(id)), MarkUnloaded(id)))
      || (Enabled(e, MarkUnloaded(id)) && Enabled(Apply(e, MarkUnloaded(id)), Dlopen(true, false)))
  {
    var id :| id in e.libs && !e.libs[id].Building();
    assert !IsLive(e, id);
    if e.libs[id].phase.Closing? {
      assert Enabled(e, Dlclose(id)) && Enabled(Apply(e, Dlclose(id)), MarkUnloaded(id));
    } else {
      assert Enabled(e, MarkUnloaded(id)) && Enabled(Apply(e, MarkUnloaded(id)), Dlopen(true, false));
    }
  }

  // ---------------------------------------------------------------------------------------------
  // All names
  // ---------------------------------------------------------------------------------------------

  type State = map<Name, Entry>

  function Of(s: State, name: Name): Entry {
    if name in s then s[name] else FRESH
  }

  predicate MutexFree(s: State) {
    forall name :: name in s ==> s[name].building.None?
  }

  datatype NamedStep = NamedStep(name: Name, step: Step)

  predicate CanStep(s: State, ns: NamedStep) {
    Enabled(Of(s, ns.name), ns.step) && (ns.step.Locks() ==> MutexFree(s))
  }

  predicate Runs(s: State, steps: seq<NamedStep>)
    decreases |steps|
  {
    steps == [] || (CanStep(s, steps[0]) && Runs(Next(s, steps[0]), steps[1..]))
  }

  function Next(s: State, ns: NamedStep): State
    requires CanStep(s, ns)
  {
    s[ns.name := Apply(Of(s, ns.name), ns.step)]
  }

  function Final(s: State, steps: seq<NamedStep>): State
    requires Runs(s, steps)
    decreases |steps|
  {
    if steps == [] then s else Final(Next(s, steps[0]), steps[1..])
  }

  ghost predicate AllInv(s: State) {
    && (forall name :: name in s ==> Inv(s[name]))
    && (forall a, b :: a in s && b in s && s[a].building.Some? && s[b].building.Some? ==> a == b)
  }

  lemma PutKeepsInv(s: State, name: Name, e: Entry)
    requires AllInv(s) && Inv(e)
    requires e.building.Some? ==> forall other :: other in s && other != name ==> s[other].building.None?
    ensures AllInv(s[name := e])
  {
  }

  lemma NextKeepsInv(s: State, ns: NamedStep)
    requires AllInv(s) && CanStep(s, ns) && !Overruns(Of(s, ns.name), ns.step)
    ensures AllInv(Next(s, ns))
  {
    var e := Of(s, ns.name);
    assert Inv(e);
    StepKeepsInvExactlyWhen(e, ns.step);
    if e.building.None? {
      OnlyGetBuilds(e, ns.step);
    }
    PutKeepsInv(s, ns.name, Apply(e, ns.step));
  }

  /** No constructor opens a library past a wait that gave up. */
  ghost predicate Patient(s: State, steps: seq<NamedStep>)
    requires Runs(s, steps)
    decreases |steps|
  {
    steps == [] || (!Overruns(Of(s, steps[0].name), steps[0].step) && Patient(Next(s, steps[0]), steps[1..]))
  }

  lemma {:induction false} RunKeepsInv(s: State, steps: seq<NamedStep>)
    requires AllInv(s) && Runs(s, steps) && Patient(s, steps)
    ensures AllInv(Final(s, steps))
    decreases |steps|
  {
    if steps == [] {
    } else {
      NextKeepsInv(s, steps[0]);
      RunKeepsInv(Next(s, steps[0]), steps[1..]);
    }
  }

  /** Over any interleaving of gets, frees and clients sharing and dropping their references, for any
      names, as long as no constructor opens past a wait that gave up: of each name one handle at most is
      open, and an instance some client holds is the one the next GetDynamiclib returns. */
  lemma OneInstancePerName(steps: seq<NamedStep>, name: Name)
    requires Runs(map[], steps) && Patient(map[], steps)
    ensures var e := Of(Final(map[], steps), name);
      && (forall i, j :: i in e.libs && j in e.libs && e.libs[i].Open() && e.libs[j].Open() ==> i == j)
      && (forall id :: IsLive(e, id) && e.libs[id].clients > 0 ==> Cached(e) == Some(id))
  {
    RunKeepsInv(map[], steps);
    assert Inv(Of(Final(map[], steps), name));
  }

  /** One step of a run about one name. */
  lemma RunsCons(name: Name, e: Entry, step: Step, n: Entry, rest: seq<NamedStep>)
    requires Enabled(e, step) && Apply(e, step) == n && (step.Locks() ==> e.building.None?)
    requires Runs(map[name := n], rest)
    ensures Runs(map[name := e], [NamedStep(name, step)] + rest)
    ensures Final(map[name := e], [NamedStep(name, step)] + rest) == Final(map[name := n], rest)
  {
    var s: State := map[name := e];
    assert Next(s, NamedStep(name, step)) == map[name := n];
    assert ([NamedStep(name, step)] + rest)[1..] == rest;
  }

  const LOADING := FRESH.(libs := map[0 := Lib(Constructing, 0)], building := Some(0), next := 1)
  const HELD := Entry(Some(0), None, Some(LOADED), map[0 := Lib(Live, 1)], None, 1)

  /** Freed, while one client holds the library. */
  const WEAK := HELD.(strong := None, weak := Some(0))
  const CLOSING := WEAK.(libs := map[0 := Lib(Closing, 0)])
  const WAITING :=
    CLOSING.(libs := map[0 := Lib(Closing, 0), 1 := Lib(Constructing, 0)], building := Some(1), next := 2)

  lemma ReachWeak(name: Name, rest: seq<NamedStep>) returns (steps: seq<NamedStep>)
    requires Runs(map[name := WEAK], rest)
    ensures Runs(map[name := FRESH], steps) && Final(map[name := FRESH], steps) == Final(map[name := WEAK], rest)
  {
    var loaded := LOADING.(libs := map[0 := Lib(Opened, 0)]);
    assert Apply(HELD, Free) == WEAK;
    RunsCons(name, HELD, Free, WEAK, rest);
    steps := [NamedStep(name, Free)] + rest;
    assert Apply(loaded, Publish) == HELD;
    RunsCons(name, loaded, Publish, HELD, steps);
    steps := [NamedStep(name, Publish)] + steps;
    assert Apply(LOADING, Dlopen(true, false)) == loaded;
    RunsCons(name, LOADING, Dlopen(true, false), loaded, steps);
    steps := [NamedStep(name, Dlopen(true, false))] + steps;
    assert Apply(FRESH, Get) == LOADING;
    RunsCons(name, FRESH, Get, LOADING, steps);
    steps := [NamedStep(name, Get)] + steps;
  }

  /** Otherwise it fails: a client drops the last reference, its destructor takes more than five
      seconds to close the library, and a get meanwhile gives up waiting and opens it a second time. */
  lemma SlowCloseOpensTwo(name: Name) returns (steps: seq<NamedStep>)
    ensures Runs(map[name := FRESH], steps)
    ensures var e := Of(Final(map[name := FRESH], steps), name);
      0 in e.libs && 1 in e.libs && e.libs[0].Open() && e.libs[1].Open()
  {
    var twice := WAITING.(libs := map[0 := Lib(Closing, 0), 1 := Lib(Opened, 0)]);
    assert Apply(WAITING, Dlopen(true, true)) == twice;
    RunsCons(name, WAITING, Dlopen(true, true), twice, []);
    steps := [NamedStep(name, Dlopen(true, true))] + [];
    assert Apply(CLOSING, Get) == WAITING;
    RunsCons(name, CLOSING, Get, WAITING, steps);
    steps := [NamedStep(name, Get)] + steps;
    assert Apply(WEAK, Drop(0)) == CLOSING;
    RunsCons(name, WEAK, Drop(0), CLOSING, steps);
    steps := [NamedStep(name, Drop(0))] + steps;
    steps := ReachWeak(name, steps);
  }

  // ---------------------------------------------------------------------------------------------
  // The class
  // ---------------------------------------------------------------------------------------------

  class DynamicLoader {
    var dynamiclibMap: map<Name, LibId>
    var weakDynamiclibMap: map<Name, LibId>
    var dynamiclibStateMap: map<Name, LibState>

    function Lookup<T>(m: map<Name, T>, name: Name): Option<T> {
      if name in m then Some(m[name]) else None
    }

    /** The three maps say about this name what the entry says. */
    ghost predicate Shows(name: Name, e: Entry)
      reads this
    {
      && Lookup(dynamiclibMap, name) == e.strong
      && Lookup(weakDynamiclibMap, name) == e.weak
      && Lookup(dynamiclibStateMap, name) == e.state
    }

    /** Nothing about any other name has changed. */
    twostate predicate OnlyChanged(name: Name)
      reads this
    {
      forall other :: other != name ==>
        && Lookup(dynamiclibMap, other) == old(Lookup(dynamiclibMap, other))
        && Lookup(weakDynamiclibMap, other) == old(Lookup(weakDynamiclibMap, other))
        && Lookup(dynamiclibStateMap, other) == old(Lookup(dynamiclibStateMap, other))
    }

    constructor ()
      ensures forall name :: Shows(name, FRESH)
    {
      dynamiclibMap, weakDynamiclibMap, dynamiclibStateMap := map[], map[], map[];
    }

    /** GetDynamiclibNoLock up to the point where it has an instance or must construct one; `owned` are
        the objects whose reference count is not zero. */
    method GetDynamiclibNoLock(libName: Name, owned: set<LibId>, ghost e: Entry) returns (found: Option<LibId>)
      requires Shows(libName, e) && Enabled(e, Get)
      requires forall id :: id in owned <==> IsLive(e, id)
      modifies this`dynamiclibMap
      ensures Shows(libName, Apply(e, Get)) && OnlyChanged(libName)
      ensures found == Cached(e)
      ensures libName in old(dynamiclibMap) ==> found == Some(old(dynamiclibMap)[libName])
      ensures libName !in old(dynamiclibMap) ==>
        found == if libName in weakDynamiclibMap && weakDynamiclibMap[libName] in owned
          then Some(weakDynamiclibMap[libName]) else None
      ensures found.Some? ==> libName in dynamiclibMap && dynamiclibMap[libName] == found.value
    {
      found := None;
      if libName in dynamiclibMap {
        return Some(dynamiclibMap[libName]);
      }
      if libName in weakDynamiclibMap && weakDynamiclibMap[libName] in owned {
        found := Some(weakDynamiclibMap[libName]);
        dynamiclibMap := dynamiclibMap[libName := weakDynamiclibMap[libName]];
      }
    }

    method UpdateDynamiclibState(libName: Name, state: LibState)
      modifies this`dynamiclibStateMap
      ensures OnlyChanged(libName) && dynamiclibStateMap == old(dynamiclibStateMap)[libName := state]
    {
      dynamiclibStateMap := dynamiclibStateMap[libName := state];
    }

    /** The predicate of WaitDynamiclibState.  With UNLOAD as its target it lets a constructor through
        exactly when it can open the library without giving up. */
    method WaitIsOver(libName: Name, target: LibState, ghost e: Entry) returns (r: bool)
      requires Shows(libName, e)
      ensures target == UNLOAD && Builds(e, Constructing) ==> (r <==> Enabled(e, Dlopen(true, false)))
      ensures target == UNLOAD && Inv(e) ==> (r <==> !Loaded(e))
    {
      if libName !in dynamiclibStateMap {
        return true;
      }
      return dynamiclibStateMap[libName] == target;
    }

    /** What the constructor and GetDynamiclibNoLock do once dlopen has succeeded. */
    method PublishNew(libName: Name, id: LibId, ghost e: Entry)
      requires Shows(libName, e) && Enabled(e, Publish) && e.building == Some(id)
      modifies this`dynamiclibStateMap, this`dynamiclibMap
      ensures Shows(libName, Apply(e, Publish)) && OnlyChanged(libName)
      ensures libName in dynamiclibMap && dynamiclibMap[libName] == id
      ensures libName in dynamiclibStateMap && dynamiclibStateMap[libName] == LOADED
    {
      UpdateDynamiclibState(libName, LOADED);
      dynamiclibMap := dynamiclibMap[libName := id];
    }

    method FreeDynamiclibNoLock(libName: Name, ghost e: Entry)
      requires Shows(libName, e) && Enabled(e, Free)
      modifies this`dynamiclibMap, this`weakDynamiclibMap
      ensures Shows(libName, Apply(e, Free)) && OnlyChanged(libName)
      ensures libName !in dynamiclibMap
      ensures libName in old(dynamiclibMap) ==>
        libName in weakDynamiclibMap && weakDynamiclibMap[libName] == old(dynamiclibMap)[libName]
    {
      if libName !in dynamiclibMap {
        return;
      }
      weakDynamiclibMap := weakDynamiclibMap[libName := dynamiclibMap[libName]];
      dynamiclibMap := dynamiclibMap - {libName};
    }
  }
}

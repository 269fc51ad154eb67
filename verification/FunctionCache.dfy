/**
  The double-checked function cache of `getCudaFunction`: two read-locked
  snapshots, then a write-locked section that re-checks the function map but not
  the module map. Any number of callers interleave at the lock boundaries.
 */
module FunctionCache {
  import opened Wrappers

  type Handle = u64
  type Module = nat
  type Function = nat

  const DEFAULT: string := "default"

  datatype LoadError = ModuleLoadFailed | FunctionLookupFailed

  /** The three maps guarded by `cacheLock`. */
  datatype Maps = Maps(
    funcCache: map<Handle, Function>,
    funcMeta: map<Handle, string>,
    modCache: map<string, Module>
  )

  function Lookup<K, V>(m: map<K, V>, k: K): Option<V> {
    if k in m then Some(m[k]) else None
  }

  /** What the driver answers if asked: a module for "default.cubin", a function for a name in a module. */
  datatype Driver = Driver(load: Option<Module>, find: (Module, string) -> Option<Function>)

  /** What one write-locked section leaves behind and answers. */
  datatype Effect = Effect(maps: Maps, result: Result<Function, LoadError>)

  /** The write-locked section, with the snapshot of the module map and the name chosen before it. */
  function WriteSection(m: Maps, handle: Handle, name: string, snapshot: Option<Module>, driver: Driver): Effect {
    if handle in m.funcCache then
      Effect(m, Ok(m.funcCache[handle]))
    else if snapshot.None? && driver.load.None? then
      Effect(m, Err(ModuleLoadFailed))
    else
      var mod := if snapshot.None? then driver.load.value else snapshot.value;
      var m1 := if snapshot.None? then m.(modCache := m.modCache[DEFAULT := mod]) else m;
      match driver.find(mod, name)
      case None => Effect(m1, Err(FunctionLookupFailed))
      case Some(f) => Effect(m1.(funcCache := m.funcCache[handle := f], funcMeta := m.funcMeta[handle := name]), Ok(f))
  }

  /** The server's maps as fields, and one uncontended call. */
  class CacheStore {
    var funcCache: map<Handle, Function>
    var funcMeta: map<Handle, string>
    var modCache: map<string, Module>

    ghost function View(): Maps
      reads this
    {
      Maps(funcCache, funcMeta, modCache)
    }

    constructor ()
      ensures View() == Maps(map[], map[], map[])
    {
      funcCache, funcMeta, modCache := map[], map[], map[];
    }

    /** The section between `cacheLock.Lock()` and the deferred unlock. */
    method LoadUnderLock(handle: Handle, funcName: string, snapshot: Option<Module>, driver: Driver)
      returns (result: Result<Function, LoadError>)
      modifies this
      ensures View() == WriteSection(old(View()), handle, funcName, snapshot, driver).maps
      ensures result == WriteSection(old(View()), handle, funcName, snapshot, driver).result
      ensures result == Err(ModuleLoadFailed) <==> handle !in old(funcCache) && snapshot.None? && driver.load.None?
      ensures result == Err(ModuleLoadFailed) ==> View() == old(View())
      ensures result == Err(FunctionLookupFailed) ==> funcCache == old(funcCache) && funcMeta == old(funcMeta)
      ensures result.Ok? ==> funcCache.Keys == old(funcCache.Keys) + {handle} && funcCache[handle] == result.value
      ensures result.Ok? && handle !in old(funcCache) ==> handle in funcMeta && funcMeta[handle] == funcName
      ensures old(funcCache.Keys == funcMeta.Keys) ==> funcCache.Keys == funcMeta.Keys
      ensures modCache == if handle !in old(funcCache) && snapshot.None? && driver.load.Some?
                          then old(modCache)[DEFAULT := driver.load.value] else old(modCache)
    {
      if handle in funcCache {
        return Ok(funcCache[handle]);
      }
      var mod;
      if snapshot.None? {
        if driver.load.None? {
          return Err(ModuleLoadFailed);
        }
        mod := driver.load.value;
        modCache := modCache[DEFAULT := mod];
      } else {
        mod := snapshot.value;
      }
      var found := driver.find(mod, funcName);
      if found.None? {
        return Err(FunctionLookupFailed);
      }
      funcCache := funcCache[handle := found.value];
      funcMeta := funcMeta[handle := funcName];
      return Ok(found.value);
    }

    /** A whole call that nobody interrupts; afterwards a success is remembered under the name it was found by. */
    method GetFunction(handle: Handle, requestName: string, driver: Driver) returns (result: Result<Function, LoadError>)
      modifies this
      ensures result.Ok? ==> handle in funcCache && funcCache[handle] == result.value
      ensures result.Ok? && handle !in old(funcCache) ==>
                handle in funcMeta
                && funcMeta[handle] == (if handle in old(funcMeta) then old(funcMeta)[handle] else requestName)
      ensures handle in old(funcCache) ==> View() == old(View()) && result == Ok(old(funcCache)[handle])
      ensures handle !in old(funcCache) ==>
                var mod := if DEFAULT in old(modCache) then Some(old(modCache)[DEFAULT]) else driver.load;
                var name := if handle in old(funcMeta) then old(funcMeta)[handle] else requestName;
                && Lookup(modCache, DEFAULT) == mod
                && result == (if mod.None? then Err(ModuleLoadFailed)
                              else match driver.find(mod.value, name)
                                   case None => Err(FunctionLookupFailed)
                                   case Some(f) => Ok(f))
      ensures forall h :: h in old(funcCache) ==> h in funcCache && funcCache[h] == old(funcCache)[h]
    {
      var cached, snapshot := Lookup(funcCache, handle), Lookup(modCache, DEFAULT);
      if cached.Some? {
        return Ok(cached.value);
      }
      var funcName := if handle in funcMeta then funcMeta[handle] else requestName;
      result := LoadUnderLock(handle, funcName, snapshot, driver);
    }
  }

  // ------------------------------------------------------- concurrent callers

  datatype Caller =
    | Starting(handle: Handle, name: string)
    | Missed(handle: Handle, name: string, snapshot: Option<Module>)  // after the first snapshot, function not cached
    | Named(handle: Handle, name: string, snapshot: Option<Module>)   // after the second snapshot, name chosen
    | Returned(handle: Handle, result: Result<Function, LoadError>)

  datatype State = State(
    maps: Maps,
    callers: seq<Caller>,
    // the history of the run
    loads: seq<nat>,                                // which caller made each module load
    modules: set<Module>,                           // every module ever loaded
    lookups: set<(Module, string, Function)>        // every successful function lookup
  )

  datatype Action =
    | Call(handle: Handle, name: string)
    | ReadCaches(i: nat)
    | ReadMeta(i: nat)
    | Write(i: nat, driver: Driver)

  ghost predicate Enabled(s: State, a: Action) {
    match a
    case Call(_, _) => true
    case ReadCaches(i) => i < |s.callers| && s.callers[i].Starting?
    case ReadMeta(i) => i < |s.callers| && s.callers[i].Missed?
    case Write(i, _) => i < |s.callers| && s.callers[i].Named?
  }

  /** The module this step makes the driver load, if it does: the caller saw none, and its function is still not cached. */
  function Load(s: State, a: Action): Option<Module> {
    if a.Write? && a.i < |s.callers| && s.callers[a.i].Named? && s.callers[a.i].handle !in s.maps.funcCache
       && s.callers[a.i].snapshot.None?
    then a.driver.load else None
  }

  /** The function this step makes the driver find, with the module and the name it was asked for. */
  function Answer(s: State, a: Action): Option<(Module, string, Function)> {
    if a.Write? && a.i < |s.callers| && s.callers[a.i].Named? && s.callers[a.i].handle !in s.maps.funcCache then
      var c := s.callers[a.i];
      var mod := if c.snapshot.Some? then c.snapshot else a.driver.load;
      if mod.None? then None
      else
        match a.driver.find(mod.value, c.name)
        case None => None
        case Some(f) => Some((mod.value, c.name, f))
    else None
  }

  ghost function Apply(s: State, a: Action): State
    requires Enabled(s, a)
  {
    match a
    case Call(handle, name) => s.(callers := s.callers + [Starting(handle, name)])
    case ReadCaches(i) =>
      var c := s.callers[i];
      s.(callers := s.callers[i :=
      if c.handle in s.maps.funcCache then Returned(c.handle, Ok(s.maps.funcCache[c.handle]))
      else Missed(c.handle, c.name, Lookup(s.maps.modCache, DEFAULT))])
    case ReadMeta(i) =>
      var c := s.callers[i];
      var name := if c.handle in s.maps.funcMeta then s.maps.funcMeta[c.handle] else c.name;
      s.(callers := s.callers[i := Named(c.handle, name, c.snapshot)])
    case Write(i, driver) =>
      var c := s.callers[i];
      var e := WriteSection(s.maps, c.handle, c.name, c.snapshot, driver);
      var load, answer := Load(s, a), Answer(s, a);
      State(e.maps, s.callers[i := Returned(c.handle, e.result)],
            if load.Some? then s.loads + [i] else s.loads,
            if load.Some? then s.modules + {load.value} else s.modules,
            if answer.Some? then s.lookups + {answer.value} else s.lookups)
  }

  ghost predicate Leads(s: State, trace: seq<Action>, t: State)
    decreases trace
  {
    if trace == [] then s == t
    else Enabled(s, trace[0]) && Leads(Apply(s, trace[0]), trace[1..], t)
  }

  const INIT: State := State(Maps(map[], map[], map[]), [], [], {}, {})

  ghost predicate Reachable(s: State) {
    exists trace: seq<Action> :: Leads(INIT, trace, s)
  }

  /** The cached function was resolved, under the recorded name, in a module that had been loaded. */
  ghost predicate Resolved(s: State, h: Handle)
    requires h in s.maps.funcCache && h in s.maps.funcMeta
  {
    exists m :: m in s.modules && (m, s.maps.funcMeta[h], s.maps.funcCache[h]) in s.lookups
  }

  ghost predicate Inv(s: State) {
    && s.maps.funcCache.Keys == s.maps.funcMeta.Keys
    && (forall h :: h in s.maps.funcCache ==> Resolved(s, h))
    && (forall k :: k in s.maps.modCache ==> s.maps.modCache[k] in s.modules)
    && (forall i :: 0 <= i < |s.callers| ==> CallerOk(s, s.callers[i]))
    && LoadsOnce(s)
  }

  /** A caller that loaded has returned, and it loaded once. */
  ghost predicate LoadsOnce(s: State) {
    && (forall k :: 0 <= k < |s.loads| ==> s.loads[k] < |s.callers| && s.callers[s.loads[k]].Returned?)
    && (forall j, k :: 0 <= j < k < |s.loads| ==> s.loads[j] != s.loads[k])
  }

  ghost predicate CallerOk(s: State, c: Caller) {
    match c
    case Starting(_, _) => true
    case Missed(_, _, snapshot) => snapshot.Some? ==> snapshot.value in s.modules
    case Named(_, _, snapshot) => snapshot.Some? ==> snapshot.value in s.modules
    case Returned(h, r) => r.Ok? ==> h in s.maps.funcCache && s.maps.funcCache[h] == r.value
  }

  /** Entries of the function cache are never changed or removed. */
  lemma EntriesArePermanent(s: State, a: Action, h: Handle)
    requires Enabled(s, a) && h in s.maps.funcCache
    ensures h in Apply(s, a).maps.funcCache && Apply(s, a).maps.funcCache[h] == s.maps.funcCache[h]
    ensures h in s.maps.funcMeta ==> h in Apply(s, a).maps.funcMeta && Apply(s, a).maps.funcMeta[h] == s.maps.funcMeta[h]
  {
  }

  lemma LoadsOnceKept(s: State, a: Action)
    requires LoadsOnce(s) && Enabled(s, a)
    ensures LoadsOnce(Apply(s, a))
  {
  }

  lemma StepKeepsInv(s: State, a: Action)
    requires Inv(s) && Enabled(s, a)
    ensures Inv(Apply(s, a))
  {
    var t := Apply(s, a);
    LoadsOnceKept(s, a);
    assert s.modules <= t.modules && s.lookups <= t.lookups;
    forall h | h in t.maps.funcCache
      ensures h in t.maps.funcMeta && Resolved(t, h)
    {
      if h in s.maps.funcCache {
        EntriesArePermanent(s, a, h);
        var m :| m in s.modules && (m, s.maps.funcMeta[h], s.maps.funcCache[h]) in s.lookups;
        assert m in t.modules && (m, t.maps.funcMeta[h], t.maps.funcCache[h]) in t.lookups;
      } else {
        var found := Answer(s, a).value;
        assert CallerOk(s, s.callers[a.i]);
        assert found.0 in t.modules && found in t.lookups;
      }
    }
    forall i | 0 <= i < |t.callers|
      ensures CallerOk(t, t.callers[i])
    {
      if i < |s.callers| {
        assert CallerOk(s, s.callers[i]);
      }
    }
  }

  lemma {:induction false} RunKeepsInv(s: State, trace: seq<Action>, t: State)
    requires Inv(s) && Leads(s, trace, t)
    ensures Inv(t)
    decreases trace
  {
    if trace == [] {
    } else {
      StepKeepsInv(s, trace[0]);
      RunKeepsInv(Apply(s, trace[0]), trace[1..], t);
    }
  }

  lemma ReachableInv(s: State)
    requires Reachable(s)
    ensures Inv(s)
  {
    var trace: seq<Action> :| Leads(INIT, trace, s);
    RunKeepsInv(INIT, trace, s);
  }

  /** However the callers interleave, two successes for one handle are the same function. */
  lemma CallersAgree(s: State, i: nat, j: nat)
    requires Reachable(s) && i < |s.callers| && j < |s.callers|
    requires s.callers[i].Returned? && s.callers[i].result.Ok?
    requires s.callers[j].Returned? && s.callers[j].result.Ok?
    requires s.callers[i].handle == s.callers[j].handle
    ensures s.callers[i].result == s.callers[j].result
  {
    ReachableInv(s);
    assert CallerOk(s, s.callers[i]) && CallerOk(s, s.callers[j]);
  }

  /** The two snapshots: a cached function ends the call, and a recorded name replaces the request's. */
  lemma SnapshotsDecide(s: State, i: nat)
    ensures Enabled(s, ReadCaches(i)) ==>
              var c, t := s.callers[i], Apply(s, ReadCaches(i));
              && t == s.(callers := s.callers[i := t.callers[i]])
              && t.callers[i] == (if c.handle in s.maps.funcCache then Returned(c.handle, Ok(s.maps.funcCache[c.handle]))
                                  else Missed(c.handle, c.name, if DEFAULT in s.maps.modCache then Some(s.maps.modCache[DEFAULT]) else None))
    ensures Enabled(s, ReadMeta(i)) ==>
              var c, t := s.callers[i], Apply(s, ReadMeta(i));
              && t == s.(callers := s.callers[i := t.callers[i]])
              && t.callers[i] == Named(c.handle, if c.handle in s.maps.funcMeta then s.maps.funcMeta[c.handle] else c.name, c.snapshot)
  {
  }

  /** What a caller answers when its section is over: the cached function, or what the driver said. */
  lemma CallReturns(s: State, i: nat, driver: Driver)
    requires Enabled(s, Write(i, driver))
    ensures var c, t := s.callers[i], Apply(s, Write(i, driver));
            && t.callers == s.callers[i := t.callers[i]] && t.callers[i].Returned? && t.callers[i].handle == c.handle
            && t.callers[i].result ==
               (if c.handle in s.maps.funcCache then Ok(s.maps.funcCache[c.handle])
                else if c.snapshot.None? && driver.load.None? then Err(ModuleLoadFailed)
                else match driver.find(if c.snapshot.Some? then c.snapshot.value else driver.load.value, c.name)
                     case None => Err(FunctionLookupFailed)
                     case Some(f) => Ok(f))
            && (t.callers[i].result.Ok? ==>
                  c.handle in t.maps.funcCache && t.maps.funcCache[c.handle] == t.callers[i].result.value)
  {
  }

  /** Between critical sections every cached function has its name on record, and was found under it. */
  lemma CacheMatchesMetadata(s: State)
    requires Reachable(s)
    ensures s.maps.funcCache.Keys == s.maps.funcMeta.Keys
    ensures forall h :: h in s.maps.funcCache ==>
                          exists m :: m in s.modules && (m, s.maps.funcMeta[h], s.maps.funcCache[h]) in s.lookups
  {
    ReachableInv(s);
    forall h | h in s.maps.funcCache
      ensures exists m :: m in s.modules && (m, s.maps.funcMeta[h], s.maps.funcCache[h]) in s.lookups
    {
      assert Resolved(s, h);
    }
  }

  // -------------------------------------------------- how often a module loads

  /** The module that the latest load of the run returned, by the steps' own account. */
  ghost function LastLoad(s: State, trace: seq<Action>): Option<Module>
    decreases trace
  {
    if trace == [] || !Enabled(s, trace[0]) then None
    else
      var later := LastLoad(Apply(s, trace[0]), trace[1..]);
      if later.Some? then later else Load(s, trace[0])
  }

  /** The module map holds what the latest load returned, and changes in no other way. */
  lemma {:induction false} ModuleCacheIsLastLoad(s: State, trace: seq<Action>, t: State)
    requires Leads(s, trace, t)
    ensures Lookup(t.maps.modCache, DEFAULT) ==
            if LastLoad(s, trace).Some? then LastLoad(s, trace) else Lookup(s.maps.modCache, DEFAULT)
    ensures s.loads <= t.loads && (t.loads == s.loads <==> LastLoad(s, trace).None?)
    decreases trace
  {
    if trace == [] {
    } else {
      ModuleCacheIsLastLoad(Apply(s, trace[0]), trace[1..], t);
    }
  }

  /** Over every run a module is cached exactly once one has been loaded, and it is the one loaded last. */
  lemma LoadedModuleIsRemembered(trace: seq<Action>, t: State)
    requires Leads(INIT, trace, t)
    ensures Lookup(t.maps.modCache, DEFAULT) == LastLoad(INIT, trace)
    ensures DEFAULT in t.maps.modCache <==> t.loads != []
  {
    ModuleCacheIsLastLoad(INIT, trace, t);
  }

  lemma CachedIffLoaded(s: State)
    requires Reachable(s)
    ensures ModuleCached(s) <==> s.loads != []
  {
    var trace: seq<Action> :| Leads(INIT, trace, s);
    LoadedModuleIsRemembered(trace, s);
  }

  /** A caller whose write section, if it came next, could load: it saw no module, and its handle is uncached. */
  ghost predicate MayLoad(s: State, i: nat) {
    && i < |s.callers|
    && (s.callers[i].Missed? || s.callers[i].Named?)
    && s.callers[i].snapshot.None?
    && s.callers[i].handle !in s.maps.funcCache
  }

  ghost predicate ModuleCached(s: State) {
    DEFAULT in s.maps.modCache
  }

  lemma StepLoads(s: State, a: Action)
    requires ModuleCached(s) && Enabled(s, a)
    ensures ModuleCached(Apply(s, a))
    ensures forall i: nat :: MayLoad(Apply(s, a), i) ==> MayLoad(s, i)
    ensures Apply(s, a).loads == s.loads || exists i: nat :: MayLoad(s, i) && Apply(s, a).loads == s.loads + [i]
  {
    var t := Apply(s, a);
    forall i: nat | MayLoad(t, i)
      ensures MayLoad(s, i)
    {
      if s.callers[i].handle in s.maps.funcCache {
        EntriesArePermanent(s, a, s.callers[i].handle);
      }
    }
    if t.loads != s.loads {
      assert MayLoad(s, a.i);
    }
  }

  /** Once a module is cached, every later load is by a caller that had already looked and seen none. */
  lemma {:induction false} OnlyStaleCallersReload(s: State, trace: seq<Action>, t: State)
    requires ModuleCached(s) && Leads(s, trace, t)
    ensures s.loads <= t.loads
    ensures forall k :: |s.loads| <= k < |t.loads| ==> MayLoad(s, t.loads[k])
    decreases trace
  {
    if trace == [] {
    } else {
      var next := Apply(s, trace[0]);
      StepLoads(s, trace[0]);
      OnlyStaleCallersReload(next, trace[1..], t);
      forall k | |s.loads| <= k < |t.loads|
        ensures MayLoad(s, t.loads[k])
      {
        if k < |next.loads| {
          assert t.loads[k] == next.loads[k];
        } else {
          assert MayLoad(next, t.loads[k]);
        }
      }
    }
  }

  /** No caller that starts after the module is cached ever loads it. */
  lemma LaterCallersNeverLoad(s: State, trace: seq<Action>, t: State)
    requires ModuleCached(s) && Leads(s, trace, t)
    ensures forall k :: |s.loads| <= k < |t.loads| ==> t.loads[k] < |s.callers| && !s.callers[t.loads[k]].Starting?
  {
    OnlyStaleCallersReload(s, trace, t);
  }

  ghost function StaleCallers(s: State): set<nat> {
    set i: nat | i < |s.callers| && MayLoad(s, i)
  }

  /** One stale caller loads, finds no function, and leaves the other stale callers as they were. */
  lemma StaleCallerCanReload(s: State, i: nat) returns (trace: seq<Action>, t: State)
    requires MayLoad(s, i)
    ensures Leads(s, trace, t) && t.loads == s.loads + [i]
    ensures StaleCallers(t) == StaleCallers(s) - {i}
  {
    var write := Write(i, Driver(Some(0), (m: Module, n: string) => None));
    if s.callers[i].Missed? {
      var named := Apply(s, ReadMeta(i));
      t := Apply(named, write);
      trace := [ReadMeta(i), write];
      assert TwoSteps(s, ReadMeta(i), write, t);
      LeadsTwo(s, ReadMeta(i), write, [], t, t);
      assert trace + [] == trace;
    } else {
      t := Apply(s, write);
      trace := [write];
      assert trace[1..] == [];
    }
    assert t.maps.funcCache == s.maps.funcCache && |t.callers| == |s.callers| && t.callers[i].Returned?;
    assert forall j :: 0 <= j < |s.callers| && j != i ==> t.callers[j] == s.callers[j];
  }

  lemma ReloadNeedsStaleCaller(s: State, trace: seq<Action>, t: State) returns (i: nat)
    requires ModuleCached(s) && Leads(s, trace, t) && |t.loads| > |s.loads|
    ensures MayLoad(s, i)
  {
    OnlyStaleCallersReload(s, trace, t);
    i := t.loads[|s.loads|];
  }

  /** Once any load has happened, no caller that starts later ever loads. */
  lemma OneLoadEndsLoading(s: State, trace: seq<Action>, t: State)
    requires Reachable(s) && s.loads != [] && Leads(s, trace, t)
    ensures forall k :: |s.loads| <= k < |t.loads| ==> t.loads[k] < |s.callers| && !s.callers[t.loads[k]].Starting?
    ensures |t.loads| <= |s.loads| + |StaleCallers(s)|
  {
    CachedIffLoaded(s);
    LaterCallersNeverLoad(s, trace, t);
    LaterLoadsBounded(s, trace, t);
  }

  /** Some run from here loads the module again. */
  ghost predicate ReloadPossible(s: State) {
    exists trace: seq<Action>, t: State :: Leads(s, trace, t) && |t.loads| > |s.loads|
  }

  ghost predicate StaleCaller(s: State) {
    exists i: nat :: MayLoad(s, i)
  }

  /** The module can be loaded again exactly when some caller holds an empty snapshot for an uncached handle. */
  lemma ReloadPossibleIff(s: State)
    requires ModuleCached(s)
    ensures ReloadPossible(s) <==> StaleCaller(s)
  {
    if StaleCaller(s) {
      var i: nat :| MayLoad(s, i);
      var trace, t := StaleCallerCanReload(s, i);
    }
    if ReloadPossible(s) {
      var trace: seq<Action>, t: State :| Leads(s, trace, t) && |t.loads| > |s.loads|;
      var i := ReloadNeedsStaleCaller(s, trace, t);
    }
  }

  /** Each caller loads the module at most once. */
  lemma EachCallerLoadsOnce(s: State)
    requires Reachable(s)
    ensures forall j, k :: 0 <= j < k < |s.loads| ==> s.loads[j] != s.loads[k]
  {
    ReachableInv(s);
  }

  lemma {:induction false} DistinctInSet(xs: seq<nat>, within: set<nat>)
    requires forall j, k :: 0 <= j < k < |xs| ==> xs[j] != xs[k]
    requires forall k :: 0 <= k < |xs| ==> xs[k] in within
    ensures |xs| <= |within|
  {
    if xs == [] {
    } else {
      DistinctInSet(xs[1..], within - {xs[0]});
    }
  }

  lemma LaterLoadsBounded(s: State, trace: seq<Action>, t: State)
    requires Reachable(s) && ModuleCached(s) && Leads(s, trace, t)
    ensures |t.loads| <= |s.loads| + |StaleCallers(s)|
  {
    ReachableInv(s);
    RunKeepsInv(s, trace, t);
    OnlyStaleCallersReload(s, trace, t);
    DistinctInSet(t.loads[|s.loads|..], StaleCallers(s));
  }

  lemma {:induction false} AllStaleCallersCanReload(s: State) returns (trace: seq<Action>, t: State)
    ensures Leads(s, trace, t) && |t.loads| == |s.loads| + |StaleCallers(s)|
    decreases |StaleCallers(s)|
  {
    if StaleCallers(s) == {} {
      trace, t := [], s;
    } else {
      var i :| i in StaleCallers(s);
      var first, mid := StaleCallerCanReload(s, i);
      var rest;
      rest, t := AllStaleCallersCanReload(mid);
      LeadsOn(s, first, mid, rest, t);
      trace := first + rest;
    }
  }

  lemma {:induction false} LeadsOn(s: State, trace: seq<Action>, mid: State, more: seq<Action>, t: State)
    requires Leads(s, trace, mid) && Leads(mid, more, t)
    ensures Leads(s, trace + more, t)
    decreases trace
  {
    if trace == [] {
      assert trace + more == more;
    } else {
      assert (trace + more)[1..] == trace[1..] + more;
      LeadsOn(Apply(s, trace[0]), trace[1..], mid, more, t);
    }
  }

  /** Once a module is cached, the most further loads any run can make is the number of stale callers. */
  lemma MostReloadsIsStaleCallers(s: State)
    requires Reachable(s) && ModuleCached(s)
    ensures forall trace: seq<Action>, t: State :: Leads(s, trace, t) ==> |t.loads| <= |s.loads| + |StaleCallers(s)|
    ensures exists trace: seq<Action>, t: State :: Leads(s, trace, t) && |t.loads| == |s.loads| + |StaleCallers(s)|
  {
    forall trace: seq<Action>, t: State | Leads(s, trace, t)
      ensures |t.loads| <= |s.loads| + |StaleCallers(s)|
    {
      LaterLoadsBounded(s, trace, t);
    }
    var trace, t := AllStaleCallersCanReload(s);
  }

  const TWO_NAMED: State := INIT.(callers := [Named(1, "a", None), Named(2, "b", None)])

  /** Two callers can both be past their snapshots before any module is loaded. */
  lemma TwoCallersSeeNoModule(rest: seq<Action>, t: State)
    requires Leads(TWO_NAMED, rest, t)
    ensures Leads(INIT, [Call(1, "a"), Call(2, "b")] + ([ReadCaches(0), ReadCaches(1)] + ([ReadMeta(0), ReadMeta(1)] + rest)), t)
  {
    var start := INIT.(callers := [Starting(1, "a"), Starting(2, "b")]);
    var both := INIT.(callers := [Missed(1, "a", None), Missed(2, "b", None)]);
    assert TwoSteps(both, ReadMeta(0), ReadMeta(1), TWO_NAMED);
    LeadsTwo(both, ReadMeta(0), ReadMeta(1), rest, TWO_NAMED, t);
    assert TwoSteps(start, ReadCaches(0), ReadCaches(1), both);
    LeadsTwo(start, ReadCaches(0), ReadCaches(1), [ReadMeta(0), ReadMeta(1)] + rest, both, t);
    assert TwoSteps(INIT, Call(1, "a"), Call(2, "b"), start);
    LeadsTwo(INIT, Call(1, "a"), Call(2, "b"), [ReadCaches(0), ReadCaches(1)] + ([ReadMeta(0), ReadMeta(1)] + rest), start, t);
  }

  /** Two first callers for different handles do load the module twice. */
  lemma ConcurrentFirstCallersLoadTwice() returns (trace: seq<Action>, t: State)
    ensures Leads(INIT, trace, t) && t.loads == [0, 1]
  {
    var driver := Driver(Some(7), (m: Module, n: string) => Some(9));
    var once := Apply(TWO_NAMED, Write(0, driver));
    assert once.callers[1] == Named(2, "b", None) && once.loads == [0];
    t := Apply(once, Write(1, driver));
    var writes := [Write(0, driver), Write(1, driver)];
    assert TwoSteps(TWO_NAMED, Write(0, driver), Write(1, driver), t);
    LeadsTwo(TWO_NAMED, Write(0, driver), Write(1, driver), [], t, t);
    assert writes + [] == writes;
    TwoCallersSeeNoModule(writes, t);
    trace := [Call(1, "a"), Call(2, "b")] + ([ReadCaches(0), ReadCaches(1)] + ([ReadMeta(0), ReadMeta(1)] + writes));
  }

  ghost predicate TwoSteps(s: State, a: Action, b: Action, t: State) {
    Enabled(s, a) && Enabled(Apply(s, a), b) && Apply(Apply(s, a), b) == t
  }

  lemma LeadsTwo(s: State, a: Action, b: Action, rest: seq<Action>, mid: State, t: State)
    requires TwoSteps(s, a, b, mid) && Leads(mid, rest, t)
    ensures Leads(s, [a, b] + rest, t)
  {
    assert ([a, b] + rest)[1..] == [b] + rest;
    assert ([b] + rest)[1..] == rest;
  }
}

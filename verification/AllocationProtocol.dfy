/**
  The fake-pointer protocol of `RootService`: asynchronous allocations and frees
  that keep a local mapping table, the heap of fake pointers and the allocations on
  remote nodes in agreement. A remote node may reuse a handle once it is free.
 */
module AllocationProtocol {
  import opened Wrappers

  datatype Info = Info(nodeId: string, size: u64, handle: u64)

  /** One allocation as its node knows it. */
  datatype Remote = Remote(nodeId: string, handle: u64)

  function RemoteOf(info: Info): Remote {
    Remote(info.nodeId, info.handle)
  }

  /** `Failed` is any other CUDA error a node answers with. */
  datatype Status = Success | OutOfMemory | InvalidValue | Failed(code: nat)

  /** The launcher's own state: `memory_map_`, the fake pointers not yet deleted, and deletes of anything else. */
  datatype Local = Local(mapping: map<u64, Info>, heap: set<u64>, wildDeletes: nat)

  function OnAllocReply(l: Local, fake: u64, info: Info): Local {
    l.(mapping := l.mapping[fake := info], heap := l.heap + {fake})
  }

  function OnFreeReply(l: Local, fake: u64): Local {
    Local(l.mapping - {fake}, l.heap - {fake}, if fake in l.heap then l.wildDeletes else l.wildDeletes + 1)
  }

  /** The node and handle a request for this fake pointer is sent to, if any. */
  function Target(l: Local, nodes: set<string>, fake: u64): Option<Remote> {
    if fake in l.mapping && l.mapping[fake].nodeId in nodes then Some(RemoteOf(l.mapping[fake])) else None
  }

  class RootService {
    var mapping: map<u64, Info>
    var heap: set<u64>
    var wildDeletes: nat
    var nodes: set<string>

    ghost function View(): Local
      reads this
    {
      Local(mapping, heap, wildDeletes)
    }

    constructor ()
      ensures View() == Local(map[], {}, 0) && nodes == {}
    {
      mapping, heap, wildDeletes, nodes := map[], {}, 0, {};
    }

    /** The dispatcher learns of a node, from its configuration or otherwise. */
    method AddNode(id: string)
      modifies this
      ensures nodes == old(nodes) + {id} && View() == old(View())
      ensures forall fake, r :: Target(View(), old(nodes), fake) == Some(r) ==> Target(View(), nodes, fake) == Some(r)
    {
      nodes := nodes + {id};
    }

    /** The first half of `requestAllocation`: the node to ask, or the error if the dispatcher picked none. */
    method AllocationRequested(picked: Option<string>) returns (target: Option<string>, fakePtr: u64, status: Status)
      ensures target == picked && fakePtr == 0
      ensures status == OutOfMemory <==> picked.None?
      ensures status == Success <==> picked.Some?
    {
      if picked.None? {
        return None, 0, OutOfMemory;
      }
      return picked, 0, Success;
    }

    /** The continuation of `requestAllocation`; `pointer` is what `operator new` returned. */
    method AllocationReplied(error: Status, info: Info, pointer: u64) returns (fakePtr: u64, status: Status)
      requires pointer != 0 && pointer !in heap
      modifies this
      ensures error != Success ==> View() == old(View()) && fakePtr == 0 && status == error
      ensures error == Success ==> View() == OnAllocReply(old(View()), pointer, info) && fakePtr == pointer && status == Success
      ensures error == Success ==> mapping == old(mapping)[pointer := info] && heap == old(heap) + {pointer}
      ensures nodes == old(nodes)
    {
      if error != Success {
        return 0, error;
      }
      heap := heap + {pointer};
      mapping := mapping[pointer := info];
      return pointer, Success;
    }

    /** The first half of `requestFree`, and all of `planMemcpyHtoD`: the lookups that decide where to send. */
    method Resolve(fake: u64) returns (target: Option<Remote>, status: Status)
      ensures target == Target(View(), nodes, fake)
      ensures target.Some? <==> fake in mapping && mapping[fake].nodeId in nodes
      ensures target.Some? ==> target.value == Remote(mapping[fake].nodeId, mapping[fake].handle)
      ensures status == (if target.None? then InvalidValue else Success)
    {
      if fake !in mapping {
        return None, InvalidValue;
      }
      var info := mapping[fake];
      if info.nodeId !in nodes {
        return None, InvalidValue;
      }
      return Some(Remote(info.nodeId, info.handle)), Success;
    }

    /** The continuation of `requestFree`: it forgets the pointer whatever the node answered. */
    method FreeReplied(fake: u64, error: Status) returns (status: Status)
      modifies this
      ensures View() == OnFreeReply(old(View()), fake) && status == error
      ensures mapping == old(mapping) - {fake} && heap == old(heap) - {fake}
      ensures nodes == old(nodes)
    {
      mapping := mapping - {fake};
      if fake !in heap {
        wildDeletes := wildDeletes + 1;
      }
      heap := heap - {fake};
      return error;
    }
  }

  // ----------------------------------------------------------- the whole system

  datatype Phase = Sent | Done(ok: bool)

  /** A free between its request and its reply. */
  datatype FreeCall = FreeCall(fake: u64, target: Remote, phase: Phase)

  datatype State = State(
    nodes: set<string>,
    local: Local,
    live: set<Remote>,              // allocations that exist on the nodes
    replies: map<nat, Info>,        // successful allocations whose reply is still on its way
    frees: map<nat, FreeCall>,
    leaked: set<Remote>             // the node reported that the free failed, and nobody names it any more
  )

  datatype Action =
    | AddNode(id: string)
    | RemoteAlloc(call: nat, info: Info)
    | AllocReply(call: nat, fake: u64)
    | FreeRequest(call: nat, fake: u64)
    | RemoteFree(call: nat, ok: bool)
    | FreeReply(call: nat)

  /** The nodes' contract: a handle is new while it is live, and only a live handle can be freed successfully. */
  ghost predicate Enabled(s: State, a: Action) {
    match a
    case AddNode(_) => true
    case RemoteAlloc(call, info) => call !in s.replies && info.nodeId in s.nodes && RemoteOf(info) !in s.live
    case AllocReply(call, fake) => call in s.replies && fake != 0 && fake !in s.local.heap
    case FreeRequest(call, _) => call !in s.frees
    case RemoteFree(call, ok) => call in s.frees && s.frees[call].phase == Sent && (ok ==> s.frees[call].target in s.live)
    case FreeReply(call) => call in s.frees && s.frees[call].phase.Done?
  }

  function Apply(s: State, a: Action): State
    requires Enabled(s, a)
  {
    match a
    case AddNode(id) => s.(nodes := s.nodes + {id})
    case RemoteAlloc(call, info) => s.(live := s.live + {RemoteOf(info)}, replies := s.replies[call := info])
    case AllocReply(call, fake) => s.(local := OnAllocReply(s.local, fake, s.replies[call]), replies := s.replies - {call})
    case FreeRequest(call, fake) =>
      (match Target(s.local, s.nodes, fake)
       case None => s
       case Some(target) => s.(frees := s.frees[call := FreeCall(fake, target, Sent)]))
    case RemoteFree(call, ok) =>
      s.(frees := s.frees[call := s.frees[call].(phase := Done(ok))],
      live := if ok then s.live - {s.frees[call].target} else s.live)
    case FreeReply(call) =>
      var f := s.frees[call];
      s.(local := OnFreeReply(s.local, f.fake), frees := s.frees - {call},
      leaked := if f.phase.ok then s.leaked else s.leaked + {f.target})
  }

  ghost predicate InFlight(s: State, fake: u64) {
    exists call :: call in s.frees && s.frees[call].fake == fake
  }

  /** The hook holds one mutex around each API call, so a pointer has at most one free under way. */
  ghost predicate Serialised(s: State, a: Action) {
    a.FreeRequest? ==> !InFlight(s, a.fake)
  }

  ghost predicate Leads(s: State, trace: seq<Action>, t: State)
    decreases trace
  {
    if trace == [] then s == t
    else Enabled(s, trace[0]) && Serialised(s, trace[0]) && Leads(Apply(s, trace[0]), trace[1..], t)
  }

  const INIT: State := State({}, Local(map[], {}, 0), {}, map[], map[], {})

  ghost predicate Reachable(s: State) {
    exists trace: seq<Action> :: Leads(INIT, trace, s)
  }

  // -------------------------------------------------------------- the invariant

  /** The pointer is mapped, and no node has carried out a free of it. */
  ghost predicate Current(s: State, fake: u64) {
    fake in s.local.mapping && !FreedRemotely(s, fake)
  }

  ghost predicate FreedRemotely(s: State, fake: u64) {
    exists call :: call in s.frees && s.frees[call].fake == fake && s.frees[call].phase == Done(true)
  }

  ghost predicate TablesAgree(s: State) {
    && s.local.mapping.Keys == s.local.heap
    && 0 !in s.local.heap
    && s.local.wildDeletes == 0
    && (forall f :: f in s.local.mapping ==> s.local.mapping[f].nodeId in s.nodes)
    && (forall c :: c in s.replies ==> s.replies[c].nodeId in s.nodes)
  }

  ghost predicate FreesAgree(s: State) {
    && (forall c :: c in s.frees ==>
                      s.frees[c].fake in s.local.mapping && RemoteOf(s.local.mapping[s.frees[c].fake]) == s.frees[c].target)
    && (forall c, d :: c in s.frees && d in s.frees && s.frees[c].fake == s.frees[d].fake ==> c == d)
  }

  /** What holds `r`, if anything does. */
  datatype Claim = ByMapping(fake: u64) | ByReply(call: nat) | ByLeak

  ghost predicate Claims(s: State, c: Claim, r: Remote) {
    match c
    case ByMapping(fake) => Current(s, fake) && RemoteOf(s.local.mapping[fake]) == r
    case ByReply(call) => call in s.replies && RemoteOf(s.replies[call]) == r
    case ByLeak => r in s.leaked
  }

  /** Live remote allocations are the mapped, the replied-but-unmapped and the leaked ones, each claimed once. */
  ghost predicate Conserved(s: State) {
    && (forall r: Remote, c: Claim :: Claims(s, c, r) ==> r in s.live)
    && (forall r: Remote, c: Claim, d: Claim :: Claims(s, c, r) && Claims(s, d, r) ==> c == d)
    && (forall r: Remote :: r in s.live ==> exists c: Claim :: Claims(s, c, r))
  }

  ghost predicate Inv(s: State) {
    TablesAgree(s) && FreesAgree(s) && Conserved(s)
  }

  lemma TablesAndFreesKept(s: State, a: Action)
    requires TablesAgree(s) && FreesAgree(s) && Enabled(s, a) && Serialised(s, a)
    ensures TablesAgree(Apply(s, a)) && FreesAgree(Apply(s, a))
  {
  }

  /** The step changes who claims one allocation, and nothing else. */
  lemma ClaimsStep(s: State, a: Action, c: Claim, r: Remote)
    requires TablesAgree(s) && FreesAgree(s) && Enabled(s, a) && Serialised(s, a)
    ensures a.AddNode? || a.FreeRequest? ==> (Claims(Apply(s, a), c, r) <==> Claims(s, c, r))
    ensures a.RemoteAlloc? ==>
              (Claims(Apply(s, a), c, r) <==> Claims(s, c, r) || (c == ByReply(a.call) && r == RemoteOf(a.info)))
    ensures a.AllocReply? ==>
              (Claims(Apply(s, a), c, r) <==>
               (Claims(s, c, r) && c != ByReply(a.call)) || (c == ByMapping(a.fake) && r == RemoteOf(s.replies[a.call])))
    ensures a.RemoteFree? ==>
              (Claims(Apply(s, a), c, r) <==> Claims(s, c, r) && !(a.ok && c == ByMapping(s.frees[a.call].fake)))
    ensures a.FreeReply? ==>
              (Claims(Apply(s, a), c, r) <==>
               (Claims(s, c, r) && c != ByMapping(s.frees[a.call].fake))
               || (!s.frees[a.call].phase.ok && c == ByLeak && r == s.frees[a.call].target))
  {
    if c.ByMapping? {
      CurrentStep(s, a, c.fake);
    }
  }

  lemma CurrentStep(s: State, a: Action, fake: u64)
    requires TablesAgree(s) && FreesAgree(s) && Enabled(s, a) && Serialised(s, a)
    ensures Current(Apply(s, a), fake) <==>
            match a
            case AllocReply(_, f) => Current(s, fake) || fake == f
            case RemoteFree(call, ok) => Current(s, fake) && !(ok && fake == s.frees[call].fake)
            case FreeReply(call) => Current(s, fake) && fake != s.frees[call].fake
            case _ => Current(s, fake)
  {
    var t := Apply(s, a);
    if FreedRemotely(s, fake) {
      var call :| call in s.frees && s.frees[call].fake == fake && s.frees[call].phase == Done(true);
      if !(a.FreeReply? && a.call == call) {
        assert call in t.frees && t.frees[call] == s.frees[call];
      }
    }
    if a.RemoteFree? && a.ok {
      assert t.frees[a.call].phase == Done(true) && t.frees[a.call].fake == s.frees[a.call].fake;
    }
    if FreedRemotely(t, fake) {
      var call :| call in t.frees && t.frees[call].fake == fake && t.frees[call].phase == Done(true);
      if call in s.frees && s.frees[call] == t.frees[call] {
        assert FreedRemotely(s, fake);
      }
    }
  }

  lemma ConservedKept(s: State, a: Action)
    requires Inv(s) && Enabled(s, a) && Serialised(s, a)
    ensures Conserved(Apply(s, a))
  {
    var t := Apply(s, a);
    forall r: Remote, c: Claim | Claims(t, c, r)
      ensures r in t.live
    {
      ClaimsStep(s, a, c, r);
      ClaimedIsLive(s, a, c, r);
    }
    forall r: Remote, c: Claim, d: Claim | Claims(t, c, r) && Claims(t, d, r)
      ensures c == d
    {
      ClaimedOnce(s, a, c, d, r);
    }
    forall r: Remote | r in t.live
      ensures exists c: Claim :: Claims(t, c, r)
    {
      var c := LiveIsClaimed(s, a, r);
    }
  }

  /** A free that is being answered belongs to an allocation that its mapping still claims, unless the node freed it. */
  lemma PendingFreeClaims(s: State, call: nat)
    requires FreesAgree(s) && call in s.frees
    ensures s.frees[call].phase != Done(true) ==> Claims(s, ByMapping(s.frees[call].fake), s.frees[call].target)
  {
  }

  lemma ClaimedIsLive(s: State, a: Action, c: Claim, r: Remote)
    requires Inv(s) && Enabled(s, a) && Serialised(s, a) && Claims(Apply(s, a), c, r)
    ensures r in Apply(s, a).live
  {
    ClaimsStep(s, a, c, r);
    match a
    case AllocReply(call, _) => assert Claims(s, ByReply(call), RemoteOf(s.replies[call]));
    case RemoteFree(call, ok) => PendingFreeClaims(s, call);
    case FreeReply(call) => PendingFreeClaims(s, call);
    case _ =>
  }

  lemma ClaimedOnce(s: State, a: Action, c: Claim, d: Claim, r: Remote)
    requires Inv(s) && Enabled(s, a) && Serialised(s, a) && Claims(Apply(s, a), c, r) && Claims(Apply(s, a), d, r)
    ensures c == d
  {
    ClaimsStep(s, a, c, r);
    ClaimsStep(s, a, d, r);
    match a
    case AllocReply(call, _) => assert Claims(s, ByReply(call), RemoteOf(s.replies[call]));
    case FreeReply(call) => PendingFreeClaims(s, call);
    case _ =>
  }

  lemma LiveIsClaimed(s: State, a: Action, r: Remote) returns (c: Claim)
    requires Inv(s) && Enabled(s, a) && Serialised(s, a) && r in Apply(s, a).live
    ensures Claims(Apply(s, a), c, r)
  {
    if a.RemoteAlloc? && r == RemoteOf(a.info) {
      c := ByReply(a.call);
    } else {
      c :| Claims(s, c, r);
      if a.AllocReply? && c == ByReply(a.call) {
        c := ByMapping(a.fake);
      } else if a.FreeReply? && c == ByMapping(s.frees[a.call].fake) {
        c := ByLeak;
      } else if a.RemoteFree? {
        PendingFreeClaims(s, a.call);
      }
    }
    ClaimsStep(s, a, c, r);
  }

  lemma {:induction false} RunKeepsInv(s: State, trace: seq<Action>, t: State)
    requires Inv(s) && Leads(s, trace, t)
    ensures Inv(t)
    decreases trace
  {
    if trace == [] {
    } else {
      TablesAndFreesKept(s, trace[0]);
      ConservedKept(s, trace[0]);
      RunKeepsInv(Apply(s, trace[0]), trace[1..], t);
    }
  }

  lemma ReachableInv(s: State)
    requires Reachable(s)
    ensures Inv(s)
  {
    var trace: seq<Action> :| Leads(INIT, trace, s);
    RunKeepsInv(INIT, trace, s);
  }

  // ------------------------------------------------------------- the theorems

  /** The table names exactly the undeleted fake pointers, and nothing else was ever deleted. */
  lemma TableIsHeap(s: State)
    requires Reachable(s)
    ensures s.local.mapping.Keys == s.local.heap && s.local.wildDeletes == 0
    ensures forall f :: f in s.local.mapping ==> Target(s.local, s.nodes, f).Some?
  {
    ReachableInv(s);
  }

  /** A free never reaches a node after the allocation it was meant for is gone. */
  lemma FreesHitLiveAllocations(s: State, call: nat)
    requires Reachable(s) && call in s.frees && s.frees[call].phase == Sent
    ensures s.frees[call].target in s.live
    ensures Claims(s, ByMapping(s.frees[call].fake), s.frees[call].target)
  {
    ReachableInv(s);
    PendingFreeClaims(s, call);
  }

  ghost function Mapped(s: State): set<Remote> {
    set f | f in s.local.mapping && Current(s, f) :: RemoteOf(s.local.mapping[f])
  }

  ghost function Replied(s: State): set<Remote> {
    set c | c in s.replies :: RemoteOf(s.replies[c])
  }

  lemma SetsAreClaims(s: State, r: Remote)
    ensures r in Mapped(s) <==> exists f: u64 :: Claims(s, ByMapping(f), r)
    ensures r in Replied(s) <==> exists c: nat :: Claims(s, ByReply(c), r)
  {
    if f: u64 :| Claims(s, ByMapping(f), r) {
      assert f in s.local.mapping && Current(s, f);
    }
    if c: nat :| Claims(s, ByReply(c), r) {
      assert c in s.replies;
    }
    if r in Mapped(s) {
      var f :| f in s.local.mapping && Current(s, f) && RemoteOf(s.local.mapping[f]) == r;
      assert Claims(s, ByMapping(f), r);
    }
    if r in Replied(s) {
      var c :| c in s.replies && RemoteOf(s.replies[c]) == r;
      assert Claims(s, ByReply(c), r);
    }
  }

  /** Live remote allocations = mapped + replied but unmapped + leaked, with no overlap. */
  lemma LiveAllocationsAccounted(s: State)
    requires Reachable(s)
    ensures s.live == Mapped(s) + Replied(s) + s.leaked
    ensures Mapped(s) !! Replied(s) !! s.leaked
  {
    ReachableInv(s);
    forall r: Remote
      ensures r in s.live <==> r in Mapped(s) || r in Replied(s) || r in s.leaked
      ensures !(r in Mapped(s) && r in Replied(s)) && !(r in Mapped(s) && r in s.leaked) && !(r in Replied(s) && r in s.leaked)
    {
      SetsAreClaims(s, r);
      assert r in s.leaked <==> Claims(s, ByLeak, r);
      if r in s.live {
        var c: Claim :| Claims(s, c, r);
      }
    }
  }

  /** Two current mappings, or two replies on their way, never name one allocation. */
  lemma NoAllocationNamedTwice(s: State)
    requires Reachable(s)
    ensures forall f, g :: Current(s, f) && Current(s, g) && RemoteOf(s.local.mapping[f]) == RemoteOf(s.local.mapping[g]) ==> f == g
    ensures forall c, d :: c in s.replies && d in s.replies && RemoteOf(s.replies[c]) == RemoteOf(s.replies[d]) ==> c == d
  {
    ReachableInv(s);
    forall f, g | Current(s, f) && Current(s, g) && RemoteOf(s.local.mapping[f]) == RemoteOf(s.local.mapping[g])
      ensures f == g
    {
      var r := RemoteOf(s.local.mapping[f]);
      assert Claims(s, ByMapping(f), r) && Claims(s, ByMapping(g), r);
    }
    forall c, d | c in s.replies && d in s.replies && RemoteOf(s.replies[c]) == RemoteOf(s.replies[d])
      ensures c == d
    {
      var r := RemoteOf(s.replies[c]);
      assert Claims(s, ByReply(c), r) && Claims(s, ByReply(d), r);
    }
  }

  // --------------------------------------------------------- what a plan names

  /** The allocation that the pointer's mapping names is live, and nothing else claims it. */
  ghost predicate NamesOwn(s: State, fake: u64)
    requires fake in s.local.mapping
  {
    var r := RemoteOf(s.local.mapping[fake]);
    r in s.live && forall c: Claim :: Claims(s, c, r) ==> c == ByMapping(fake)
  }

  lemma NamesOwnIff(s: State, fake: u64)
    requires Inv(s) && fake in s.local.mapping
    ensures NamesOwn(s, fake) <==> !FreedRemotely(s, fake)
  {
    var r := RemoteOf(s.local.mapping[fake]);
    if !FreedRemotely(s, fake) {
      assert Claims(s, ByMapping(fake), r);
    } else if r in s.live {
      var c: Claim :| Claims(s, c, r);
    }
  }

  /** The handle a memcpy plan hands out is the pointer's own live allocation, exactly until a node has freed it. */
  lemma PlanTargetsOwnAllocationIff(s: State, fake: u64)
    requires Reachable(s) && fake in s.local.mapping
    ensures Target(s.local, s.nodes, fake) == Some(RemoteOf(s.local.mapping[fake]))
    ensures NamesOwn(s, fake) <==> !FreedRemotely(s, fake)
  {
    ReachableInv(s);
    NamesOwnIff(s, fake);
  }

  ghost predicate NeverFrees(trace: seq<Action>, fake: u64) {
    forall a :: a in trace && a.FreeRequest? ==> a.fake != fake
  }

  /** Without a further free request for it, the pointer can come to be mapped to an allocation that is not its own. */
  ghost predicate StalePlanPossible(s: State, fake: u64) {
    exists trace: seq<Action>, t: State ::
      Leads(s, trace, t) && NeverFrees(trace, fake) && fake in t.local.mapping && !NamesOwn(t, fake)
  }

  /** A free of the pointer is under way, and its node has not reported that it failed. */
  ghost predicate FreePending(s: State, fake: u64) {
    exists call :: call in s.frees && s.frees[call].fake == fake && s.frees[call].phase != Done(false)
  }

  lemma {:induction false} NothingPendingStays(s: State, trace: seq<Action>, t: State, fake: u64)
    requires Inv(s) && Leads(s, trace, t) && NeverFrees(trace, fake) && !FreePending(s, fake)
    ensures Inv(t) && !FreePending(t, fake)
    decreases trace
  {
    if trace == [] {
    } else {
      var next := Apply(s, trace[0]);
      TablesAndFreesKept(s, trace[0]);
      ConservedKept(s, trace[0]);
      NothingPendingStep(s, trace[0], fake);
      NothingPendingStays(next, trace[1..], t, fake);
    }
  }

  lemma NothingPendingStep(s: State, a: Action, fake: u64)
    requires Enabled(s, a) && (a.FreeRequest? ==> a.fake != fake) && !FreePending(s, fake)
    ensures !FreePending(Apply(s, a), fake)
  {
  }

  /** A stale plan is possible exactly while a free of the pointer is under way that the node has not refused. */
  lemma StalePlanPossibleIff(s: State, fake: u64)
    requires Reachable(s)
    ensures StalePlanPossible(s, fake) <==> FreePending(s, fake)
  {
    ReachableInv(s);
    if FreePending(s, fake) {
      var call :| call in s.frees && s.frees[call].fake == fake && s.frees[call].phase != Done(false);
      if s.frees[call].phase == Sent {
        PendingFreeClaims(s, call);
        var t := Apply(s, RemoteFree(call, true));
        assert [RemoteFree(call, true)][1..] == [] && Leads(t, [], t);
        assert Leads(s, [RemoteFree(call, true)], t);
        assert !NamesOwn(t, fake);
      } else {
        NamesOwnIff(s, fake);
        assert Leads(s, [], s);
      }
    }
    if StalePlanPossible(s, fake) && !FreePending(s, fake) {
      var trace: seq<Action>, t: State :|
        Leads(s, trace, t) && NeverFrees(trace, fake) && fake in t.local.mapping && !NamesOwn(t, fake);
      NothingPendingStays(s, trace, t, fake);
      NamesOwnIff(t, fake);
    }
  }

  /** For a pointer with no free under way, plans may become stale exactly from the moment its owner asks to free it. */
  lemma StaleOnlyOnceFreeRequested(s: State, call: nat, fake: u64, requested: bool)
    requires Reachable(s) && fake in s.local.mapping && !InFlight(s, fake) && call !in s.frees
    ensures var next := if requested then Apply(s, FreeRequest(call, fake)) else s;
            && (InFlight(next, fake) <==> requested)
            && (StalePlanPossible(next, fake) <==> requested)
  {
    if requested {
      var next := Apply(s, FreeRequest(call, fake));
      ReachableOn(s, FreeRequest(call, fake));
      TableIsHeap(s);
      assert next.frees[call].fake == fake;
      StalePlanPossibleIff(next, fake);
    } else {
      StalePlanPossibleIff(s, fake);
    }
  }

  lemma ReachableOn(s: State, a: Action)
    requires Reachable(s) && Enabled(s, a) && Serialised(s, a)
    ensures Reachable(Apply(s, a))
  {
    var trace: seq<Action> :| Leads(INIT, trace, s);
    var t := Apply(s, a);
    assert [a][1..] == [] && Leads(t, [], t);
    assert Leads(s, [a], t);
    LeadsOn(INIT, trace, s, [a], t);
  }

  const ONE_NODE: State := INIT.(nodes := {"a"})
  const ONE_FREE: FreeCall := FreeCall(1, Remote("a", 7), Done(true))

  /** One allocation, freed by its node, while the reply to the free is on its way: its pointer is still mapped. */
  const REPLY_DUE: State :=
    State({"a"}, Local(map[1 := Info("a", 64, 7)], {1}, 0), {}, map[], map[0 := ONE_FREE], {})

  const ONE_MAPPED: State :=
    State({"a"}, Local(map[1 := Info("a", 64, 7)], {1}, 0), {Remote("a", 7)}, map[], map[], {})

  lemma OneMappedReachable()
    ensures Reachable(ONE_MAPPED)
  {
    assert Leads(INIT, [], INIT);
    assert Apply(INIT, AddNode("a")) == ONE_NODE;
    ReachableOn(INIT, AddNode("a"));
    var replied := ONE_NODE.(live := {Remote("a", 7)}, replies := map[0 := Info("a", 64, 7)]);
    assert Apply(ONE_NODE, RemoteAlloc(0, Info("a", 64, 7))) == replied;
    ReachableOn(ONE_NODE, RemoteAlloc(0, Info("a", 64, 7)));
    assert Apply(replied, AllocReply(0, 1)) == ONE_MAPPED;
    ReachableOn(replied, AllocReply(0, 1));
  }

  lemma ReplyDueReachable()
    ensures Reachable(REPLY_DUE)
  {
    OneMappedReachable();
    var sent := ONE_MAPPED.(frees := map[0 := ONE_FREE.(phase := Sent)]);
    assert Apply(ONE_MAPPED, FreeRequest(0, 1)) == sent;
    ReachableOn(ONE_MAPPED, FreeRequest(0, 1));
    assert Apply(sent, RemoteFree(0, true)) == REPLY_DUE;
    ReachableOn(sent, RemoteFree(0, true));
  }

  /** A run leads to a state in which a plan names an allocation that is gone, and a second free would delete twice. */
  lemma FreedButStillMapped()
    ensures Reachable(REPLY_DUE) && 1 in REPLY_DUE.local.mapping
    ensures FreedRemotely(REPLY_DUE, 1) && InFlight(REPLY_DUE, 1)
    ensures !NamesOwn(REPLY_DUE, 1) && WildDeletePossible(Apply(REPLY_DUE, FreeRequest(1, 1)))
  {
    ReplyDueReachable();
    assert REPLY_DUE.frees[0] == ONE_FREE;
    PlanTargetsOwnAllocationIff(REPLY_DUE, 1);
    WildDeleteIffSecondFree(REPLY_DUE, 1, 1);
  }

  /** A pointer whose free request would now be the second one under way can be deleted twice; otherwise none ever is. */
  lemma WildDeleteIffSecondFree(s: State, call: nat, fake: u64)
    requires Reachable(s) && fake in s.local.mapping && call !in s.frees
    ensures WildDeletePossible(Apply(s, FreeRequest(call, fake))) <==> InFlight(s, fake)
  {
    ReachableInv(s);
    var next := Apply(s, FreeRequest(call, fake));
    if InFlight(s, fake) {
      var first :| first in s.frees && s.frees[first].fake == fake;
      var trace, t := DeleteTwice(next, first, call);
    } else {
      TablesAndFreesKept(s, FreeRequest(call, fake));
      ConservedKept(s, FreeRequest(call, fake));
      if WildDeletePossible(next) {
        var trace: seq<Action>, t: State :| Leads(next, trace, t) && t.local.wildDeletes > 0;
        RunKeepsInv(next, trace, t);
      }
    }
  }

  ghost predicate WildDeletePossible(s: State) {
    exists trace: seq<Action>, t: State :: Leads(s, trace, t) && t.local.wildDeletes > 0
  }

  /** Answers one free: the node fails it unless it already answered, and the reply arrives. */
  lemma FinishFree(s: State, call: nat) returns (trace: seq<Action>, t: State)
    requires call in s.frees
    ensures Leads(s, trace, t)
    ensures t.local == OnFreeReply(s.local, s.frees[call].fake) && t.frees == s.frees - {call}
  {
    if s.frees[call].phase == Sent {
      var answered := Apply(s, RemoteFree(call, false));
      t := Apply(answered, FreeReply(call));
      trace := [RemoteFree(call, false), FreeReply(call)];
      assert trace[1..] == [FreeReply(call)];
      assert Leads(t, [], t);
      assert Leads(answered, [FreeReply(call)], t);
    } else {
      t := Apply(s, FreeReply(call));
      trace := [FreeReply(call)];
      assert Leads(t, [], t);
    }
  }

  lemma {:induction false} LeadsOn(s: State, trace: seq<Action>, mid: State, more: seq<Action>, t: State)
    requires Leads(s, trace, mid) && Leads(mid, more, t)
    ensures Leads(s, trace + more, t)
    decreases trace
  {
    if trace == [] {
      assert trace + more == more;
    } else {
      assert (trace + more)[1..] == trace[1..] + more;
      LeadsOn(Apply(s, trace[0]), trace[1..], mid, more, t);
    }
  }

  lemma DeleteTwice(s: State, first: nat, second: nat) returns (trace: seq<Action>, t: State)
    requires first in s.frees && second in s.frees && first != second
    requires s.frees[first].fake == s.frees[second].fake
    ensures Leads(s, trace, t) && t.local.wildDeletes > 0
  {
    var trace1, mid := FinishFree(s, first);
    var trace2;
    trace2, t := FinishFree(mid, second);
    LeadsOn(s, trace1, mid, trace2, t);
    trace := trace1 + trace2;
  }
}

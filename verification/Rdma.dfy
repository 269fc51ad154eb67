/**
  `RdmaTransport` as a user of the verbs library. Every call that creates, uses or destroys a
  resource is logged, and a strict reading of the library's contract replays the log: it
  rejects a second release, a use after release, and a release of anything that still
  has dependants. A device has its domains and completion queues as dependants, a domain
  its regions and queue pairs.
 */
module Rdma {
  import opened Wrappers

  type Ptr = nat

  datatype Verb =
    | OpenDevice(context: nat)
    | AllocPd(pd: nat, of: nat)
    | RegMr(mr: nat, in_: nat)
    | DeregMr(mr: nat)
    | CreateCq(cq: nat, of: nat)
    | CreateQp(qp: nat, pair: QueuePair)
    | PostSend(qp: nat, posted: bool)
    | Completion(qp: nat, success: bool)
    | DestroyQp(qp: nat)
    | DeallocPd(pd: nat)
    | CloseDevice(context: nat)

  datatype QueuePair = QueuePair(pd: nat, send: Option<nat>, recv: Option<nat>)

  /** What exists: each domain and completion queue with its device, each region and queue pair with what it uses. */
  datatype Resources = Resources(
    contexts: set<nat>,
    pds: map<nat, nat>,
    cqs: map<nat, nat>,
    mrs: map<nat, nat>,
    qps: map<nat, QueuePair>
  )

  const NOTHING: Resources := Resources({}, map[], map[], map[], map[])

  predicate DeviceInUse(r: Resources, c: nat) {
    c in r.pds.Values || c in r.cqs.Values
  }

  predicate DomainInUse(r: Resources, pd: nat) {
    pd in r.mrs.Values || exists q :: q in r.qps && r.qps[q].pd == pd
  }

  /** A queue pair needs a domain and two completion queues on one device. */
  predicate CanPair(r: Resources, p: QueuePair) {
    && p.pd in r.pds
    && p.send.Some? && p.send.value in r.cqs && r.cqs[p.send.value] == r.pds[p.pd]
    && p.recv.Some? && p.recv.value in r.cqs && r.cqs[p.recv.value] == r.pds[p.pd]
  }

  /** One call under the contract; `None` if the contract forbids it. */
  function Step(r: Resources, v: Verb): Option<Resources> {
    match v
    case OpenDevice(c) => if c in r.contexts then None else Some(r.(contexts := r.contexts + {c}))
    case AllocPd(pd, c) => if c !in r.contexts || pd in r.pds then None else Some(r.(pds := r.pds[pd := c]))
    case RegMr(mr, pd) => if pd !in r.pds || mr in r.mrs then None else Some(r.(mrs := r.mrs[mr := pd]))
    case DeregMr(mr) => if mr !in r.mrs then None else Some(r.(mrs := r.mrs - {mr}))
    case CreateCq(cq, c) => if c !in r.contexts || cq in r.cqs then None else Some(r.(cqs := r.cqs[cq := c]))
    case CreateQp(qp, p) => if !CanPair(r, p) || qp in r.qps then None else Some(r.(qps := r.qps[qp := p]))
    case PostSend(qp, _) => if qp !in r.qps then None else Some(r)
    case Completion(qp, _) => if qp !in r.qps then None else Some(r)
    case DestroyQp(qp) => if qp !in r.qps then None else Some(r.(qps := r.qps - {qp}))
    case DeallocPd(pd) => if pd !in r.pds || DomainInUse(r, pd) then None else Some(r.(pds := r.pds - {pd}))
    case CloseDevice(c) => if c !in r.contexts || DeviceInUse(r, c) then None else Some(r.(contexts := r.contexts - {c}))
  }

  function Replay(log: seq<Verb>): Option<Resources> {
    if log == [] then Some(NOTHING)
    else
      match Replay(log[..|log| - 1])
      case None => None
      case Some(r) => Step(r, log[|log| - 1])
  }

  lemma ReplayPush(log: seq<Verb>, v: Verb)
    requires Replay(log).Some?
    ensures Replay(log + [v]) == Step(Replay(log).value, v)
  {
    assert (log + [v])[..|log + [v]| - 1] == log;
  }

  // ---------------------------------------------------------------- transport

  /** The transport's fields, the calls it has made, and the completion queues it was given, which no field keeps. */
  datatype Transport = Transport(
    regions: map<Ptr, nat>,
    pd: Option<nat>,
    context: Option<nat>,
    log: seq<Verb>,
    queues: set<nat>
  )

  /** What the library answers during one transfer. */
  datatype Answers = Answers(
    mr: Option<nat>,
    send: Option<nat>,
    recv: Option<nat>,
    qp: Option<nat>,
    gdr: bool,
    gdrEnabled: bool,
    posted: bool,
    completed: bool
  )

  const CREATED: Transport := Transport(map[], None, None, [], {})

  /** The first device of the list that opens. */
  function FirstOpen(devices: seq<Option<nat>>): Option<nat> {
    if devices == [] then None else if devices[0].Some? then devices[0] else FirstOpen(devices[1..])
  }

  /** The first device that opens, and none exactly if none opens. */
  lemma {:induction false} FirstOpenIsFirst(devices: seq<Option<nat>>)
    ensures FirstOpen(devices).None? <==> forall k :: 0 <= k < |devices| ==> devices[k].None?
    ensures FirstOpen(devices).Some? ==>
              exists k :: 0 <= k < |devices| && devices[k] == FirstOpen(devices) && forall j :: 0 <= j < k ==> devices[j].None?
  {
    if devices == [] || devices[0].Some? {
    } else {
      FirstOpenIsFirst(devices[1..]);
      if FirstOpen(devices).Some? {
        var k :| 0 <= k < |devices[1..]| && devices[1..][k] == FirstOpen(devices) && forall j :: 0 <= j < k ==> devices[1..][j].None?;
        assert devices[k + 1] == devices[1..][k];
        assert forall j :: 0 < j < k + 1 ==> devices[j] == devices[1..][j - 1];
      }
    }
  }

  /** `devices` is what opening each listed device would return; there may be no list. */
  function Initialized(t: Transport, devices: Option<seq<Option<nat>>>, domain: Option<nat>): Transport {
    if devices.None? then t
    else
      var found := FirstOpen(devices.value);
      var context := if devices.value == [] then t.context else found;
      var scanned := t.(context := context, log := if found.Some? then t.log + [OpenDevice(found.value)] else t.log);
      if context.None? then scanned
      else scanned.(pd := domain, log := if domain.Some? then scanned.log + [AllocPd(domain.value, context.value)] else scanned.log)
  }

  function Registered(t: Transport, ptr: Ptr, answer: Option<nat>): Transport
    requires t.pd.Some?
  {
    if ptr in t.regions || answer.None? then t
    else t.(regions := t.regions[ptr := answer.value], log := t.log + [RegMr(answer.value, t.pd.value)])
  }

  function Elements<T(==)>(x: Option<T>): set<T> {
    if x.Some? then {x.value} else {}
  }

  function QueueMade(cq: Option<nat>, context: nat): seq<Verb> {
    if cq.Some? then [CreateCq(cq.value, context)] else []
  }

  /** What is done on the queue pair: a GDR transfer needs it enabled, and a posted send ends in a completion. */
  function Sends(a: Answers, qp: nat): seq<Verb> {
    if a.gdr && !a.gdrEnabled then []
    else if !a.posted then [PostSend(qp, false)]
    else [PostSend(qp, true), Completion(qp, a.completed)]
  }

  function PairUsed(a: Answers, pd: nat): seq<Verb> {
    if a.qp.Some? then [CreateQp(a.qp.value, QueuePair(pd, a.send, a.recv))] + Sends(a, a.qp.value) + [DestroyQp(a.qp.value)] else []
  }

  function Transferred(t: Transport, ptr: Ptr, a: Answers): Transport
    requires t.pd.Some? && t.context.Some?
  {
    var r := Registered(t, ptr, a.mr);
    if ptr !in r.regions then r
    else
      r.(queues := r.queues + Elements(a.send) + Elements(a.recv),
      log := r.log + QueueMade(a.send, t.context.value) + QueueMade(a.recv, t.context.value) + PairUsed(a, t.pd.value))
  }

  function Deregistrations(mrs: seq<nat>): seq<Verb> {
    if mrs == [] then [] else Deregistrations(mrs[..|mrs| - 1]) + [DeregMr(mrs[|mrs| - 1])]
  }

  /** `order` lists every registered region once. */
  ghost predicate EachRegionOnce(order: seq<nat>, regions: map<Ptr, nat>) {
    && (forall mr :: mr in order <==> mr in regions.Values)
    && (forall i, j :: 0 <= i < j < |order| ==> order[i] != order[j])
  }

  /** The first two parts of `Cleanup`: every region, then the domain. */
  function TeardownOfDomain(t: Transport, order: seq<nat>): seq<Verb> {
    Deregistrations(order) + (if t.pd.Some? then [DeallocPd(t.pd.value)] else [])
  }

  /** The calls of `Cleanup`: every region, then the domain, then the device. */
  function Teardown(t: Transport, order: seq<nat>): seq<Verb> {
    TeardownOfDomain(t, order) + (if t.context.Some? then [CloseDevice(t.context.value)] else [])
  }

  ghost function AllTo(keys: set<nat>, v: nat): (m: map<nat, nat>)
    ensures m.Keys == keys && forall k :: k in keys ==> m[k] == v
  {
    if keys == {} then map[]
    else
      var k :| k in keys;
      AllTo(keys - {k}, v)[k := v]
  }

  /** Exactly what the fields say exists. */
  ghost function Held(t: Transport): Resources {
    Resources(if t.context.Some? then {t.context.value} else {},
              if t.pd.Some? && t.context.Some? then map[t.pd.value := t.context.value] else map[],
              AllTo(t.queues, if t.context.Some? then t.context.value else 0),
              AllTo(t.regions.Values, if t.pd.Some? then t.pd.value else 0),
              map[])
  }

  ghost predicate Injective(regions: map<Ptr, nat>) {
    forall p, q :: p in regions && q in regions && regions[p] == regions[q] ==> p == q
  }

  /** The log so far is legal and leaves what the fields name; table entries and regions correspond one to one. */
  ghost predicate Sound(t: Transport) {
    && Replay(t.log) == Some(Held(t))
    && Injective(t.regions)
    && (t.pd.Some? ==> t.context.Some?)
    && (t.pd.None? ==> t.regions == map[])
    && (t.context.None? ==> t.queues == {})
  }

  class RdmaTransport {
    var regions: map<Ptr, nat>
    var pd: Option<nat>
    var context: Option<nat>
    ghost var log: seq<Verb>
    ghost var queues: set<nat>

    ghost function View(): Transport
      reads this
    {
      Transport(regions, pd, context, log, queues)
    }

    constructor ()
      ensures View() == CREATED
    {
      regions, pd, context, log, queues := map[], None, None, [], {};
    }

    method Initialize(devices: Option<seq<Option<nat>>>, domain: Option<nat>) returns (ok: bool)
      modifies this
      ensures View() == Initialized(old(View()), devices, domain)
      ensures ok <==> devices.Some? && context.Some? && domain.Some?
    {
      if devices.None? {
        return false;
      }
      var k := 0;
      var found := false;
      while k < |devices.value| && !found
        invariant k <= |devices.value|
        invariant !found ==> FirstOpen(devices.value[k..]) == FirstOpen(devices.value)
        invariant !found ==> context == (if k == 0 then old(context) else None)
        invariant found ==> context == FirstOpen(devices.value) && context.Some? && k > 0
        invariant pd == old(pd) && regions == old(regions) && log == old(log) && queues == old(queues)
        decreases |devices.value| - k, !found
      {
        context := devices.value[k];
        found := context.Some?;
        k := k + 1;
      }
      if found {
        log := log + [OpenDevice(context.value)];
      }
      if context.None? {
        return false;
      }
      pd := domain;
      if pd.None? {
        return false;
      }
      log := log + [AllocPd(pd.value, context.value)];
      return true;
    }

    /** `answer` is what `ibv_reg_mr` would return. */
    method RegisterMemory(ptr: Ptr, answer: Option<nat>) returns (ok: bool)
      requires pd.Some?
      modifies this
      ensures View() == Registered(old(View()), ptr, answer)
      ensures ok <==> ptr in regions
    {
      if ptr in regions {
        return true;
      }
      if answer.None? {
        return false;
      }
      log := log + [RegMr(answer.value, pd.value)];
      regions := regions[ptr := answer.value];
      return true;
    }

    method Transfer(ptr: Ptr, a: Answers) returns (ok: bool)
      requires pd.Some? && context.Some?
      modifies this
      ensures View() == Transferred(old(View()), ptr, a)
      ensures ok <==> ptr in regions && a.qp.Some? && (a.gdr ==> a.gdrEnabled) && a.posted && a.completed
      ensures ok <==> exists qp :: Completion(qp, true) in Calls(old(View()), ptr, a)
    {
      CompletionIff(View(), ptr, a);
      if ptr !in regions {
        var registered := RegisterMemory(ptr, a.mr);
        if !registered {
          return false;
        }
      }
      log := log + QueueMade(a.send, context.value);
      log := log + QueueMade(a.recv, context.value);
      queues := queues + Elements(a.send) + Elements(a.recv);
      if a.qp.None? {
        return false;
      }
      ghost var used := [CreateQp(a.qp.value, QueuePair(pd.value, a.send, a.recv))];
      if a.gdr && !a.gdrEnabled {
        log := log + (used + [DestroyQp(a.qp.value)]);
        assert used + [DestroyQp(a.qp.value)] == PairUsed(a, pd.value);
        return false;
      }
      used := used + [PostSend(a.qp.value, a.posted)];
      if !a.posted {
        log := log + (used + [DestroyQp(a.qp.value)]);
        assert used + [DestroyQp(a.qp.value)] == PairUsed(a, pd.value);
        return false;
      }
      used := used + [Completion(a.qp.value, a.completed)];
      log := log + (used + [DestroyQp(a.qp.value)]);
      assert used + [DestroyQp(a.qp.value)] == PairUsed(a, pd.value);
      return a.completed;
    }

    /** The loop of `Cleanup`, in whatever order the table yields; the ghost result is that order. */
    method DeregisterAll() returns (ghost order: seq<nat>)
      requires Injective(regions)
      modifies `log
      ensures EachRegionOnce(order, regions) && log == old(log) + Deregistrations(order)
    {
      order := [];
      var rest := regions.Keys;
      while rest != {}
        invariant rest <= regions.Keys
        invariant log == old(log) + Deregistrations(order)
        invariant forall mr :: mr in order <==> exists p :: p in regions && p !in rest && regions[p] == mr
        invariant forall i, j :: 0 <= i < j < |order| ==> order[i] != order[j]
        decreases rest
      {
        var p :| p in rest;
        log := log + [DeregMr(regions[p])];
        assert regions[p] !in order;
        order := order + [regions[p]];
        assert order[..|order| - 1] + [regions[p]] == order;
        rest := rest - {p};
      }
    }

    method Cleanup() returns (ghost order: seq<nat>)
      requires Injective(regions)
      modifies this
      ensures EachRegionOnce(order, old(regions))
      ensures View() == Transport(map[], None, None, old(log) + Teardown(old(View()), order), old(queues))
    {
      order := DeregisterAll();
      regions := map[];
      if pd.Some? {
        log := log + [DeallocPd(pd.value)];
        pd := None;
      }
      if context.Some? {
        log := log + [CloseDevice(context.value)];
        context := None;
      }
    }
  }

  // --------------------------------------------------------------------- runs

  datatype Op = Register(ptr: Ptr, answer: Option<nat>) | Transfer(ptr: Ptr, answers: Answers)

  /** The library never hands out a region or a queue that still exists, nor a queue pair without its two queues. */
  ghost predicate Possible(t: Transport, op: Op) {
    && t.pd.Some? && t.context.Some?
    && (match op
        case Register(_, answer) => answer.Some? ==> answer.value !in t.regions.Values
        case Transfer(_, a) =>
          && (a.qp.Some? ==> a.send.Some? && a.recv.Some?)
          && (a.mr.Some? ==> a.mr.value !in t.regions.Values)
          && (a.send.Some? ==> a.send.value !in t.queues)
          && (a.recv.Some? ==> a.recv.value !in t.queues && a.send != a.recv))
  }

  ghost function Done(t: Transport, op: Op): Transport
    requires Possible(t, op)
  {
    match op
    case Register(ptr, answer) => Registered(t, ptr, answer)
    case Transfer(ptr, a) => Transferred(t, ptr, a)
  }

  ghost predicate Leads(t: Transport, ops: seq<Op>, u: Transport)
    decreases ops
  {
    if ops == [] then t == u
    else Possible(t, ops[0]) && Leads(Done(t, ops[0]), ops[1..], u)
  }

  /** The library opens a device, or makes a domain, under an identity that is not in use. */
  ghost predicate FreshAnswers(t: Transport, devices: Option<seq<Option<nat>>>, domain: Option<nat>) {
    && (devices.Some? && FirstOpen(devices.value).Some? ==> t.context != FirstOpen(devices.value))
    && (domain.Some? ==> t.pd != domain)
  }

  lemma InitializedReplay(t: Transport, devices: Option<seq<Option<nat>>>, domain: Option<nat>)
    requires Sound(t) && FreshAnswers(t, devices, domain) && devices.Some?
    ensures var u := Initialized(t, devices, domain);
            Replay(u.log) == Some(Held(t).(
                                  contexts := Held(t).contexts + (if FirstOpen(devices.value).Some? then {u.context.value} else {}),
                                  pds := if u.context.Some? && domain.Some? then Held(t).pds[domain.value := u.context.value] else Held(t).pds))
  {
    var u := Initialized(t, devices, domain);
    var found := FirstOpen(devices.value);
    var log := t.log;
    if found.Some? {
      ReplayPush(log, OpenDevice(found.value));
      log := log + [OpenDevice(found.value)];
    } else {
      assert Held(t).contexts + {} == Held(t).contexts;
    }
    if u.context.Some? && domain.Some? {
      ReplayPush(log, AllocPd(domain.value, u.context.value));
    }
  }

  /** Initializing keeps the record exact unless it overwrites a device or a domain that is still in use. */
  lemma InitializeSoundIff(t: Transport, devices: Option<seq<Option<nat>>>, domain: Option<nat>)
    requires Sound(t) && FreshAnswers(t, devices, domain)
    ensures Sound(Initialized(t, devices, domain)) <==>
            devices.None? || t.context.None? || (devices.value == [] && t.pd.None?)
  {
    if devices.Some? {
      var u := Initialized(t, devices, domain);
      InitializedReplay(t, devices, domain);
      if t.context.None? || (devices.value == [] && t.pd.None?) {
        assert t.pd.None? && t.regions == map[] && Held(t).pds == map[];
        assert Held(u).mrs == Held(t).mrs == map[];
        assert Held(u).contexts == Held(t).contexts + (if FirstOpen(devices.value).Some? then {u.context.value} else {});
      } else if devices.value != [] {
        assert t.context.value in Replay(u.log).value.contexts;
        assert t.context.value !in Held(u).contexts;
      } else {
        assert t.pd.value in Replay(u.log).value.pds;
        assert t.pd.value !in Held(u).pds;
      }
    }
  }

  /** A new region for a pointer without one. */
  lemma OneMoreRegion(regions: map<Ptr, nat>, ptr: Ptr, mr: nat)
    requires ptr !in regions && mr !in regions.Values
    ensures regions[ptr := mr].Values == regions.Values + {mr}
    ensures Injective(regions) ==> Injective(regions[ptr := mr])
  {
    var more := regions[ptr := mr];
    assert more[ptr] == mr;
    assert forall p :: p in regions ==> p in more && more[p] == regions[p] && regions[p] in regions.Values;
  }

  lemma OneMoreKey(keys: set<nat>, k: nat, v: nat)
    ensures AllTo(keys, v)[k := v] == AllTo(keys + {k}, v)
  {
  }

  lemma RegisteredSound(t: Transport, ptr: Ptr, answer: Option<nat>)
    requires Sound(t) && Possible(t, Register(ptr, answer))
    ensures Sound(Registered(t, ptr, answer))
  {
    if ptr !in t.regions && answer.Some? {
      ReplayPush(t.log, RegMr(answer.value, t.pd.value));
      OneMoreRegion(t.regions, ptr, answer.value);
      OneMoreKey(t.regions.Values, answer.value, t.pd.value);
    }
  }

  /** One completion queue that the library may refuse. */
  lemma QueueReplay(log: seq<Verb>, cq: Option<nat>, context: nat)
    requires Replay(log).Some? && context in Replay(log).value.contexts
    requires cq.Some? ==> cq.value !in Replay(log).value.cqs
    ensures var r := Replay(log).value;
            Replay(log + QueueMade(cq, context)) == Some(r.(cqs := if cq.Some? then r.cqs[cq.value := context] else r.cqs))
  {
    if cq.Some? {
      ReplayPush(log, CreateCq(cq.value, context));
    } else {
      assert log + [] == log;
    }
  }

  lemma SendsReplay(log: seq<Verb>, a: Answers, qp: nat)
    requires Replay(log).Some? && qp in Replay(log).value.qps
    ensures Replay(log + Sends(a, qp)) == Replay(log)
  {
    var post := PostSend(qp, a.posted);
    ReplayPush(log, post);
    if a.gdr && !a.gdrEnabled {
      assert log + [] == log;
    } else if a.posted {
      ReplayPush(log + [post], Completion(qp, a.completed));
      assert log + [post] + [Completion(qp, a.completed)] == log + Sends(a, qp);
    }
  }

  /** The queue pair of a transfer is gone when it returns. */
  lemma PairReplay(log: seq<Verb>, a: Answers, pd: nat)
    requires Replay(log).Some? && Replay(log).value.qps == map[]
    requires a.qp.Some? ==> CanPair(Replay(log).value, QueuePair(pd, a.send, a.recv))
    ensures Replay(log + PairUsed(a, pd)) == Replay(log)
  {
    if a.qp.Some? {
      var r, qp := Replay(log).value, a.qp.value;
      var create := CreateQp(qp, QueuePair(pd, a.send, a.recv));
      ReplayPush(log, create);
      SendsReplay(log + [create], a, qp);
      ReplayPush(log + [create] + Sends(a, qp), DestroyQp(qp));
      assert log + [create] + Sends(a, qp) + [DestroyQp(qp)] == log + PairUsed(a, pd);
      assert r.qps[qp := create.pair] - {qp} == r.qps;
    } else {
      assert log + [] == log;
    }
  }

  /** The completion queues a transfer was given still exist when it returns. */
  lemma QueuesHeld(t: Transport, a: Answers)
    requires t.context.Some?
    ensures var u := t.(queues := t.queues + Elements(a.send) + Elements(a.recv));
            var c := t.context.value;
            var cqs := if a.send.Some? then Held(t).cqs[a.send.value := c] else Held(t).cqs;
            Held(u).cqs == if a.recv.Some? then cqs[a.recv.value := c] else cqs
  {
  }

  lemma TransferredSound(t: Transport, ptr: Ptr, a: Answers)
    requires Sound(t) && Possible(t, Transfer(ptr, a))
    ensures Sound(Transferred(t, ptr, a))
  {
    var r := Registered(t, ptr, a.mr);
    RegisteredSound(t, ptr, a.mr);
    if ptr in r.regions {
      var c := t.context.value;
      var log1 := r.log + QueueMade(a.send, c);
      QueueReplay(r.log, a.send, c);
      QueueReplay(log1, a.recv, c);
      QueuesHeld(r, a);
      PairReplay(log1 + QueueMade(a.recv, c), a, t.pd.value);
    }
  }

  /** The calls one transfer makes. */
  function Calls(t: Transport, ptr: Ptr, a: Answers): seq<Verb>
    requires t.pd.Some? && t.context.Some?
  {
    if ptr !in t.regions && a.mr.None? then []
    else
      (if ptr in t.regions then [] else [RegMr(a.mr.value, t.pd.value)])
      + (QueueMade(a.send, t.context.value) + QueueMade(a.recv, t.context.value) + PairUsed(a, t.pd.value))
  }

  lemma TransferAddsCalls(t: Transport, ptr: Ptr, a: Answers)
    requires t.pd.Some? && t.context.Some?
    ensures Transferred(t, ptr, a).log == t.log + Calls(t, ptr, a)
  {
  }

  lemma InParts<T>(x: T, a: seq<T>, b: seq<T>, c: seq<T>, d: seq<T>)
    ensures x in a + (b + c + d) <==> x in a || x in b || x in c || x in d
  {
  }

  lemma CompletionInUse(a: Answers, pd: nat)
    ensures (exists qp :: Completion(qp, true) in PairUsed(a, pd)) <==>
            a.qp.Some? && (a.gdr ==> a.gdrEnabled) && a.posted && a.completed
  {
    if a.qp.Some? && (a.gdr ==> a.gdrEnabled) && a.posted {
      assert PairUsed(a, pd)[2] == Completion(a.qp.value, a.completed);
    }
  }

  /** The calls of a transfer show a successful completion exactly if every answer on the way was good. */
  lemma CompletionIff(t: Transport, ptr: Ptr, a: Answers)
    requires t.pd.Some? && t.context.Some?
    ensures Transferred(t, ptr, a).log == t.log + Calls(t, ptr, a)
    ensures (exists qp :: Completion(qp, true) in Calls(t, ptr, a)) <==>
            (ptr in t.regions || a.mr.Some?) && a.qp.Some? && (a.gdr ==> a.gdrEnabled) && a.posted && a.completed
  {
    TransferAddsCalls(t, ptr, a);
    if ptr in t.regions || a.mr.Some? {
      var region := if ptr in t.regions then [] else [RegMr(a.mr.value, t.pd.value)];
      var send, recv, used := QueueMade(a.send, t.context.value), QueueMade(a.recv, t.context.value), PairUsed(a, t.pd.value);
      CompletionInUse(a, t.pd.value);
      forall qp
        ensures Completion(qp, true) in Calls(t, ptr, a) <==> Completion(qp, true) in used
      {
        InParts(Completion(qp, true), region, send, recv, used);
      }
    }
  }

  /** Over any sequence of registrations and transfers the calls stay legal and the table stays exact. */
  lemma {:induction false} RunSound(t: Transport, ops: seq<Op>, u: Transport)
    requires Sound(t) && Leads(t, ops, u)
    ensures Sound(u)
    decreases ops
  {
    if ops == [] {
    } else {
      match ops[0]
      case Register(ptr, answer) => RegisteredSound(t, ptr, answer); RunSound(Done(t, ops[0]), ops[1..], u);
      case Transfer(ptr, a) => TransferredSound(t, ptr, a); RunSound(Done(t, ops[0]), ops[1..], u);
    }
  }

  lemma CreatedSound()
    ensures Sound(CREATED)
  {
    assert Held(CREATED).mrs == map[];
    assert Held(CREATED) == NOTHING;
  }

  /** Table entries are in bijection with live regions, and no queue pair outlives its transfer. */
  lemma TableIsExact(devices: Option<seq<Option<nat>>>, domain: Option<nat>, ops: seq<Op>, u: Transport)
    requires Leads(Initialized(CREATED, devices, domain), ops, u)
    ensures Replay(u.log).Some?
    ensures var r := Replay(u.log).value;
            r.mrs.Keys == u.regions.Values && r.qps == map[] && r.cqs.Keys == u.queues
    ensures forall p, q :: p in u.regions && q in u.regions && u.regions[p] == u.regions[q] ==> p == q
  {
    CreatedSound();
    InitializeSoundIff(CREATED, devices, domain);
    RunSound(Initialized(CREATED, devices, domain), ops, u);
  }

  lemma {:induction false} DeregistrationsReplay(log: seq<Verb>, order: seq<nat>)
    requires Replay(log).Some?
    requires forall mr :: mr in order ==> mr in Replay(log).value.mrs
    requires forall i, j :: 0 <= i < j < |order| ==> order[i] != order[j]
    ensures Replay(log + Deregistrations(order))
         == Some(Replay(log).value.(mrs := Replay(log).value.mrs - (set mr | mr in order)))
  {
    var r := Replay(log).value;
    if order == [] {
      assert log + Deregistrations(order) == log;
      assert r.mrs - (set mr | mr in order) == r.mrs;
    } else {
      var init, last := order[..|order| - 1], order[|order| - 1];
      DeregistrationsReplay(log, init);
      ReplayPush(log + Deregistrations(init), DeregMr(last));
      assert log + Deregistrations(order) == log + Deregistrations(init) + [DeregMr(last)];
      assert last !in init;
      assert last in order;
      assert (set mr | mr in order) == (set mr | mr in init) + {last};
      assert r.mrs - (set mr | mr in init) - {last} == r.mrs - (set mr | mr in order);
    }
  }

  lemma RegionsGone(t: Transport, order: seq<nat>)
    requires Sound(t) && EachRegionOnce(order, t.regions)
    ensures Replay(t.log + Deregistrations(order)) == Some(Held(t).(mrs := map[]))
  {
    DeregistrationsReplay(t.log, order);
    assert Held(t).mrs - (set mr | mr in order) == map[];
  }

  /** Whatever the order of the table, cleanup always gives back every region and then the domain. */
  lemma DomainAlwaysReleased(t: Transport, order: seq<nat>)
    requires Sound(t) && EachRegionOnce(order, t.regions)
    ensures Replay(t.log + TeardownOfDomain(t, order)) == Some(Held(t).(mrs := map[], pds := map[]))
  {
    var log := t.log + Deregistrations(order);
    RegionsGone(t, order);
    if t.pd.Some? {
      ReplayPush(log, DeallocPd(t.pd.value));
      assert Held(t).pds - {t.pd.value} == map[];
      assert log + [DeallocPd(t.pd.value)] == t.log + TeardownOfDomain(t, order);
    } else {
      assert log == t.log + TeardownOfDomain(t, order);
    }
  }

  /** Cleanup leaves nothing behind if no completion queue was ever made; otherwise closing the device is refused. */
  lemma CleanupLegalIff(t: Transport, order: seq<nat>)
    requires Sound(t) && EachRegionOnce(order, t.regions)
    ensures Replay(t.log + Teardown(t, order)) == if t.queues == {} then Some(NOTHING) else None
  {
    var log := t.log + TeardownOfDomain(t, order);
    DomainAlwaysReleased(t, order);
    if t.context.Some? {
      ReplayPush(log, CloseDevice(t.context.value));
      assert log + [CloseDevice(t.context.value)] == t.log + Teardown(t, order);
      assert t.queues != {} <==> t.context.value in Held(t).cqs.Values by {
        if cq :| cq in t.queues {
          assert Held(t).cqs[cq] == t.context.value;
        }
      }
      assert Held(t).contexts - {t.context.value} == {};
    } else {
      assert log == t.log + Teardown(t, order);
    }
  }

  /** The transfer gets past registration and is given a completion queue. */
  predicate GetsQueue(t: Transport, op: Op) {
    op.Transfer? && (op.ptr in t.regions || op.answers.mr.Some?) && (op.answers.send.Some? || op.answers.recv.Some?)
  }

  ghost predicate MakesQueue(t: Transport, ops: seq<Op>)
    decreases ops
  {
    ops != [] && Possible(t, ops[0]) && (GetsQueue(t, ops[0]) || MakesQueue(Done(t, ops[0]), ops[1..]))
  }

  lemma {:induction false} QueuesLeftIff(t: Transport, ops: seq<Op>, u: Transport)
    requires Leads(t, ops, u)
    ensures t.queues <= u.queues
    ensures t.queues == {} ==> (u.queues == {} <==> !MakesQueue(t, ops))
    decreases ops
  {
    if ops == [] {
    } else {
      var next := Done(t, ops[0]);
      QueuesLeftIff(next, ops[1..], u);
      if ops[0].Transfer? {
        var a := ops[0].answers;
        assert GetsQueue(t, ops[0]) ==> next.queues != {} by {
          assert a.send.Some? ==> a.send.value in Elements(a.send);
          assert a.recv.Some? ==> a.recv.value in Elements(a.recv);
        }
      }
    }
  }

  /** From construction through any use to destruction: all given back exactly if no transfer was given a completion queue. */
  lemma WholeLifeIsCleanIff(devices: Option<seq<Option<nat>>>, domain: Option<nat>, ops: seq<Op>, u: Transport, order: seq<nat>)
    requires Leads(Initialized(CREATED, devices, domain), ops, u) && EachRegionOnce(order, u.regions)
    ensures Replay(u.log + Teardown(u, order))
         == if MakesQueue(Initialized(CREATED, devices, domain), ops) then None else Some(NOTHING)
    ensures Replay(u.log + TeardownOfDomain(u, order)) == Some(Held(u).(mrs := map[], pds := map[]))
  {
    CreatedSound();
    InitializeSoundIff(CREATED, devices, domain);
    RunSound(Initialized(CREATED, devices, domain), ops, u);
    QueuesLeftIff(Initialized(CREATED, devices, domain), ops, u);
    CleanupLegalIff(u, order);
    DomainAlwaysReleased(u, order);
  }

  const ONCE: Transport := Initialized(CREATED, Some([Some(1)]), Some(1))
  const TWICE: Transport := Initialized(ONCE, Some([Some(2)]), Some(2))

  lemma BothDevicesOpen()
    ensures Sound(ONCE) && FreshAnswers(ONCE, Some([Some(2)]), Some(2))
    ensures Replay(TWICE.log) == Some(Resources({1, 2}, map[1 := 1, 2 := 2], map[], map[], map[]))
  {
    CreatedSound();
    InitializeSoundIff(CREATED, Some([Some(1)]), Some(1));
    InitializedReplay(ONCE, Some([Some(2)]), Some(2));
    var held := Held(ONCE);
    assert held == Resources({1}, map[1 := 1], map[], map[], map[]);
    assert held.contexts + {2} == {1, 2};
    assert TWICE.context == Some(2);
    assert held.pds[2 := 2] == map[1 := 1, 2 := 2];
  }

  /** Initializing twice: teardown is legal, but the first device and its domain are never given back. */
  lemma SecondInitializeLosesDevice()
    ensures Sound(ONCE) && FreshAnswers(ONCE, Some([Some(2)]), Some(2)) && !Sound(TWICE)
    ensures Replay(TWICE.log + Teardown(TWICE, [])) == Some(NOTHING.(contexts := {1}, pds := map[1 := 1]))
  {
    BothDevicesOpen();
    InitializeSoundIff(ONCE, Some([Some(2)]), Some(2));
    var r := Resources({1, 2}, map[1 := 1, 2 := 2], map[], map[], map[]);
    ReplayPush(TWICE.log, DeallocPd(2));
    assert r.pds - {2} == map[1 := 1] && r.contexts - {2} == {1};
    ReplayPush(TWICE.log + [DeallocPd(2)], CloseDevice(2));
    assert TWICE.log + [DeallocPd(2)] + [CloseDevice(2)] == TWICE.log + Teardown(TWICE, []);
  }

  const GRANTED: Answers := Answers(Some(5), Some(6), Some(7), Some(8), false, false, true, true)

  /** One transfer that succeeds, and the teardown after it is refused at the device. */
  lemma OneTransferBlocksTeardown()
    ensures Sound(ONCE) && Possible(ONCE, Transfer(9, GRANTED)) && Completion(8, true) in Transferred(ONCE, 9, GRANTED).log
    ensures var u := Transferred(ONCE, 9, GRANTED);
            EachRegionOnce([5], u.regions) && Replay(u.log + Teardown(u, [5])) == None
  {
    BothDevicesOpen();
    TransferredSound(ONCE, 9, GRANTED);
    var u := Transferred(ONCE, 9, GRANTED);
    assert u.regions == map[9 := 5] && u.regions[9] == 5;
    assert 6 in u.queues;
    CleanupLegalIff(u, [5]);
  }
}

/**
  `Dispatcher`: scoring and choosing a node, deciding how data is placed there from
  what the cooling service knows, and finding the chosen node again by its id.
  Scores are real numbers; `size_t` arithmetic wraps at 2^64 as in the source.
 */
module Dispatcher {
  import opened Wrappers
  import opened Cooling

  type Latency = x: real | x >= 0.0

  datatype RemoteNode = RemoteNode(
    id: string,
    priority: int,
    totalMemory: u64,
    availableMemory: u64,
    networkLatency: Latency,
    cpuUsage: real,
    gpuUtilization: real,
    numaId: int,
    rdmaSupport: bool,
    nvlinkSupport: bool,
    gdrSupport: bool,
    gpuMemoryUtilization: real
  )

  datatype MemoryType = VRAM | HOST

  datatype TransportType = LOCAL | RDMA | UDP | RDMA_UDP

  datatype Plan = OutOfMemory | Plan(
                    targetNodeId: string,
                    memoryType: MemoryType,
                    transportType: TransportType,
                    numaMatch: bool,
                    prefetchHint: bool,
                    gpuTopologyOptimal: bool,
                    triggerMigration: bool,
                    expandStableZone: bool,
                    gdrTransfer: bool
                  )

  // ------------------------------------------------------------------ scoring

  /** Unsigned 64-bit subtraction. */
  function SubU64(x: u64, y: u64): u64 {
    (x - y) % 0x1_0000_0000_0000_0000
  }

  function MemoryScore(node: RemoteNode, required: u64): real {
    if node.totalMemory > 0 then SubU64(node.availableMemory, required) as real / node.totalMemory as real else 0.0
  }

  function LatencyScore(node: RemoteNode): real {
    1.0 / (1.0 + node.networkLatency)
  }

  function Score(node: RemoteNode, required: u64, numaId: int): real {
    0.3 * MemoryScore(node, required)
    + 0.2 * LatencyScore(node)
    + 0.2 * (1.0 - (node.cpuUsage + node.gpuUtilization) / 200.0)
    + 0.1 * (node.priority as real / 100.0)
    + 0.2 * (if node.numaId == numaId then 1.0 else 0.5)
  }

  predicate Eligible(node: RemoteNode, size: u64) {
    node.availableMemory >= size
  }

  const SENTINEL: real := -1.0

  /** Percentages are percentages, and no more memory is free than there is (0 means the total is unknown). */
  predicate WellReported(node: RemoteNode) {
    && (node.totalMemory > 0 ==> node.availableMemory <= node.totalMemory)
    && 0 <= node.priority <= 100
    && 0.0 <= node.cpuUsage <= 100.0
    && 0.0 <= node.gpuUtilization <= 100.0
  }

  lemma QuotientBounds(x: real, y: real)
    requires 0.0 <= x <= y && y > 0.0
    ensures 0.0 <= x / y <= 1.0
  {
  }

  lemma QuotientMonotone(x: real, x': real, y: real)
    requires x <= x' && y > 0.0
    ensures x / y <= x' / y
  {
  }

  lemma ReciprocalAntitone(x: real, x': real)
    requires 0.0 < x' <= x
    ensures 0.0 < 1.0 / x <= 1.0 / x'
  {
  }

  /** The subtraction that the guard protects never wraps, and a well-reported score lies in (0.1, 1.0]. */
  lemma ScoreBounds(node: RemoteNode, size: u64, numaId: int)
    requires WellReported(node) && Eligible(node, size)
    ensures SubU64(node.availableMemory, size) == node.availableMemory - size
    ensures 0.1 < Score(node, size, numaId) <= 1.0
  {
    if node.totalMemory > 0 {
      QuotientBounds((node.availableMemory - size) as real, node.totalMemory as real);
    }
    assert 0.0 <= MemoryScore(node, size) <= 1.0;
    ReciprocalAntitone(1.0 + node.networkLatency, 1.0);
  }

  /** What a difference in one field is worth. */
  lemma WorthOfNuma(node: RemoteNode, size: u64, numaId: int, other: int)
    requires other != numaId
    ensures Score(node.(numaId := numaId), size, numaId) - Score(node.(numaId := other), size, numaId) == 0.1
  {
  }

  lemma WorthOfPriority(node: RemoteNode, size: u64, numaId: int, priority: int)
    ensures Score(node.(priority := priority), size, numaId) - Score(node, size, numaId) == (priority - node.priority) as real / 1000.0
  {
  }

  lemma WorthOfLoad(node: RemoteNode, size: u64, numaId: int, cpu: real, gpu: real)
    ensures Score(node.(cpuUsage := cpu, gpuUtilization := gpu), size, numaId) - Score(node, size, numaId)
         == (node.cpuUsage + node.gpuUtilization - (cpu + gpu)) / 1000.0
  {
  }

  lemma WorthOfLatency(node: RemoteNode, size: u64, numaId: int, latency: Latency)
    ensures Score(node.(networkLatency := latency), size, numaId) - Score(node, size, numaId)
         == 0.2 / (1.0 + latency) - 0.2 / (1.0 + node.networkLatency)
  {
    Scaled(0.2, 1.0, 1.0 + latency);
    Scaled(0.2, 1.0, 1.0 + node.networkLatency);
  }

  lemma Scaled(c: real, x: real, y: real)
    requires y > 0.0
    ensures c * (x / y) == c * x / y
  {
  }

  lemma DifferenceOfQuotients(x: real, x': real, y: real)
    requires y > 0.0
    ensures x' / y - x / y == (x' - x) / y
  {
  }

  lemma MemoryScoreOf(node: RemoteNode, size: u64)
    requires Eligible(node, size)
    ensures MemoryScore(node, size) ==
            if node.totalMemory > 0 then (node.availableMemory - size) as real / node.totalMemory as real else 0.0
  {
  }

  /** More memory, or less of it asked for; nothing while the total is unknown. */
  lemma WorthOfMemory(node: RemoteNode, available: u64, size: u64, size': u64, numaId: int)
    requires size <= node.availableMemory && size' <= available
    ensures Score(node.(availableMemory := available), size', numaId) - Score(node, size, numaId)
         == if node.totalMemory > 0 then 0.3 * ((available - size') - (node.availableMemory - size)) as real / node.totalMemory as real
            else 0.0
  {
    MemoryScoreOf(node, size);
    MemoryScoreOf(node.(availableMemory := available), size');
    if node.totalMemory > 0 {
      var x, x', y := (node.availableMemory - size) as real, (available - size') as real, node.totalMemory as real;
      DifferenceOfQuotients(x, x', y);
      Scaled(0.3, x' - x, y);
      assert x' - x == ((available - size') - (node.availableMemory - size)) as real;
    }
  }

  /** The whole score of an idle node without latency, with everything asked for, on the right NUMA node. */
  lemma ScoreOfIdleNode(node: RemoteNode, numaId: int)
    requires node.networkLatency == 0.0 && node.cpuUsage == node.gpuUtilization == 0.0 && node.numaId == numaId
    ensures Score(node, node.availableMemory, numaId) == 0.6 + node.priority as real / 1000.0
  {
  }

  /** Nothing else about a node counts. */
  lemma OnlyTheseFieldsCount(n: RemoteNode, m: RemoteNode, size: u64, numaId: int)
    requires n.totalMemory == m.totalMemory && n.availableMemory == m.availableMemory && n.networkLatency == m.networkLatency
    requires n.cpuUsage == m.cpuUsage && n.gpuUtilization == m.gpuUtilization && n.priority == m.priority && n.numaId == m.numaId
    ensures Score(n, size, numaId) == Score(m, size, numaId)
  {
  }

  // ---------------------------------------------------------------- selection

  /** The first of the best-scored eligible nodes, scored above the sentinel. */
  ghost predicate IsWinner(nodes: seq<RemoteNode>, size: u64, numaId: int, i: nat) {
    && i < |nodes|
    && Eligible(nodes[i], size)
    && Score(nodes[i], size, numaId) > SENTINEL
    && (forall j :: 0 <= j < i && Eligible(nodes[j], size) ==>
                      Score(nodes[j], size, numaId) < Score(nodes[i], size, numaId))
    && (forall j :: i < j < |nodes| && Eligible(nodes[j], size) ==>
                      Score(nodes[j], size, numaId) <= Score(nodes[i], size, numaId))
  }

  /** The selection loop of `makeAllocationDecision`. */
  method SelectNode(nodes: seq<RemoteNode>, size: u64, numaId: int) returns (best: Option<nat>)
    ensures best.Some? ==> IsWinner(nodes, size, numaId, best.value)
    ensures best.None? <==> forall n :: n in nodes && Eligible(n, size) ==> Score(n, size, numaId) <= SENTINEL
    ensures (forall n :: n in nodes ==> WellReported(n)) ==> (best.None? <==> forall n :: n in nodes ==> !Eligible(n, size))
  {
    best := None;
    var bestScore := SENTINEL;
    for k := 0 to |nodes|
      invariant best.None? ==> bestScore == SENTINEL
      invariant best.None? ==> forall j :: 0 <= j < k && Eligible(nodes[j], size) ==> Score(nodes[j], size, numaId) <= SENTINEL
      invariant best.Some? ==> IsWinner(nodes[..k], size, numaId, best.value) && bestScore == Score(nodes[best.value], size, numaId)
    {
      if nodes[k].availableMemory < size {
        continue;
      }
      var score := Score(nodes[k], size, numaId);
      if score > bestScore {
        bestScore := score;
        best := Some(k);
      }
    }
    assert nodes[..|nodes|] == nodes;
    if forall n :: n in nodes ==> WellReported(n) {
      forall n | n in nodes && Eligible(n, size)
        ensures Score(n, size, numaId) > SENTINEL
      {
        ScoreBounds(n, size, numaId);
      }
    }
  }

  lemma WinnerIsUnique(nodes: seq<RemoteNode>, size: u64, numaId: int, i: nat, j: nat)
    requires IsWinner(nodes, size, numaId, i) && IsWinner(nodes, size, numaId, j)
    ensures i == j
  {
  }

  /** `n` reports at least as much memory (up to its total), no more latency or load, and no less priority. */
  ghost predicate Improves(n: RemoteNode, old_: RemoteNode) {
    && n == old_.(availableMemory := n.availableMemory, networkLatency := n.networkLatency, cpuUsage := n.cpuUsage,
            gpuUtilization := n.gpuUtilization, priority := n.priority)
    && old_.availableMemory <= n.availableMemory
    && n.networkLatency <= old_.networkLatency
    && n.cpuUsage + n.gpuUtilization <= old_.cpuUsage + old_.gpuUtilization
    && old_.priority <= n.priority
  }

  lemma MemoryScoreRises(old_: RemoteNode, n: RemoteNode, size: u64)
    requires old_.totalMemory == n.totalMemory && size <= old_.availableMemory <= n.availableMemory
    ensures MemoryScore(old_, size) <= MemoryScore(n, size)
  {
    if n.totalMemory > 0 {
      QuotientMonotone((old_.availableMemory - size) as real, (n.availableMemory - size) as real, n.totalMemory as real);
    }
  }

  lemma LatencyScoreRises(old_: RemoteNode, n: RemoteNode)
    requires n.networkLatency <= old_.networkLatency
    ensures LatencyScore(old_) <= LatencyScore(n)
  {
    ReciprocalAntitone(1.0 + old_.networkLatency, 1.0 + n.networkLatency);
  }

  lemma ImprovementRaisesScore(old_: RemoteNode, n: RemoteNode, size: u64, numaId: int)
    requires Eligible(old_, size) && Improves(n, old_)
    ensures Eligible(n, size) && Score(old_, size, numaId) <= Score(n, size, numaId)
  {
    MemoryScoreRises(old_, n, size);
    LatencyScoreRises(old_, n);
  }

  /** A chosen node that only gets better is still chosen. */
  lemma ChoiceStableUnderImprovement(nodes: seq<RemoteNode>, size: u64, numaId: int, i: nat, n: RemoteNode)
    requires IsWinner(nodes, size, numaId, i) && Improves(n, nodes[i])
    ensures IsWinner(nodes[i := n], size, numaId, i)
  {
    ImprovementRaisesScore(nodes[i], n, size, numaId);
  }

  /** Of two nodes alike in what counts but their NUMA node, the one elsewhere never wins over the one asked for. */
  lemma AffinityDecides(nodes: seq<RemoteNode>, size: u64, numaId: int, near: nat, far: nat)
    requires near < |nodes| && far < |nodes| && nodes[near].numaId == numaId != nodes[far].numaId
    requires nodes[far] == nodes[near].(id := nodes[far].id, numaId := nodes[far].numaId)
    ensures !IsWinner(nodes, size, numaId, far)
  {
    WorthOfNuma(nodes[near], size, numaId, nodes[far].numaId);
    OnlyTheseFieldsCount(nodes[near].(numaId := nodes[far].numaId), nodes[far], size, numaId);
    assert nodes[near] == nodes[near].(numaId := numaId);
  }

  /** A lone idle node is chosen for all its memory exactly above priority -1600: negative scores do win. */
  lemma LoneNodeChosenIff(node: RemoteNode, numaId: int)
    requires node.networkLatency == 0.0 && node.cpuUsage == node.gpuUtilization == 0.0 && node.numaId == numaId
    ensures IsWinner([node], node.availableMemory, numaId, 0) <==> node.priority > -1600
  {
    ScoreOfIdleNode(node, numaId);
  }

  // ----------------------------------------------------------------- the plan

  /** The guard `available_memory > size * 2`, whose product wraps. */
  predicate RoomForTwice(node: RemoteNode, size: u64) {
    node.availableMemory > (size * 2) % 0x1_0000_0000_0000_0000
  }

  /** What the cooling service's getters answered. Each takes the lock for itself, so the table may change in between. */
  datatype Answers = Answers(hot: bool, mobility: nat, stability: real, numaId: int)

  /** The answers of getters that found the table in four states, one after the other. */
  ghost function Answered(ptr: Ptr, a: Table, b: Table, c: Table, d: Table): Answers {
    Answers(IsHot(a, ptr), Mobility(b, ptr), StabilityOf(c, ptr), NumaId(d, ptr))
  }

  /** The whole decision for a chosen node, field by field, from the cooling service's answers. */
  ghost predicate Follows(plan: Plan, best: RemoteNode, answers: Answers, size: u64) {
    var hot, stable, mobility, numaId := answers.hot, answers.stability > 0.8, answers.mobility, answers.numaId;
    && plan.Plan?
    && plan.targetNodeId == best.id
    && (plan.memoryType == VRAM <==>
        (stable && hot) || (mobility <= 5 && best.numaId == numaId && RoomForTwice(best, size)))
    && (plan.transportType == LOCAL <==> hot && stable)
    && (plan.transportType == RDMA <==> hot && !stable && mobility < 3 && best.rdmaSupport)
    && (plan.transportType == UDP <==> hot && !stable && mobility < 3 && !best.rdmaSupport)
    && (plan.numaMatch <==> numaId != -1 && best.numaId == numaId)
    && (plan.prefetchHint <==> numaId != -1 && best.numaId != -1 && best.numaId != numaId)
    && (plan.gpuTopologyOptimal <==> best.nvlinkSupport)
    && (plan.triggerMigration <==> best.gpuMemoryUtilization > 0.85)
    && (plan.expandStableZone <==> best.gpuMemoryUtilization < 0.7)
    && (plan.gdrTransfer <==> best.gdrSupport && mobility > 0)
  }

  /** On which side of each threshold the threshold itself lies. */
  lemma PlanAtThresholds(plan: Plan, best: RemoteNode, answers: Answers, size: u64)
    requires Follows(plan, best, answers, size)
    ensures answers.hot && answers.stability == 0.8 ==> plan.transportType != LOCAL
    ensures answers.hot && answers.stability == 0.81 ==> plan.transportType == LOCAL && plan.memoryType == VRAM
    ensures !answers.hot && best.numaId == answers.numaId && RoomForTwice(best, size) && answers.mobility == 5 ==> plan.memoryType == VRAM
    ensures !answers.hot && answers.mobility == 6 ==> plan.memoryType == HOST
    ensures answers.hot && answers.stability == 0.8 && answers.mobility == 2 ==> plan.transportType in {RDMA, UDP}
    ensures answers.hot && answers.stability == 0.8 && answers.mobility == 3 ==> plan.transportType == RDMA_UDP
    ensures best.gpuMemoryUtilization == 0.85 || best.gpuMemoryUtilization == 0.7 ==> !plan.triggerMigration && !plan.expandStableZone
    ensures best.gpuMemoryUtilization == 0.86 ==> plan.triggerMigration
    ensures best.gpuMemoryUtilization == 0.69 ==> plan.expandStableZone
  {
  }

  class Dispatcher {
    var nodes: seq<RemoteNode>

    constructor ()
      ensures nodes == []
    {
      nodes := [];
    }

    method AddNode(node: RemoteNode)
      modifies this
      ensures nodes == old(nodes) + [node]
    {
      nodes := nodes + [node];
    }

    /** Records that cannot be read are `None`: the first one ends the load, and what was added stays. */
    method LoadConfig(config: seq<Option<RemoteNode>>) returns (ok: bool)
      modifies this
      ensures nodes == old(nodes) + Readable(config)
      ensures ok <==> None !in config
    {
      for k := 0 to |config|
        invariant None !in config[..k]
        invariant nodes == old(nodes) + Readable(config[..k])
      {
        if config[k].None? {
          ReadableStops(config, k);
          return false;
        }
        ReadableExtends(config, k);
        nodes := nodes + [config[k].value];
      }
      assert config[..|config|] == config;
      return true;
    }

    method MakeAllocationDecision(size: u64, currentNuma: int, answers: Answers) returns (plan: Plan)
      ensures plan.OutOfMemory? <==>
              forall n :: n in nodes && Eligible(n, size) ==> Score(n, size, currentNuma) <= SENTINEL
      ensures (forall n :: n in nodes ==> WellReported(n)) ==>
                (plan.OutOfMemory? <==> forall n :: n in nodes ==> !Eligible(n, size))
      ensures plan.Plan? ==> exists i: nat :: IsWinner(nodes, size, currentNuma, i) && Follows(plan, nodes[i], answers, size)
    {
      var chosen := SelectNode(nodes, size, currentNuma);
      if chosen.None? {
        return OutOfMemory;
      }
      plan := Place(nodes[chosen.value], size, answers);
    }

    /** The part of `makeAllocationDecision` that follows the choice of a node. */
    method Place(best: RemoteNode, size: u64, answers: Answers) returns (plan: Plan)
      ensures Follows(plan, best, answers, size)
    {
      var Answers(hot, mobility, stability, numaId) := answers;

      var memoryType := HOST;
      if stability > 0.8 && hot {
        memoryType := VRAM;
      } else if mobility > 5 {
        memoryType := HOST;
      } else if best.numaId == numaId && RoomForTwice(best, size) {
        memoryType := VRAM;
      }

      var transportType := RDMA_UDP;
      if hot && stability > 0.8 {
        transportType := LOCAL;
      } else if hot && mobility < 3 {
        transportType := if best.rdmaSupport then RDMA else UDP;
      }

      var numaMatch, prefetchHint := false, false;
      if best.numaId != -1 && numaId != -1 {
        numaMatch := best.numaId == numaId;
        prefetchHint := best.numaId != numaId;
      }
      var triggerMigration, expandStableZone := false, false;
      if best.gpuMemoryUtilization > 0.85 {
        triggerMigration := true;
      } else if best.gpuMemoryUtilization < 0.7 {
        expandStableZone := true;
      }
      plan := Plan(best.id, memoryType, transportType, numaMatch, prefetchHint, best.nvlinkSupport,
                   triggerMigration, expandStableZone, best.gdrSupport && mobility > 0);
    }

    method GetNodeById(id: string) returns (found: Option<nat>)
      ensures found.Some? ==> IsFirstWithId(nodes, id, found.value)
      ensures found.None? <==> forall n :: n in nodes ==> n.id != id
    {
      for k := 0 to |nodes|
        invariant forall j :: 0 <= j < k ==> nodes[j].id != id
      {
        if nodes[k].id == id {
          return Some(k);
        }
      }
      return None;
    }

    /** The answer is the first record under the winner's id, which need not be the winner itself. */
    method PickNode(required: u64, answers: Answers) returns (picked: Option<nat>)
      ensures picked.None? <==> forall n :: n in nodes && Eligible(n, required) ==> Score(n, required, -1) <= SENTINEL
      ensures picked.Some? ==> exists i: nat :: IsWinner(nodes, required, -1, i) && IsFirstWithId(nodes, nodes[i].id, picked.value)
    {
      if nodes == [] {
        return None;
      }
      var plan := MakeAllocationDecision(required, -1, answers);
      if plan.OutOfMemory? {
        return None;
      }
      ghost var i: nat :| IsWinner(nodes, required, -1, i) && Follows(plan, nodes[i], answers, required);
      assert nodes[i] in nodes;
      picked := GetNodeById(plan.targetNodeId);
    }
  }

  function Readable(config: seq<Option<RemoteNode>>): seq<RemoteNode> {
    if config == [] || config[0].None? then [] else [config[0].value] + Readable(config[1..])
  }

  lemma {:induction false} ReadableExtends(config: seq<Option<RemoteNode>>, k: nat)
    requires k < |config| && None !in config[..k + 1]
    ensures Readable(config[..k + 1]) == Readable(config[..k]) + [config[k].value]
  {
    assert config[0] == config[..k + 1][0];
    if k == 0 {
    } else {
      assert config[..k + 1][1..] == config[1..][..k];
      assert config[..k][1..] == config[1..][..k - 1];
      ReadableExtends(config[1..], k - 1);
    }
  }

  lemma {:induction false} ReadableStops(config: seq<Option<RemoteNode>>, k: nat)
    requires k < |config| && config[k].None?
    requires None !in config[..k]
    ensures Readable(config) == Readable(config[..k])
  {
    if k == 0 {
    } else {
      assert config[..k][0] == config[0];
      assert config[..k][1..] == config[1..][..k - 1];
      ReadableStops(config[1..], k - 1);
    }
  }

  /** The readable records are those before the first one that cannot be read. */
  lemma {:induction false} ReadableIsPrefix(config: seq<Option<RemoteNode>>)
    ensures var r := Readable(config);
            && |r| <= |config|
            && (forall k :: 0 <= k < |r| ==> config[k] == Some(r[k]))
            && (|r| == |config| || config[|r|].None?)
  {
    if config == [] || config[0].None? {
    } else {
      ReadableIsPrefix(config[1..]);
    }
  }

  /** For a node that passed the memory test, the wrapped guard means what it says exactly below 2^63 bytes. */
  lemma RoomForTwiceIff(node: RemoteNode, size: u64)
    requires Eligible(node, size)
    ensures (RoomForTwice(node, size) <==> node.availableMemory > 2 * size) <==> size < 0x8000_0000_0000_0000
  {
  }

  /** A node with 2^63 bytes free, asked for all of them on its own NUMA node, is taken to have room for twice that. */
  lemma WrapChoosesVram(node: RemoteNode, plan: Plan, answers: Answers)
    requires node.availableMemory == 0x8000_0000_0000_0000 && node.numaId == answers.numaId && answers.mobility == 0
    requires Follows(plan, node, answers, 0x8000_0000_0000_0000)
    ensures Eligible(node, 0x8000_0000_0000_0000) && plan.memoryType == VRAM
    ensures !(node.availableMemory > 2 * 0x8000_0000_0000_0000)
  {
    RoomForTwiceIff(node, 0x8000_0000_0000_0000);
  }

  /** The decision's four getters ran in this order at these points of the cooling service's run. */
  ghost predicate ReadDuring(answers: Answers, ptr: Ptr, evs: seq<Event>, at: seq<nat>, exp: real -> real) {
    && |at| == 4 && at[0] <= at[1] <= at[2] <= at[3] <= |evs|
    && answers == Answered(ptr, Run(map[], evs[..at[0]], exp), Run(map[], evs[..at[1]], exp),
                           Run(map[], evs[..at[2]], exp), Run(map[], evs[..at[3]], exp))
  }

  /** Whatever accesses and passes run before and between the getters, several branches of the decision are dead. */
  lemma DeadBranches(evs: seq<Event>, at: seq<nat>, exp: real -> real, ptr: Ptr, answers: Answers,
                     plan: Plan, best: RemoteNode, size: u64)
    requires ExpLike(exp)
    requires ReadDuring(answers, ptr, evs, at, exp)
    requires Follows(plan, best, answers, size)
    ensures plan.transportType != LOCAL
    ensures !plan.gdrTransfer
    ensures plan.transportType == if !answers.hot then RDMA_UDP else if best.rdmaSupport then RDMA else UDP
    ensures plan.memoryType == VRAM <==> best.numaId == answers.numaId && RoomForTwice(best, size)
    ensures Untouched(evs, ptr) ==> plan.transportType == RDMA_UDP && !plan.numaMatch && !plan.prefetchHint
  {
    RunKeepsTableOk(map[], evs[..at[1]], exp);
    RunKeepsTableOk(map[], evs[..at[2]], exp);
    assert answers.stability <= 0.5 && answers.mobility == 0;
    if Untouched(evs, ptr) {
      UntouchedStaysAbsent(map[], evs[..at[0]], ptr, exp);
      UntouchedStaysAbsent(map[], evs[..at[3]], ptr, exp);
    }
  }

  const ACCESS_THEN_PASS: seq<Event> := [Access(1, 0, 0), Pass(6_000_000_000)]

  /** A pass between the first getter and the last: hot data without a NUMA node, which no table of the run shows. */
  lemma MixedAnswers(exp: real -> real)
    ensures exists answers ::
              && ReadDuring(answers, 1, ACCESS_THEN_PASS, [1, 1, 1, 2], exp)
              && answers.hot && answers.numaId == -1
    ensures forall i :: 0 <= i <= 2 ==>
                          var t := Run(map[], ACCESS_THEN_PASS[..i], exp);
                          !(IsHot(t, 1) && NumaId(t, 1) == -1)
  {
    var evs := ACCESS_THEN_PASS;
    var first := [Access(1, 0, 0)];
    assert evs[..1] == first && first[..0] == [] && evs[..0] == [] && evs[..2] == evs;
    var t := Run(map[], first, exp);
    assert t == Accessed(map[], 1, 0, 0);
    var u := Run(map[], evs, exp);
    assert 1 !in u;
    assert ReadDuring(Answered(1, t, t, t, u), 1, evs, [1, 1, 1, 2], exp);
  }

  // --------------------------------------------------------- picking through ids

  ghost predicate IsFirstWithId(nodes: seq<RemoteNode>, id: string, k: nat) {
    k < |nodes| && nodes[k].id == id && forall j :: 0 <= j < k ==> nodes[j].id != id
  }

  /** What a caller of `PickNode` relies on: enough memory, and no eligible node scored higher. */
  ghost predicate Sound(nodes: seq<RemoteNode>, size: u64, numaId: int, k: nat) {
    && k < |nodes|
    && Eligible(nodes[k], size)
    && forall n :: n in nodes && Eligible(n, size) ==> Score(n, size, numaId) <= Score(nodes[k], size, numaId)
  }

  /** The node found through the id is sound exactly when the winner is the first record under its id. */
  lemma PickSoundIffWinnerIsFirst(nodes: seq<RemoteNode>, size: u64, numaId: int, i: nat, k: nat)
    requires IsWinner(nodes, size, numaId, i) && IsFirstWithId(nodes, nodes[i].id, k)
    ensures Sound(nodes, size, numaId, k) <==> forall j :: 0 <= j < i ==> nodes[j].id != nodes[i].id
  {
    if k < i {
      assert nodes[i] in nodes;
      assert nodes[k].id == nodes[i].id;
    }
  }

  ghost predicate IdsConsistent(nodes: seq<RemoteNode>) {
    forall j, k :: 0 <= j < k < |nodes| && nodes[j].id == nodes[k].id ==> nodes[j] == nodes[k]
  }

  lemma ConsistentIdsPickSoundly(nodes: seq<RemoteNode>, size: u64, numaId: int, i: nat, k: nat)
    requires IdsConsistent(nodes)
    requires IsWinner(nodes, size, numaId, i) && IsFirstWithId(nodes, nodes[i].id, k)
    ensures k == i && Sound(nodes, size, numaId, k)
  {
    PickSoundIffWinnerIsFirst(nodes, size, numaId, i, k);
  }

  /** The node list after the same configuration was loaded `times` times. */
  function Loaded(records: seq<RemoteNode>, times: nat): seq<RemoteNode> {
    if times == 0 then [] else Loaded(records, times - 1) + records
  }

  /** One more load of a readable configuration appends its records. */
  lemma ReloadAppends(records: seq<RemoteNode>, times: nat)
    ensures Loaded(records, 0) == []
    ensures Loaded(records, times + 1) == Loaded(records, times) + Readable(seq(|records|, k requires 0 <= k < |records| => Some(records[k])))
  {
    var config := seq(|records|, k requires 0 <= k < |records| => Some(records[k]));
    ReadableIsPrefix(config);
    assert Readable(config) == records;
  }

  lemma {:induction false} LoadedAddsNothingNew(records: seq<RemoteNode>, times: nat)
    ensures forall n :: n in Loaded(records, times) ==> n in records
  {
    if times == 0 {
    } else {
      LoadedAddsNothingNew(records, times - 1);
    }
  }

  /** `LoadConfig` appends without clearing, yet reloading unchanged records keeps every pick sound. */
  lemma ReloadsKeepIdsConsistent(records: seq<RemoteNode>, times: nat)
    requires IdsConsistent(records)
    ensures IdsConsistent(Loaded(records, times))
  {
    LoadedAddsNothingNew(records, times);
    var nodes := Loaded(records, times);
    forall j, k | 0 <= j < k < |nodes| && nodes[j].id == nodes[k].id
      ensures nodes[j] == nodes[k]
    {
      assert nodes[j] in records && nodes[k] in records;
      var a :| 0 <= a < |records| && records[a] == nodes[j];
      var b :| 0 <= b < |records| && records[b] == nodes[k];
    }
  }

  /** Reloading a changed record does not: the stale first copy is returned although it is too small. */
  lemma ChangedRecordPicksTooSmall(node: RemoteNode)
    requires WellReported(node) && node.totalMemory == 100 && node.availableMemory == 0
    ensures var nodes := [node, node.(availableMemory := 100)];
            IsWinner(nodes, 50, -1, 1) && IsFirstWithId(nodes, node.id, 0) && !Eligible(nodes[0], 50)
  {
    ScoreBounds(node.(availableMemory := 100), 50, -1);
  }
}

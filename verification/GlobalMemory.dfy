/** `GlobalMemoryService`: the pointer table, its access counters and its JSON snapshot. */
module GlobalMemory {
  import opened Wrappers
  import opened NumaAddress

  datatype Info = Info(nodeId: string, size: u64, remoteHandle: u64, accessCount: nat, lastAccess: int)

  /** What the snapshot keeps of an entry. */
  datatype Entry = Entry(nodeId: string, size: u64, remoteHandle: u64)

  type Table = map<u64, Info>

  function EntryOf(i: Info): Entry {
    Entry(i.nodeId, i.size, i.remoteHandle)
  }

  /** One entry per pointer, under its decimal key. */
  ghost predicate IsSnapshot(j: map<string, Entry>, t: Table) {
    |j| == |t| && PointersHaveEntries(j, t) && KeysHavePointers(j, t)
  }

  ghost predicate PointersHaveEntries(j: map<string, Entry>, t: Table) {
    forall p :: p in t ==> Decimal(p) in j && j[Decimal(p)] == EntryOf(t[p])
  }

  ghost predicate KeysHavePointers(j: map<string, Entry>, t: Table) {
    forall k :: k in j ==> exists p :: p in t && k == Decimal(p)
  }

  datatype Op = Add(p: u64, info: Info, now: int) | Get(p: u64, now: int) | Remove(p: u64)

  function Apply(t: Table, op: Op): Table {
    match op
    case Add(p, info, now) => t[p := info.(accessCount := 0, lastAccess := now)]
    case Get(p, now) =>
      if p in t then t[p := t[p].(accessCount := (t[p].accessCount + 1) % 0x1_0000_0000, lastAccess := now)] else t
    case Remove(p) => t - {p}
  }

  class GlobalMemoryService {
    var ptrTable: Table

    constructor ()
      ensures ptrTable == map[]
    {
      ptrTable := map[];
    }

    method AddMapping(dptr: u64, info: Info, now: int)
      modifies this
      ensures ptrTable == Apply(old(ptrTable), Add(dptr, info, now))
    {
      var entry := info.(accessCount := 0, lastAccess := now);
      ptrTable := ptrTable[dptr := entry];
    }

    method GetMapping(dptr: u64, now: int) returns (info: Option<Info>)
      modifies this
      ensures ptrTable == Apply(old(ptrTable), Get(dptr, now))
      ensures info == if dptr in ptrTable then Some(ptrTable[dptr]) else None
    {
      if dptr !in ptrTable {
        return None;
      }
      var entry := ptrTable[dptr];
      entry := entry.(accessCount := (entry.accessCount + 1) % 0x1_0000_0000, lastAccess := now);
      ptrTable := ptrTable[dptr := entry];
      return Some(entry);
    }

    method RemoveMapping(dptr: u64)
      modifies this
      ensures ptrTable == Apply(old(ptrTable), Remove(dptr))
    {
      ptrTable := ptrTable - {dptr};
    }

    /** The object `SaveSnapshot` writes, built in whatever order the table yields. */
    method SaveSnapshot() returns (j: map<string, Entry>)
      ensures IsSnapshot(j, ptrTable)
    {
      j := map[];
      var rest := ptrTable.Keys;
      SaveBegins(ptrTable);
      while rest != {}
        invariant rest <= ptrTable.Keys && SavedSoFar(j, ptrTable, rest)
        decreases rest
      {
        var p :| p in rest;
        SaveOneMore(j, ptrTable, rest, p);
        rest := rest - {p};
        j := j[Decimal(p) := EntryOf(ptrTable[p])];
      }
      SaveEnds(j, ptrTable);
    }
  }

  ghost predicate SavedSoFar(j: map<string, Entry>, t: Table, rest: set<u64>) {
    IsSnapshot(j, t - rest)
  }

  lemma SaveBegins(t: Table)
    ensures SavedSoFar(map[], t, t.Keys)
  {
    assert t - t.Keys == map[];
  }

  lemma SaveEnds(j: map<string, Entry>, t: Table)
    requires SavedSoFar(j, t, {})
    ensures IsSnapshot(j, t)
  {
    assert t - {} == t;
  }

  lemma SaveOneMore(j: map<string, Entry>, t: Table, rest: set<u64>, p: u64)
    requires p in rest && p in t && SavedSoFar(j, t, rest)
    ensures SavedSoFar(j[Decimal(p) := EntryOf(t[p])], t, rest - {p})
  {
    AddingOneEntry(j, t - rest, p, t[p]);
    KeepOneMore(t, rest, p);
  }

  lemma KeepOneMore(t: Table, rest: set<u64>, p: u64)
    requires p in rest && p in t
    ensures t - (rest - {p}) == (t - rest)[p := t[p]]
  {
  }

  /** Distinct pointers print differently, so the key of a new pointer is new. */
  lemma NewKey(j: map<string, Entry>, t: Table, p: u64)
    requires IsSnapshot(j, t) && p !in t
    ensures Decimal(p) !in j
  {
    if Decimal(p) in j {
      var q :| q in t && Decimal(p) == Decimal(q);
      DecimalInjective(p, q);
    }
  }

  lemma AddingOneEntry(j: map<string, Entry>, t: Table, p: u64, info: Info)
    requires IsSnapshot(j, t) && p !in t
    ensures IsSnapshot(j[Decimal(p) := EntryOf(info)], t[p := info])
  {
    NewKey(j, t, p);
    OneMoreKey(j, Decimal(p), EntryOf(info));
    OneMoreKey(t, p, info);
    PointerAdded(j, t, p, info);
    KeyAdded(j, t, p, info);
  }

  lemma OneMoreKey<K, V>(m: map<K, V>, k: K, v: V)
    requires k !in m
    ensures |m[k := v]| == |m| + 1
  {
    assert m[k := v].Keys == m.Keys + {k};
  }

  lemma PointerAdded(j: map<string, Entry>, t: Table, p: u64, info: Info)
    requires PointersHaveEntries(j, t) && Decimal(p) !in j
    ensures PointersHaveEntries(j[Decimal(p) := EntryOf(info)], t[p := info])
  {
  }

  lemma KeyAdded(j: map<string, Entry>, t: Table, p: u64, info: Info)
    requires KeysHavePointers(j, t)
    ensures KeysHavePointers(j[Decimal(p) := EntryOf(info)], t[p := info])
  {
    var t' := t[p := info];
    forall k | k in j || k == Decimal(p)
      ensures exists q :: q in t' && k == Decimal(q)
    {
      if k == Decimal(p) {
        assert p in t';
      } else {
        var q :| q in t && k == Decimal(q);
        assert q in t';
      }
    }
  }

  /** A snapshot determines the table up to the access bookkeeping. */
  lemma SnapshotDeterminesTable(j: map<string, Entry>, t: Table, u: Table)
    requires IsSnapshot(j, t) && IsSnapshot(j, u)
    ensures t.Keys == u.Keys && forall p :: p in t ==> EntryOf(t[p]) == EntryOf(u[p])
  {
    SnapshotKeys(j, t, u);
    SnapshotKeys(j, u, t);
  }

  lemma SnapshotKeys(j: map<string, Entry>, t: Table, u: Table)
    requires IsSnapshot(j, t) && IsSnapshot(j, u)
    ensures forall p :: p in t ==> p in u
  {
    forall p | p in t
      ensures p in u
    {
      assert Decimal(p) in j;
      var q :| q in u && Decimal(p) == Decimal(q);
      DecimalInjective(p, q);
    }
  }

  // --------------------------------------------------------------------- runs

  function Run(ops: seq<Op>): Table {
    if ops == [] then map[] else Apply(Run(ops[..|ops| - 1]), ops[|ops| - 1])
  }

  /** Reads since the pointer was last added, if it has not been removed since. */
  function Reads(ops: seq<Op>, p: u64): Option<nat> {
    if ops == [] then None
    else
      var before := Reads(ops[..|ops| - 1], p);
      match ops[|ops| - 1]
      case Add(q, _, _) => if q == p then Some(0) else before
      case Get(q, _) => if q == p && before.Some? then Some(before.value + 1) else before
      case Remove(q) => if q == p then None else before
  }

  /** A pointer is mapped while it was added and not removed since, and its 32-bit counter is its reads since then. */
  lemma {:induction false} CounterIsReads(ops: seq<Op>, p: u64)
    ensures p in Run(ops) <==> Reads(ops, p).Some?
    ensures p in Run(ops) ==> Run(ops)[p].accessCount == Reads(ops, p).value % 0x1_0000_0000
  {
    if ops == [] {
    } else {
      CounterIsReads(ops[..|ops| - 1], p);
    }
  }

  /** What the pointer was last added with, if it has not been removed since. */
  function LatestAdd(ops: seq<Op>, p: u64): Option<Info> {
    if ops == [] then None
    else
      var before := LatestAdd(ops[..|ops| - 1], p);
      match ops[|ops| - 1]
      case Add(q, info, _) => if q == p then Some(info) else before
      case Get(_, _) => before
      case Remove(q) => if q == p then None else before
  }

  /** The clock reading of the latest addition or read of the pointer. */
  function LatestUse(ops: seq<Op>, p: u64): int {
    if ops == [] then 0
    else
      var before := LatestUse(ops[..|ops| - 1], p);
      match ops[|ops| - 1]
      case Add(q, _, now) => if q == p then now else before
      case Get(q, now) => if q == p then now else before
      case Remove(_) => before
  }

  /** An entry holds what its pointer was last added with, and when it was last used. */
  lemma {:induction false} EntryIsLatestAdd(ops: seq<Op>, p: u64)
    ensures p in Run(ops) <==> LatestAdd(ops, p).Some?
    ensures p in Run(ops) ==>
              var e, added := Run(ops)[p], LatestAdd(ops, p).value;
              && e.nodeId == added.nodeId && e.size == added.size && e.remoteHandle == added.remoteHandle
              && e.lastAccess == LatestUse(ops, p)
  {
    if ops == [] {
    } else {
      EntryIsLatestAdd(ops[..|ops| - 1], p);
    }
  }

  /** A snapshot after any run shows, under the decimal key, what each mapped pointer was last added with. */
  lemma SnapshotShowsLatestAdds(ops: seq<Op>, j: map<string, Entry>, p: u64)
    requires IsSnapshot(j, Run(ops))
    ensures Decimal(p) in j <==> LatestAdd(ops, p).Some?
    ensures Decimal(p) in j ==>
              var e, added := j[Decimal(p)], LatestAdd(ops, p).value;
              e.nodeId == added.nodeId && e.size == added.size && e.remoteHandle == added.remoteHandle
  {
    EntryIsLatestAdd(ops, p);
    if p !in Run(ops) {
      NewKey(j, Run(ops), p);
    }
  }
}

/**
  `CoolingService`: the access table, its heat bookkeeping and the cooling pass.
  Times are readings of one steady clock in nanoseconds. A pass reads the clock
  before it takes the table's lock, so its reading may be older than the latest
  accesses; nothing below assumes otherwise unless it says so.
 */
module Cooling {
  import opened Wrappers

  type Ptr = nat

  datatype AccessRecord = AccessRecord(
    count: nat,
    lastAccess: int,
    mobility: nat,
    stability: real,
    numaId: int,
    temperature: real
  )

  type Table = map<Ptr, AccessRecord>

  const FRESH_RECORD := AccessRecord(0, 0, 0, 0.0, -1, 0.0)
  const DECAY_AMOUNT := 1
  const ACCESS_WINDOW := 5
  const HOT_THRESHOLD := 0.8

  /** All that is used of `std::exp`; it may underflow to zero. */
  ghost predicate ExpLike(exp: real -> real) {
    && (forall x: real :: x <= 0.0 ==> 0.0 <= exp(x) <= 1.0)
    && (forall x: real :: x > 0.0 ==> exp(x) > 1.0)
  }

  /** `duration_cast` truncates toward zero. */
  function DurationCast(nanos: int, unit: int): int
    requires unit > 0
  {
    if nanos >= 0 then nanos / unit else -((-nanos) / unit)
  }

  function Millis(nanos: int): int { DurationCast(nanos, 1_000_000) }

  function Seconds(nanos: int): int { DurationCast(nanos, 1_000_000_000) }

  predicate Stale(now: int, lastAccess: int) {
    Seconds(now - lastAccess) > ACCESS_WINDOW
  }

  function Min(x: real, y: real): real { if y < x then y else x }

  function InstantHeat(millis: int): real {
    if millis > 0 then 1.0 / millis as real else 1.0
  }

  /** The effect of one access on its record: always the full heat, since the age is measured after the update. */
  function Touch(r: AccessRecord, now: int, numaId: int): AccessRecord {
    r.(count := r.count + 1, lastAccess := now, numaId := numaId, temperature := 1.0)
  }

  function Stability(count: nat, seconds: int, exp: real -> real): real {
    Min(1.0, count as real / 100.0) * 0.5 * (1.0 - exp(-(seconds as real) / 3600.0))
  }

  function CooledTemperature(temperature: real, millis: int, exp: real -> real): real {
    if millis > 0 then temperature * exp(-0.001 * millis as real) else temperature
  }

  predicate Dropped(r: AccessRecord, now: int) {
    Stale(now, r.lastAccess) && r.count <= DECAY_AMOUNT
  }

  /** What one pass leaves of a record it does not drop. */
  function Cooled(r: AccessRecord, now: int, exp: real -> real): AccessRecord
    requires !Dropped(r, now)
  {
    var count := if Stale(now, r.lastAccess) then r.count - DECAY_AMOUNT else r.count;
    r.(count := count,
    stability := Stability(count, Seconds(now - r.lastAccess), exp),
    temperature := CooledTemperature(r.temperature, Millis(now - r.lastAccess), exp))
  }

  function Accessed(t: Table, p: Ptr, now: int, numaId: int): Table {
    t[p := Touch(if p in t then t[p] else FRESH_RECORD, now, numaId)]
  }

  /** One pass as a transform of each record on its own. */
  ghost function Passed(t: Table, now: int, exp: real -> real): (u: Table)
    ensures forall p :: p in u <==> p in t && !Dropped(t[p], now)
    ensures forall p :: p in u ==> u[p] == Cooled(t[p], now, exp)
    decreases |t|
  {
    if t == map[] then map[]
    else
      var p :| p in t;
      var u := Passed(t - {p}, now, exp);
      if Dropped(t[p], now) then u else u[p := Cooled(t[p], now, exp)]
  }

  /** A pass over `t` that has yet to visit the pointers in `rest`. */
  ghost predicate Passing(records: Table, t: Table, rest: set<Ptr>, now: int, exp: real -> real) {
    && rest <= t.Keys
    && (forall p :: p in records <==> p in t && (p in rest || !Dropped(t[p], now)))
    && (forall p :: p in records ==> records[p] == if p in rest then t[p] else Cooled(t[p], now, exp))
  }

  lemma PassBegins(t: Table, now: int, exp: real -> real)
    ensures Passing(t, t, t.Keys, now, exp)
  {
  }

  lemma PassVisits(records: Table, t: Table, rest: set<Ptr>, p: Ptr, now: int, exp: real -> real)
    requires Passing(records, t, rest, now, exp) && p in rest
    ensures p in t && p in records && records[p] == t[p]
    ensures Dropped(t[p], now) ==> Passing(records - {p}, t, rest - {p}, now, exp)
    ensures !Dropped(t[p], now) ==> Passing(records[p := Cooled(t[p], now, exp)], t, rest - {p}, now, exp)
  {
  }

  lemma PassEnds(records: Table, t: Table, now: int, exp: real -> real)
    requires Passing(records, t, {}, now, exp)
    ensures records == Passed(t, now, exp)
  {
  }

  function Temperature(t: Table, p: Ptr): real { if p in t then t[p].temperature else 0.0 }

  predicate IsHot(t: Table, p: Ptr) { p in t && t[p].temperature > HOT_THRESHOLD }

  function Mobility(t: Table, p: Ptr): nat { if p in t then t[p].mobility else 0 }

  function StabilityOf(t: Table, p: Ptr): real { if p in t then t[p].stability else 0.0 }

  function NumaId(t: Table, p: Ptr): int { if p in t then t[p].numaId else -1 }

  class CoolingService {
    var records: Table

    constructor ()
      ensures records == map[]
    {
      records := map[];
    }

    method RecordAccess(ptr: Ptr, now: int, numaNode: int)
      modifies this
      ensures records == Accessed(old(records), ptr, now, numaNode)
      ensures IsHot(records, ptr)
    {
      var record := if ptr in records then records[ptr] else FRESH_RECORD;
      record := record.(count := record.count + 1, lastAccess := now, numaId := numaNode);
      var sinceLast := Millis(now - record.lastAccess);
      records := records[ptr := record.(temperature := InstantHeat(sinceLast))];
    }

    /** One round of the loop: the record as it is kept, or nothing if it is to be erased. */
    static method CoolRecord(r: AccessRecord, now: int, exp: real -> real) returns (kept: Option<AccessRecord>)
      ensures kept == if Dropped(r, now) then None else Some(Cooled(r, now, exp))
      ensures kept.None? <==> now - r.lastAccess >= 6_000_000_000 && r.count <= 1
      ensures kept.Some? ==> kept.value == Later(r, now, exp)
      ensures kept.None? ==> now > r.lastAccess
      ensures kept.Some? ==>
                var k := kept.value;
                && k == r.(count := k.count, stability := k.stability, temperature := k.temperature)
                && (k.count == r.count || k.count == r.count - 1) && (r.count >= 1 ==> k.count >= 1)
                && (ExpLike(exp) && r.temperature >= 0.0 ==> 0.0 <= k.temperature <= r.temperature)
    {
      PassOverRecord(r, now, exp);
      var record := r;
      var duration := Seconds(now - record.lastAccess);
      if duration > ACCESS_WINDOW {
        if record.count > DECAY_AMOUNT {
          record := record.(count := record.count - DECAY_AMOUNT);
        } else {
          return None;
        }
      }
      record := record.(stability := Stability(record.count, duration, exp));
      var sinceLast := Millis(now - record.lastAccess);
      if ExpLike(exp) && r.temperature >= 0.0 {
        CooledTemperatureBounds(r.temperature, sinceLast, exp);
      }
      record := record.(temperature := CooledTemperature(record.temperature, sinceLast, exp));
      return Some(record);
    }

    /** The pass inside `Run`: erases while it iterates, in whatever order the table yields. */
    method CoolingPass(now: int, exp: real -> real)
      modifies this
      ensures records == Passed(old(records), now, exp)
    {
      ghost var before := records;
      var rest := records.Keys;
      PassBegins(records, now, exp);
      while rest != {}
        invariant Passing(records, before, rest, now, exp)
        decreases rest
      {
        var p :| p in rest;
        PassVisits(records, before, rest, p, now, exp);
        rest := rest - {p};
        var kept := CoolRecord(records[p], now, exp);
        records := if kept.None? then records - {p} else records[p := kept.value];
      }
      PassEnds(records, before, now, exp);
    }
  }

  // --------------------------------------------------------------------- runs

  datatype Event = Access(ptr: Ptr, now: int, numaId: int) | Pass(now: int)

  ghost function Step(t: Table, ev: Event, exp: real -> real): Table {
    match ev
    case Access(p, now, numaId) => Accessed(t, p, now, numaId)
    case Pass(now) => Passed(t, now, exp)
  }

  ghost function Run(t: Table, evs: seq<Event>, exp: real -> real): Table {
    if evs == [] then t else Step(Run(t, evs[..|evs| - 1], exp), evs[|evs| - 1], exp)
  }

  /** What every record satisfies after any run, whatever the clock readings. */
  ghost predicate TableOk(t: Table) {
    forall p :: p in t ==>
                  && t[p].count >= 1
                  && t[p].stability <= 0.5
                  && 0.0 <= t[p].temperature <= 1.0
                  && t[p].mobility == 0
  }

  lemma ScaleBelow(x: real, y: real)
    requires 0.0 <= x <= 1.0 && y <= 1.0
    ensures x * 0.5 * y <= 0.5
    ensures x > 0.0 ==> (x * 0.5 * y < 0.0 <==> y < 0.0)
  {
    if y >= 0.0 {
      assert x * y <= 1.0 * y;
    } else {
      assert x * y <= 0.0;
    }
  }

  lemma StabilityBounds(count: nat, seconds: int, exp: real -> real)
    requires ExpLike(exp) && count >= 1
    ensures Stability(count, seconds, exp) <= 0.5
    ensures Stability(count, seconds, exp) < 0.0 <==> seconds < 0
  {
    var frequency := Min(1.0, count as real / 100.0);
    assert 0.0 < frequency <= 1.0;
    var x := -(seconds as real) / 3600.0;
    var y := 1.0 - exp(x);
    if seconds < 0 {
      assert x > 0.0;
      assert y < 0.0;
    } else {
      assert x <= 0.0;
      assert 0.0 <= y <= 1.0;
    }
    ScaleBelow(frequency, y);
    assert Stability(count, seconds, exp) == frequency * 0.5 * y;
  }

  /** Used more, or idle longer, a record is scored no less stable; uses beyond a hundred no longer matter. */
  lemma StabilityGrows(count: nat, count': nat, seconds: nat, seconds': nat, exp: real -> real)
    requires ExpLike(exp) && forall x: real, y: real :: x <= y ==> exp(x) <= exp(y)
    requires count <= count' && seconds <= seconds'
    ensures Stability(count, seconds, exp) <= Stability(count', seconds', exp)
    ensures count >= 100 ==> Stability(count, seconds, exp) == Stability(count', seconds, exp)
  {
    var f, f' := Min(1.0, count as real / 100.0), Min(1.0, count' as real / 100.0);
    var x, x' := -(seconds as real) / 3600.0, -(seconds' as real) / 3600.0;
    var y, y' := 1.0 - exp(x), 1.0 - exp(x');
    assert 0.0 <= y <= y' by {
      assert x' <= x <= 0.0;
      assert exp(x') <= exp(x);
    }
    ProductMonotone(f, f', y, y');
    assert Stability(count, seconds, exp) == f * 0.5 * y == 0.5 * (f * y);
    assert Stability(count', seconds', exp) == f' * 0.5 * y' == 0.5 * (f' * y');
  }

  lemma ProductMonotone(a: real, a': real, b: real, b': real)
    requires 0.0 <= a <= a' && 0.0 <= b <= b'
    ensures a * b <= a' * b'
  {
    assert a * b <= a' * b;
    assert a' * b <= a' * b';
  }

  lemma CooledTemperatureBounds(temperature: real, millis: int, exp: real -> real)
    requires ExpLike(exp) && temperature >= 0.0
    ensures 0.0 <= CooledTemperature(temperature, millis, exp) <= temperature
  {
    if millis > 0 {
      var f := exp(-0.001 * millis as real);
      assert 0.0 <= f <= 1.0;
      assert temperature * f <= temperature * 1.0;
    }
  }

  lemma CooledOk(r: AccessRecord, now: int, exp: real -> real)
    requires ExpLike(exp) && r.count >= 1 && !Dropped(r, now)
    requires 0.0 <= r.temperature
    ensures Cooled(r, now, exp).count >= 1
    ensures Cooled(r, now, exp).stability <= 0.5
    ensures Cooled(r, now, exp).stability < 0.0 <==> Seconds(now - r.lastAccess) < 0
    ensures 0.0 <= Cooled(r, now, exp).temperature <= r.temperature
  {
    StabilityBounds(Cooled(r, now, exp).count, Seconds(now - r.lastAccess), exp);
    CooledTemperatureBounds(r.temperature, Millis(now - r.lastAccess), exp);
  }

  /** A pass gives a negative stability exactly to records accessed a second or more after its clock reading. */
  lemma NegativeStabilityIff(r: AccessRecord, now: int, exp: real -> real)
    requires ExpLike(exp) && r.count >= 1 && r.temperature >= 0.0 && !Dropped(r, now)
    ensures Cooled(r, now, exp).stability < 0.0 <==> now <= r.lastAccess - 1_000_000_000
  {
    CooledOk(r, now, exp);
  }

  lemma {:induction false} RunKeepsTableOk(t: Table, evs: seq<Event>, exp: real -> real)
    requires ExpLike(exp) && TableOk(t)
    ensures TableOk(Run(t, evs, exp))
  {
    if evs == [] {
    } else {
      var before := Run(t, evs[..|evs| - 1], exp);
      RunKeepsTableOk(t, evs[..|evs| - 1], exp);
      var ev := evs[|evs| - 1];
      if ev.Pass? {
        forall p | p in before && !Dropped(before[p], ev.now)
          ensures Cooled(before[p], ev.now, exp).count >= 1
          ensures Cooled(before[p], ev.now, exp).stability <= 0.5
          ensures 0.0 <= Cooled(before[p], ev.now, exp).temperature <= 1.0
        {
          CooledOk(before[p], ev.now, exp);
        }
      }
    }
  }

  // ----------------------------------------------------------- record lifetime

  function LastAccess(evs: seq<Event>, p: Ptr): int {
    if evs == [] then 0
    else
      var ev := evs[|evs| - 1];
      if ev.Access? && ev.ptr == p then ev.now else LastAccess(evs[..|evs| - 1], p)
  }

  /**
    Accesses minus passes six seconds or more after the latest one, since the balance was last zero:
    a ledger that knows no table.
   */
  function Balance(evs: seq<Event>, p: Ptr): nat {
    if evs == [] then 0
    else
      var b := Balance(evs[..|evs| - 1], p);
      match evs[|evs| - 1]
      case Access(q, _, _) => if q == p then b + 1 else b
      case Pass(now) => if b > 0 && now - LastAccess(evs[..|evs| - 1], p) >= 6_000_000_000 then b - 1 else b
  }

  /** A pointer has a record exactly while its balance is positive, and the balance is the record's count. */
  lemma {:induction false} CountIsBalance(evs: seq<Event>, p: Ptr, exp: real -> real)
    ensures var t := Run(map[], evs, exp);
            && (p in t <==> Balance(evs, p) > 0)
            && (p in t ==> t[p].count == Balance(evs, p) && t[p].lastAccess == LastAccess(evs, p))
  {
    if evs == [] {
    } else {
      CountIsBalance(evs[..|evs| - 1], p, exp);
    }
  }

  /** What a pass leaves of the heat of a record idle for so many nanoseconds. */
  function Factor(idle: int, exp: real -> real): real {
    if idle >= 1_000_000 then exp(-0.001 * (idle / 1_000_000) as real) else 1.0
  }

  function Chilled(heat: real, idle: int, exp: real -> real): real {
    heat * Factor(idle, exp)
  }

  /** One at each access, times the factor of each pass since, and nothing once the record is gone. */
  function Heat(evs: seq<Event>, p: Ptr, exp: real -> real): real {
    if evs == [] then 0.0
    else
      var before := evs[..|evs| - 1];
      match evs[|evs| - 1]
      case Access(q, _, _) => if q == p then 1.0 else Heat(before, p, exp)
      case Pass(now) =>
        if Balance(evs, p) == 0 then 0.0 else Chilled(Heat(before, p, exp), now - LastAccess(before, p), exp)
  }

  function WholeSeconds(idle: int): int {
    if idle >= 0 then idle / 1_000_000_000 else -((-idle) / 1_000_000_000)
  }

  /** The score for so many uses and nanoseconds without one. */
  function Steady(uses: nat, idle: int, exp: real -> real): real {
    (if uses <= 100 then uses as real / 100.0 else 1.0) * 0.5 * (1.0 - exp(-(WholeSeconds(idle) as real) / 3600.0))
  }

  /** The score that the latest pass gave. */
  function Steadiness(evs: seq<Event>, p: Ptr, exp: real -> real): real {
    if evs == [] then 0.0
    else
      var before := evs[..|evs| - 1];
      match evs[|evs| - 1]
      case Access(_, _, _) => Steadiness(before, p, exp)
      case Pass(now) =>
        if Balance(evs, p) == 0 then 0.0 else Steady(Balance(evs, p), now - LastAccess(before, p), exp)
  }

  function LastNuma(evs: seq<Event>, p: Ptr): int {
    if evs == [] then -1
    else
      var ev := evs[|evs| - 1];
      if ev.Access? && ev.ptr == p then ev.numaId else LastNuma(evs[..|evs| - 1], p)
  }

  lemma StaleIffSixSeconds(now: int, lastAccess: int)
    ensures Stale(now, lastAccess) <==> now - lastAccess >= 6_000_000_000
    ensures Seconds(now - lastAccess) == WholeSeconds(now - lastAccess)
  {
  }

  lemma StabilityIsSteady(uses: nat, idle: int, exp: real -> real)
    ensures Stability(uses, Seconds(idle), exp) == Steady(uses, idle, exp)
  {
    assert Seconds(idle) == WholeSeconds(idle);
    assert Min(1.0, uses as real / 100.0) == if uses <= 100 then uses as real / 100.0 else 1.0;
  }

  lemma TemperatureIsFactor(temperature: real, idle: int, exp: real -> real)
    ensures CooledTemperature(temperature, Millis(idle), exp) == Chilled(temperature, idle, exp)
  {
    assert Millis(idle) > 0 <==> idle >= 1_000_000;
    if idle >= 1_000_000 {
      assert Millis(idle) == idle / 1_000_000;
    }
  }

  /** What a pass that keeps the record makes of its fields. */
  function Later(r: AccessRecord, now: int, exp: real -> real): AccessRecord
    requires now - r.lastAccess >= 6_000_000_000 ==> r.count > 1
  {
    var idle := now - r.lastAccess;
    var uses := if idle >= 6_000_000_000 then r.count - 1 else r.count;
    AccessRecord(uses, r.lastAccess, r.mobility, Steady(uses, idle, exp), r.numaId, Chilled(r.temperature, idle, exp))
  }

  /** One pass over one record: what is dropped, and every field of what is not. */
  lemma PassOverRecord(r: AccessRecord, now: int, exp: real -> real)
    ensures Dropped(r, now) <==> now - r.lastAccess >= 6_000_000_000 && r.count <= 1
    ensures !Dropped(r, now) ==> Cooled(r, now, exp) == Later(r, now, exp)
  {
    StaleIffSixSeconds(now, r.lastAccess);
    if !Dropped(r, now) {
      StabilityIsSteady(Cooled(r, now, exp).count, now - r.lastAccess, exp);
      TemperatureIsFactor(r.temperature, now - r.lastAccess, exp);
    }
  }

  /** The record that the ledgers describe. */
  function LedgerRecord(evs: seq<Event>, p: Ptr, exp: real -> real): AccessRecord {
    AccessRecord(Balance(evs, p), LastAccess(evs, p), 0, Steadiness(evs, p, exp), LastNuma(evs, p), Heat(evs, p, exp))
  }

  lemma AccessKeepsLedger(evs: seq<Event>, p: Ptr, exp: real -> real)
    requires evs != [] && evs[|evs| - 1].Access?
    requires var t := Run(map[], evs[..|evs| - 1], exp);
             if p in t then t[p] == LedgerRecord(evs[..|evs| - 1], p, exp)
             else Balance(evs[..|evs| - 1], p) == 0 && Heat(evs[..|evs| - 1], p, exp) == Steadiness(evs[..|evs| - 1], p, exp) == 0.0
    ensures var t := Run(map[], evs, exp);
            if p in t then t[p] == LedgerRecord(evs, p, exp)
            else Balance(evs, p) == 0 && Heat(evs, p, exp) == Steadiness(evs, p, exp) == 0.0
  {
  }

  lemma RunAfterPass(evs: seq<Event>, p: Ptr, exp: real -> real)
    requires evs != [] && evs[|evs| - 1].Pass? && p in Run(map[], evs[..|evs| - 1], exp)
    ensures var r, now := Run(map[], evs[..|evs| - 1], exp)[p], evs[|evs| - 1].now;
            && (p !in Run(map[], evs, exp) <==> now - r.lastAccess >= 6_000_000_000 && r.count <= 1)
            && (p in Run(map[], evs, exp) ==> Run(map[], evs, exp)[p] == Later(r, now, exp))
  {
    PassOverRecord(Run(map[], evs[..|evs| - 1], exp)[p], evs[|evs| - 1].now, exp);
  }

  lemma LedgerAfterPass(evs: seq<Event>, p: Ptr, exp: real -> real)
    requires evs != [] && evs[|evs| - 1].Pass? && Balance(evs[..|evs| - 1], p) > 0
    ensures var r, now := LedgerRecord(evs[..|evs| - 1], p, exp), evs[|evs| - 1].now;
            && (Balance(evs, p) == 0 <==> now - r.lastAccess >= 6_000_000_000 && r.count <= 1)
            && (Balance(evs, p) > 0 ==> LedgerRecord(evs, p, exp) == Later(r, now, exp))
  {
  }

  lemma PassKeepsLedger(evs: seq<Event>, p: Ptr, exp: real -> real)
    requires evs != [] && evs[|evs| - 1].Pass?
    requires var t := Run(map[], evs[..|evs| - 1], exp);
             if p in t then Balance(evs[..|evs| - 1], p) > 0 && t[p] == LedgerRecord(evs[..|evs| - 1], p, exp)
             else Balance(evs[..|evs| - 1], p) == 0
    ensures var t := Run(map[], evs, exp);
            if p in t then t[p] == LedgerRecord(evs, p, exp)
            else Balance(evs, p) == 0 && Heat(evs, p, exp) == Steadiness(evs, p, exp) == 0.0
  {
    if p in Run(map[], evs[..|evs| - 1], exp) {
      RunAfterPass(evs, p, exp);
      LedgerAfterPass(evs, p, exp);
    }
  }

  /** Every field of every record of a run, from the events alone. */
  lemma {:induction false} RecordIsLedger(evs: seq<Event>, p: Ptr, exp: real -> real)
    ensures var t := Run(map[], evs, exp);
            if p in t then t[p] == LedgerRecord(evs, p, exp)
            else Balance(evs, p) == 0 && Heat(evs, p, exp) == Steadiness(evs, p, exp) == 0.0
  {
    if evs == [] {
    } else {
      RecordIsLedger(evs[..|evs| - 1], p, exp);
      CountIsBalance(evs[..|evs| - 1], p, exp);
      if evs[|evs| - 1].Access? {
        AccessKeepsLedger(evs, p, exp);
      } else {
        PassKeepsLedger(evs, p, exp);
      }
    }
  }

  /** What the getters answer after any run. */
  lemma GettersAnswer(evs: seq<Event>, p: Ptr, exp: real -> real)
    ensures var t := Run(map[], evs, exp);
            && Temperature(t, p) == Heat(evs, p, exp)
            && (IsHot(t, p) <==> Heat(evs, p, exp) > 0.8)
            && StabilityOf(t, p) == Steadiness(evs, p, exp)
            && Mobility(t, p) == 0
            && NumaId(t, p) == (if Balance(evs, p) > 0 then LastNuma(evs, p) else -1)
  {
    RecordIsLedger(evs, p, exp);
    CountIsBalance(evs, p, exp);
  }

  // ------------------------------------------------------- the sign of stability

  ghost predicate NonNegative(t: Table) {
    forall p :: p in t ==> t[p].stability >= 0.0
  }

  /** A pass keeps every score at zero or above exactly if it read the clock less than a second before each access. */
  lemma PassNonNegativeIff(t: Table, now: int, exp: real -> real)
    requires ExpLike(exp) && TableOk(t)
    ensures NonNegative(Passed(t, now, exp)) <==> forall p :: p in t ==> now > t[p].lastAccess - 1_000_000_000
  {
    var u := Passed(t, now, exp);
    forall p | p in t
      ensures p !in u ==> now > t[p].lastAccess
      ensures p in u ==> (u[p].stability < 0.0 <==> now <= t[p].lastAccess - 1_000_000_000)
    {
      if p in u {
        NegativeStabilityIff(t[p], now, exp);
      }
    }
    assert forall p :: p in u ==> p in t;
  }

  /** No pass read the clock a second or more before the latest access of a pointer with uses left. */
  ghost predicate ClocksInOrder(evs: seq<Event>) {
    forall i :: 0 <= i < |evs| && evs[i].Pass? ==> ClockFits(evs[..i], evs[i].now)
  }

  ghost predicate ClockFits(evs: seq<Event>, now: int) {
    forall p :: Balance(evs, p) > 0 ==> now > LastAccess(evs, p) - 1_000_000_000
  }

  ghost predicate NeverNegative(evs: seq<Event>, exp: real -> real) {
    forall i :: 0 <= i <= |evs| ==> NonNegativeAfter(evs[..i], exp)
  }

  ghost predicate NonNegativeAfter(evs: seq<Event>, exp: real -> real) {
    NonNegative(Run(map[], evs, exp))
  }

  lemma LastStepNonNegativeIff(evs: seq<Event>, exp: real -> real)
    requires ExpLike(exp) && evs != []
    requires NonNegative(Run(map[], evs[..|evs| - 1], exp))
    ensures var last := evs[|evs| - 1];
            NonNegative(Run(map[], evs, exp)) <==> (last.Pass? ==> ClockFits(evs[..|evs| - 1], last.now))
  {
    var init, last := evs[..|evs| - 1], evs[|evs| - 1];
    var t := Run(map[], init, exp);
    RunKeepsTableOk(map[], init, exp);
    if last.Pass? {
      PassNonNegativeIff(t, last.now, exp);
      forall p
        ensures p in t <==> Balance(init, p) > 0
        ensures p in t ==> t[p].lastAccess == LastAccess(init, p)
      {
        CountIsBalance(init, p, exp);
      }
    }
  }

  lemma NeverNegativeLast(evs: seq<Event>, exp: real -> real)
    requires evs != []
    ensures NeverNegative(evs, exp) <==> NeverNegative(evs[..|evs| - 1], exp) && NonNegativeAfter(evs, exp)
  {
    var n, init := |evs| - 1, evs[..|evs| - 1];
    assert evs[..n + 1] == evs;
    if NeverNegative(evs, exp) {
      forall i | 0 <= i <= n
        ensures NonNegativeAfter(init[..i], exp)
      {
        assert init[..i] == evs[..i];
      }
    } else if NonNegativeAfter(evs, exp) {
      var i :| 0 <= i <= n && !NonNegativeAfter(evs[..i], exp);
      assert init[..i] == evs[..i];
    }
  }

  lemma ClocksInOrderLast(evs: seq<Event>)
    requires evs != []
    ensures var init, last := evs[..|evs| - 1], evs[|evs| - 1];
            ClocksInOrder(evs) <==> ClocksInOrder(init) && (last.Pass? ==> ClockFits(init, last.now))
  {
    var n, init := |evs| - 1, evs[..|evs| - 1];
    assert forall i :: 0 <= i < n ==> init[..i] == evs[..i] && init[i] == evs[i];
  }

  /** A run shows no negative score exactly if its clock readings are in order, which the events alone decide. */
  lemma {:induction false} NeverNegativeIff(evs: seq<Event>, exp: real -> real)
    requires ExpLike(exp)
    ensures NeverNegative(evs, exp) <==> ClocksInOrder(evs)
  {
    if evs == [] {
      assert Run(map[], evs[..0], exp) == map[];
    } else {
      var init := evs[..|evs| - 1];
      NeverNegativeIff(init, exp);
      NeverNegativeLast(evs, exp);
      ClocksInOrderLast(evs);
      if NeverNegative(init, exp) {
        assert init[..|init|] == init;
        LastStepNonNegativeIff(evs, exp);
      }
    }
  }

  /** One access and one pass whose clock was read a second earlier. */
  lemma LatePassGoesNegative(exp: real -> real)
    requires ExpLike(exp)
    ensures var t := Run(map[], [Access(1, 2_000_000_000, 0), Pass(1_000_000_000)], exp);
            1 in t && t[1].stability < 0.0
  {
    var evs := [Access(1, 2_000_000_000, 0), Pass(1_000_000_000)];
    var first := [Access(1, 2_000_000_000, 0)];
    assert evs[..1] == first && first[..0] == [];
    var t := Run(map[], first, exp);
    assert t == Accessed(map[], 1, 2_000_000_000, 0);
    NegativeStabilityIff(t[1], 1_000_000_000, exp);
  }

  ghost predicate Untouched(evs: seq<Event>, p: Ptr) {
    forall i :: 0 <= i < |evs| && evs[i].Access? ==> evs[i].ptr != p
  }

  function StalePasses(evs: seq<Event>, lastAccess: int): nat {
    if evs == [] then 0
    else
      var ev := evs[|evs| - 1];
      StalePasses(evs[..|evs| - 1], lastAccess) + if ev.Pass? && Stale(ev.now, lastAccess) then 1 else 0
  }

  /** A record with count c that nobody touches is erased at exactly its c-th stale pass. */
  lemma {:induction false} ErasedAtCthStalePass(t: Table, evs: seq<Event>, p: Ptr, exp: real -> real)
    requires p in t && t[p].count >= 1 && Untouched(evs, p)
    ensures var u := Run(t, evs, exp);
            var k := StalePasses(evs, t[p].lastAccess);
            && (p in u <==> k < t[p].count)
            && (p in u ==> u[p].count == t[p].count - k && u[p].lastAccess == t[p].lastAccess)
  {
    if evs == [] {
    } else {
      ErasedAtCthStalePass(t, evs[..|evs| - 1], p, exp);
    }
  }

  lemma {:induction false} UntouchedStaysAbsent(t: Table, evs: seq<Event>, p: Ptr, exp: real -> real)
    requires p !in t && Untouched(evs, p)
    ensures p !in Run(t, evs, exp)
  {
    if evs == [] {
    } else {
      UntouchedStaysAbsent(t, evs[..|evs| - 1], p, exp);
    }
  }

  /** Every event is a pass that finds every record of `t` stale. */
  ghost predicate AllStale(t: Table, evs: seq<Event>) {
    forall i, p :: 0 <= i < |evs| && p in t ==> evs[i].Pass? && Stale(evs[i].now, t[p].lastAccess)
  }

  lemma {:induction false} AllPassesCount(t: Table, evs: seq<Event>, p: Ptr)
    requires p in t && AllStale(t, evs)
    ensures StalePasses(evs, t[p].lastAccess) == |evs|
  {
    if evs == [] {
    } else {
      var init := evs[..|evs| - 1];
      assert forall i :: 0 <= i < |init| ==> init[i] == evs[i];
      AllPassesCount(t, init, p);
      assert evs[|evs| - 1].Pass? && Stale(evs[|evs| - 1].now, t[p].lastAccess);
    }
  }

  /** Left alone, the table is empty after as many stale passes as its largest count, and not before. */
  lemma EmptiesAfterLargestCount(t: Table, evs: seq<Event>, exp: real -> real)
    requires forall p :: p in t ==> t[p].count >= 1
    requires AllStale(t, evs)
    requires forall i :: 0 <= i < |evs| ==> evs[i].Pass?
    ensures Run(t, evs, exp) == map[] <==> forall p :: p in t ==> t[p].count <= |evs|
  {
    var u := Run(t, evs, exp);
    forall p
      ensures p in u <==> p in t && t[p].count > |evs|
    {
      if p in t {
        AllPassesCount(t, evs, p);
        ErasedAtCthStalePass(t, evs, p, exp);
      } else {
        UntouchedStaysAbsent(t, evs, p, exp);
      }
    }
    assert u == map[] <==> forall p :: p !in u;
  }

  // -------------------------------------------------------------------- heat

  lemma AccessMakesHot(t: Table, p: Ptr, now: int, numaId: int)
    ensures IsHot(Accessed(t, p, now, numaId), p) && Temperature(Accessed(t, p, now, numaId), p) == 1.0
  {
  }

  /** Until its next access a pointer only cools, whatever passes and other accesses happen. */
  lemma {:induction false} UntouchedNeverWarms(t: Table, evs: seq<Event>, p: Ptr, exp: real -> real)
    requires ExpLike(exp) && TableOk(t) && Untouched(evs, p)
    ensures Temperature(Run(t, evs, exp), p) <= Temperature(t, p)
    ensures !IsHot(t, p) ==> !IsHot(Run(t, evs, exp), p)
  {
    if evs == [] {
    } else {
      var init := evs[..|evs| - 1];
      UntouchedNeverWarms(t, init, p, exp);
      RunKeepsTableOk(t, init, exp);
      var before := Run(t, init, exp);
      var ev := evs[|evs| - 1];
      if ev.Pass? && p in before && !Dropped(before[p], ev.now) {
        CooledOk(before[p], ev.now, exp);
      }
    }
  }

  /** A pass far enough after the access leaves nothing hot. */
  lemma ColdAfterPass(t: Table, p: Ptr, now: int, exp: real -> real)
    requires TableOk(t) && p in t && Factor(now - t[p].lastAccess, exp) <= 0.8
    ensures !IsHot(Passed(t, now, exp), p)
  {
    if !Dropped(t[p], now) {
      RecordGoesCold(t[p], now, exp);
    }
  }

  lemma FactorChills(temperature: real, idle: int, exp: real -> real)
    requires 0.0 <= temperature <= 1.0 && Factor(idle, exp) <= 0.8
    ensures CooledTemperature(temperature, Millis(idle), exp) <= 0.8
  {
    TemperatureIsFactor(temperature, idle, exp);
    ProductBelow(temperature, Factor(idle, exp));
  }

  lemma RecordGoesCold(r: AccessRecord, now: int, exp: real -> real)
    requires 0.0 <= r.temperature <= 1.0 && !Dropped(r, now) && Factor(now - r.lastAccess, exp) <= 0.8
    ensures Cooled(r, now, exp).temperature <= 0.8
  {
    FactorChills(r.temperature, now - r.lastAccess, exp);
  }

  lemma ProductBelow(x: real, f: real)
    requires 0.0 <= x <= 1.0 && f <= 0.8
    ensures x * f <= 0.8
  {
    if f >= 0.0 {
      assert x * f <= 1.0 * f;
    } else {
      assert x * f <= 0.0;
    }
  }

  lemma StepNeverWarms(t: Table, ev: Event, p: Ptr, exp: real -> real)
    requires ExpLike(exp) && TableOk(t) && (ev.Access? ==> ev.ptr != p) && !IsHot(t, p)
    ensures !IsHot(Step(t, ev, exp), p)
  {
    if ev.Pass? && p in t && !Dropped(t[p], ev.now) {
      CooledOk(t[p], ev.now, exp);
    }
  }

  lemma ColdAtFarPass(t: Table, evs: seq<Event>, p: Ptr, now: int, exp: real -> real)
    requires ExpLike(exp) && TableOk(t) && Untouched(evs, p)
    requires p in t && Factor(now - t[p].lastAccess, exp) <= 0.8
    ensures !IsHot(Passed(Run(t, evs, exp), now, exp), p)
  {
    RunKeepsTableOk(t, evs, exp);
    ErasedAtCthStalePass(t, evs, p, exp);
    if p in Run(t, evs, exp) {
      ColdAfterPass(Run(t, evs, exp), p, now, exp);
    }
  }

  /** An untouched pointer is cold from the first such pass on, whatever else happens. */
  lemma {:induction false} ColdFromFarPassOn(t: Table, evs: seq<Event>, p: Ptr, i: nat, exp: real -> real)
    requires ExpLike(exp) && TableOk(t) && Untouched(evs, p)
    requires i < |evs| && evs[i].Pass? && (p in t ==> Factor(evs[i].now - t[p].lastAccess, exp) <= 0.8)
    ensures !IsHot(Run(t, evs, exp), p)
  {
    if p !in t {
      UntouchedStaysAbsent(t, evs, p, exp);
    } else if i == |evs| - 1 {
      ColdAtFarPass(t, evs[..i], p, evs[i].now, exp);
    } else {
      var before, last := evs[..|evs| - 1], evs[|evs| - 1];
      ColdFromFarPassOn(t, before, p, i, exp);
      RunKeepsTableOk(t, before, exp);
      StepNeverWarms(Run(t, before, exp), last, p, exp);
    }
  }

  /** Hot now means accessed before: with no access the pointer is cold. */
  lemma HotOnlyAfterAccess(evs: seq<Event>, p: Ptr, exp: real -> real)
    requires ExpLike(exp) && IsHot(Run(map[], evs, exp), p)
    ensures !Untouched(evs, p)
  {
    if Untouched(evs, p) {
      UntouchedStaysAbsent(map[], evs, p, exp);
    }
  }
}

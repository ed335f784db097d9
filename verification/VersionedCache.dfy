/** `VersionedTableCache`: rows live under a table name that carries a generation, and a
    bump of the generation counter invalidates them all. */
module VersionedCache {
  import opened Outcomes
  import opened CacheSpace
  import opened TableRows
  import opened Text

  const VERSION_FIELD := "bumps"
  const FIRST_VERSION := 1
  const VERSION_TTL_FACTOR := 4
  const MIN_VERSION_TTL := 3600

  /** What a cache works with: its identity, its TTL, its row model, and whether the backend's upsert keeps
      fields of the old row that the new data does not name. */
  datatype Config = Config(id: CacheId, defaultTtl: int, accepts: RowData -> bool, merges: bool)

  function VersionTtl(defaultTtl: int): int
  {
    var scaled := defaultTtl * VERSION_TTL_FACTOR;
    if scaled > MIN_VERSION_TTL then scaled else MIN_VERSION_TTL
  }

  function ToVersion(raw: Option<Value>): nat
  {
    var counter :=
      if raw.None? then 0
      else match raw.value
        case Number(n) => n
        case Text(_, asInt) => if asInt.Some? then asInt.value else 0
        case Structured(_) => 0;
    FIRST_VERSION + if counter > 0 then counter else 0
  }

  function CounterKey(id: CacheId): Key
  {
    (VersionTable(id.space), id.table)
  }

  function CurrentVersion(st: Store, id: CacheId): nat
  {
    var row := LiveData(st, CounterKey(id));
    ToVersion(if row.Some? && VERSION_FIELD in row.value then Some(row.value[VERSION_FIELD]) else None)
  }

  function RowKey(id: CacheId, generation: nat, pkid: string): Key
  {
    (Physical(id, generation), pkid)
  }

  /** The second half of an operation: act under a generation read earlier. */
  function ActAt(cfg: Config, st: Store, generation: nat, op: RowOp): (Store, Reply)
  {
    var key := RowKey(cfg.id, generation, op.pkid);
    var (effect, reply) := Decide(cfg.accepts, cfg.defaultTtl, cfg.merges, op, LiveData(st, key));
    (Apply(st, key, effect), reply)
  }

  function RowStep(cfg: Config, st: Store, op: RowOp): (Store, Reply)
  {
    ActAt(cfg, st, CurrentVersion(st, cfg.id), op)
  }

  /** The bumped store and the new generation; `None` is the RuntimeError of a failed increment. */
  function BumpStep(cfg: Config, st: Store): (Store, Option<nat>)
  {
    var (after, bumps) := IncrementField(st, CounterKey(cfg.id), VERSION_FIELD, 1, VersionTtl(cfg.defaultTtl));
    (after, if bumps.Some? then Some(ToVersion(Some(Number(bumps.value)))) else None)
  }

  function Pass(st: Store, dt: real): Store
  {
    st.(now := st.now + dt)
  }

  // ---------------------------------------------------------------------------
  // The specification: one plain timed map per cache, which a bump empties.
  // ---------------------------------------------------------------------------

  datatype Plain = Plain(now: real, tables: map<CacheId, map<string, Stored>>, bumps: map<CacheId, nat>)

  function TableOf(sp: Plain, id: CacheId): map<string, Stored>
  {
    if id in sp.tables then sp.tables[id] else map[]
  }

  function BumpsOf(sp: Plain, id: CacheId): nat
  {
    if id in sp.bumps then sp.bumps[id] else 0
  }

  function PlainLive(sp: Plain, id: CacheId, pkid: string): Option<Stored>
  {
    var table := TableOf(sp, id);
    if pkid in table && sp.now < table[pkid].expiresAt then Some(table[pkid]) else None
  }

  function PlainApply(sp: Plain, id: CacheId, pkid: string, effect: Effect): Plain
  {
    var table := TableOf(sp, id);
    match effect
    case Keep => sp
    case Write(data, ttl) => sp.(tables := sp.tables[id := table[pkid := Stored(data, sp.now + ttl as real)]])
    case Remove => sp.(tables := sp.tables[id := table - {pkid}])
  }

  function PlainRowStep(cfg: Config, sp: Plain, op: RowOp): (Plain, Reply)
  {
    var live := PlainLive(sp, cfg.id, op.pkid);
    var current := if live.Some? then Some(live.value.data) else None;
    var (effect, reply) := Decide(cfg.accepts, cfg.defaultTtl, cfg.merges, op, current);
    (PlainApply(sp, cfg.id, op.pkid, effect), reply)
  }

  function PlainBump(id: CacheId, sp: Plain): Plain
  {
    sp.(tables := sp.tables[id := map[]], bumps := sp.bumps[id := BumpsOf(sp, id) + 1])
  }

  // ---------------------------------------------------------------------------
  // Runs over any number of caches sharing one backend.
  // ---------------------------------------------------------------------------

  datatype Call = Rows(cfg: Config, op: RowOp) | Bump(cfg: Config) | Wait(dt: real)

  datatype Answer = Answered(reply: Reply) | Generation(g: Option<nat>) | Silent

  function Step(st: Store, call: Call): (Store, Answer)
  {
    match call
    case Rows(cfg, op) => var (st', reply) := RowStep(cfg, st, op); (st', Answered(reply))
    case Bump(cfg) => var (st', g) := BumpStep(cfg, st); (st', Generation(g))
    case Wait(dt) => (Pass(st, dt), Silent)
  }

  function PlainStep(sp: Plain, call: Call): (Plain, Answer)
  {
    match call
    case Rows(cfg, op) => var (sp', reply) := PlainRowStep(cfg, sp, op); (sp', Answered(reply))
    case Bump(cfg) => (PlainBump(cfg.id, sp), Generation(Some(2 + BumpsOf(sp, cfg.id))))
    case Wait(dt) => (sp.(now := sp.now + dt), Silent)
  }

  function Answers(st: Store, calls: seq<Call>): seq<Answer>
    decreases |calls|
  {
    if calls == [] then [] else
      var (st', a) := Step(st, calls[0]);
      [a] + Answers(st', calls[1..])
  }

  function PlainAnswers(sp: Plain, calls: seq<Call>): seq<Answer>
    decreases |calls|
  {
    if calls == [] then [] else
      var (sp', a) := PlainStep(sp, calls[0]);
      [a] + PlainAnswers(sp', calls[1..])
  }

  ghost predicate Lapses(st: Store, dt: real, id: CacheId)
  {
    Live(st, CounterKey(id)).Some? && Live(Pass(st, dt), CounterKey(id)).None?
  }

  /** Every call names a valid cache, and no counter expires during any wait. */
  ghost predicate Calm(st: Store, calls: seq<Call>)
    decreases |calls|
  {
    calls == [] || (CalmCall(st, calls[0]) && Calm(Step(st, calls[0]).0, calls[1..]))
  }

  ghost predicate CalmCall(st: Store, call: Call)
  {
    match call
    case Rows(cfg, _) => IsCacheId(cfg.id)
    case Bump(cfg) => IsCacheId(cfg.id) && cfg.defaultTtl > 0
    case Wait(dt) => dt >= 0.0 && forall id :: IsCacheId(id) ==> !Lapses(st, dt, id)
  }

  /** The store shows exactly what the plain maps hold, and nothing lies ahead of any generation. */
  ghost predicate Agrees(st: Store, sp: Plain)
  {
    && st.now == sp.now
    && (forall id :: IsCacheId(id) ==> CounterAgrees(st, sp, id))
    && (forall id, pkid :: IsCacheId(id) ==> RowAgrees(st, sp, id, pkid))
    && (forall id, g, pkid :: IsCacheId(id) && g > CurrentVersion(st, id) ==> Live(st, RowKey(id, g, pkid)).None?)
  }

  ghost predicate RowAgrees(st: Store, sp: Plain, id: CacheId, pkid: string)
  {
    Live(st, RowKey(id, CurrentVersion(st, id), pkid)) == PlainLive(sp, id, pkid)
  }

  ghost predicate CounterAgrees(st: Store, sp: Plain, id: CacheId)
  {
    var row := LiveData(st, CounterKey(id));
    if BumpsOf(sp, id) == 0 then row.None?
    else row.Some? && VERSION_FIELD in row.value && row.value[VERSION_FIELD] == Number(BumpsOf(sp, id))
  }

  lemma KeysDiffer(a: CacheId, g: nat, p: string, b: CacheId, h: nat, q: string)
    requires IsCacheId(a) && IsCacheId(b)
    ensures RowKey(a, g, p) == RowKey(b, h, q) <==> a == b && g == h && p == q
    ensures RowKey(a, g, p) != CounterKey(b)
    ensures CounterKey(a) == CounterKey(b) <==> a == b
  {
    PhysicalInjective(a, g, b, h);
    CountersAreSeparate(a, g, b.space);
    CounterKeyInjective(a, b);
  }

  lemma WriteKeepsCounter(st: Store, sp: Plain, target: CacheId, row: string, effect: Effect, id: CacheId)
    requires IsCacheId(target) && IsCacheId(id) && CounterAgrees(st, sp, id)
    ensures var st' := Apply(st, RowKey(target, CurrentVersion(st, target), row), effect);
            CounterAgrees(st', PlainApply(sp, target, row, effect), id) &&
            CurrentVersion(st', id) == CurrentVersion(st, id)
  {
    hide RowKey, CounterKey;
    var v := CurrentVersion(st, target);
    KeysDiffer(target, v, row, id, 0, "");
    ApplyElsewhere(st, RowKey(target, v, row), effect, CounterKey(id));
  }

  lemma PlainApplyAt(sp: Plain, target: CacheId, row: string, effect: Effect, id: CacheId, pkid: string)
    ensures PlainLive(PlainApply(sp, target, row, effect), id, pkid)
         == if id == target && pkid == row then LiveAfter(PlainLive(sp, id, pkid), effect, sp.now)
            else PlainLive(sp, id, pkid)
  {
  }

  lemma WriteRowAgrees(st: Store, sp: Plain, target: CacheId, row: string, effect: Effect, id: CacheId, pkid: string)
    requires IsCacheId(target) && IsCacheId(id) && CounterAgrees(st, sp, id) && st.now == sp.now
    requires RowAgrees(st, sp, target, row) && RowAgrees(st, sp, id, pkid)
    ensures RowAgrees(Apply(st, RowKey(target, CurrentVersion(st, target), row), effect),
                      PlainApply(sp, target, row, effect), id, pkid)
  {
    var v := CurrentVersion(st, target);
    var key := RowKey(target, v, row);
    WriteKeepsCounter(st, sp, target, row, effect, id);
    KeysDiffer(target, v, row, id, CurrentVersion(st, id), pkid);
    PlainApplyAt(sp, target, row, effect, id, pkid);
    if id == target && pkid == row {
      ApplyHere(st, key, effect);
    } else {
      ApplyElsewhere(st, key, effect, RowKey(id, CurrentVersion(st, id), pkid));
    }
  }

  lemma WriteAgrees(st: Store, sp: Plain, target: CacheId, row: string, effect: Effect)
    requires Agrees(st, sp) && IsCacheId(target)
    ensures Agrees(Apply(st, RowKey(target, CurrentVersion(st, target), row), effect),
                   PlainApply(sp, target, row, effect))
  {
    var v := CurrentVersion(st, target);
    var key := RowKey(target, v, row);
    var (st', sp') := (Apply(st, key, effect), PlainApply(sp, target, row, effect));
    assert RowAgrees(st, sp, target, row);
    forall id | IsCacheId(id)
      ensures CounterAgrees(st', sp', id) && CurrentVersion(st', id) == CurrentVersion(st, id)
    {
      WriteKeepsCounter(st, sp, target, row, effect, id);
    }
    forall id, pkid | IsCacheId(id)
      ensures RowAgrees(st', sp', id, pkid)
    {
      WriteRowAgrees(st, sp, target, row, effect, id, pkid);
    }
    forall id, g, pkid | IsCacheId(id) && g > CurrentVersion(st', id)
      ensures Live(st', RowKey(id, g, pkid)).None?
    {
      assert Live(st, RowKey(id, g, pkid)).None?;
      KeysDiffer(target, v, row, id, g, pkid);
      ApplyElsewhere(st, key, effect, RowKey(id, g, pkid));
    }
  }

  lemma RowStepAgrees(st: Store, sp: Plain, cfg: Config, op: RowOp)
    requires Agrees(st, sp) && IsCacheId(cfg.id)
    ensures Agrees(RowStep(cfg, st, op).0, PlainRowStep(cfg, sp, op).0)
    ensures RowStep(cfg, st, op).1 == PlainRowStep(cfg, sp, op).1
  {
    assert RowAgrees(st, sp, cfg.id, op.pkid);
    var current := LiveData(st, RowKey(cfg.id, CurrentVersion(st, cfg.id), op.pkid));
    var decided := Decide(cfg.accepts, cfg.defaultTtl, cfg.merges, op, current);
    WriteAgrees(st, sp, cfg.id, op.pkid, decided.0);
  }

  /** A bump writes the cache's own counter row and nothing else. */
  lemma BumpWritesCounter(st: Store, sp: Plain, cfg: Config)
    requires CounterAgrees(st, sp, cfg.id) && cfg.defaultTtl > 0
    ensures var st' := BumpStep(cfg, st).0;
            st'.now == st.now && CounterAgrees(st', PlainBump(cfg.id, sp), cfg.id) &&
            forall key :: key != CounterKey(cfg.id) ==> Live(st', key) == Live(st, key)
    ensures BumpStep(cfg, st).1 == Some(2 + BumpsOf(sp, cfg.id))
  {
  }

  lemma BumpKeepsOthers(st: Store, sp: Plain, cfg: Config, id: CacheId, g: nat, pkid: string)
    requires IsCacheId(cfg.id) && IsCacheId(id) && cfg.defaultTtl > 0
    requires CounterAgrees(st, sp, cfg.id) && CounterAgrees(st, sp, id)
    ensures var (st', sp') := (BumpStep(cfg, st).0, PlainBump(cfg.id, sp));
            CounterAgrees(st', sp', id) &&
            CurrentVersion(st', id) == CurrentVersion(st, id) + (if id == cfg.id then 1 else 0) &&
            Live(st', RowKey(id, g, pkid)) == Live(st, RowKey(id, g, pkid))
  {
    hide BumpStep, Physical, CounterKey;
    BumpWritesCounter(st, sp, cfg);
    KeysDiffer(id, g, pkid, cfg.id, 0, "");
  }

  lemma BumpAgrees(st: Store, sp: Plain, cfg: Config)
    requires Agrees(st, sp) && IsCacheId(cfg.id) && cfg.defaultTtl > 0
    ensures Agrees(BumpStep(cfg, st).0, PlainBump(cfg.id, sp))
    ensures BumpStep(cfg, st).1 == Some(2 + BumpsOf(sp, cfg.id))
  {
    hide BumpStep, Physical, CounterKey, CurrentVersion, IsCacheId;
    var (st', sp') := (BumpStep(cfg, st).0, PlainBump(cfg.id, sp));
    assert CounterAgrees(st, sp, cfg.id);
    BumpWritesCounter(st, sp, cfg);
    forall id | IsCacheId(id)
      ensures CounterAgrees(st', sp', id)
    {
      BumpKeepsOthers(st, sp, cfg, id, 0, "");
    }
    forall id, pkid | IsCacheId(id)
      ensures RowAgrees(st', sp', id, pkid)
    {
      assert RowAgrees(st, sp, id, pkid);
      BumpKeepsOthers(st, sp, cfg, id, CurrentVersion(st', id), pkid);
    }
    forall id, g, pkid | IsCacheId(id) && g > CurrentVersion(st', id)
      ensures Live(st', RowKey(id, g, pkid)).None?
    {
      BumpKeepsOthers(st, sp, cfg, id, g, pkid);
    }
  }

  lemma WaitAgrees(st: Store, sp: Plain, dt: real)
    requires Agrees(st, sp) && dt >= 0.0
    requires forall id :: IsCacheId(id) ==> !Lapses(st, dt, id)
    ensures Agrees(Pass(st, dt), sp.(now := sp.now + dt))
  {
    hide Physical, VersionTable, IsCacheId;
    var (st', sp') := (Pass(st, dt), sp.(now := sp.now + dt));
    forall id | IsCacheId(id)
      ensures CounterAgrees(st', sp', id) && CurrentVersion(st', id) == CurrentVersion(st, id)
    {
      assert !Lapses(st, dt, id) && CounterAgrees(st, sp, id);
    }
    forall id, pkid | IsCacheId(id)
      ensures RowAgrees(st', sp', id, pkid)
    {
      assert RowAgrees(st, sp, id, pkid);
    }
    forall id, g, pkid | IsCacheId(id) && g > CurrentVersion(st', id)
      ensures Live(st', RowKey(id, g, pkid)).None?
    {
      assert Live(st, RowKey(id, g, pkid)).None?;
    }
  }

  lemma StepAgrees(st: Store, sp: Plain, call: Call)
    requires Agrees(st, sp) && CalmCall(st, call)
    ensures Agrees(Step(st, call).0, PlainStep(sp, call).0) && Step(st, call).1 == PlainStep(sp, call).1
  {
    hide RowStep, BumpStep, Agrees;
    match call {
      case Rows(cfg, op) => RowStepAgrees(st, sp, cfg, op);
      case Bump(cfg) => BumpAgrees(st, sp, cfg);
      case Wait(dt) => WaitAgrees(st, sp, dt);
    }
  }

  /** Any run over any caches of one backend, during which no counter expires, answers
      exactly as plain timed maps that bumps empty. */
  lemma {:induction false} RunRefinesPlainMaps(st: Store, sp: Plain, calls: seq<Call>)
    requires Agrees(st, sp) && Calm(st, calls)
    ensures Answers(st, calls) == PlainAnswers(sp, calls)
    decreases |calls|
  {
    if calls != [] {
      StepAgrees(st, sp, calls[0]);
      RunRefinesPlainMaps(Step(st, calls[0]).0, PlainStep(sp, calls[0]).0, calls[1..]);
    }
  }

  lemma EmptyStoreRefines(now: real, calls: seq<Call>)
    requires Calm(Store(now, map[]), calls)
    ensures Answers(Store(now, map[]), calls) == PlainAnswers(Plain(now, map[], map[]), calls)
  {
    hide Answers, PlainAnswers, Calm, IsCacheId, CounterKey, RowKey;
    assert Agrees(Store(now, map[]), Plain(now, map[], map[]));
    RunRefinesPlainMaps(Store(now, map[]), Plain(now, map[], map[]), calls);
  }

  /** A conditional replacement, on good input, answers REPLACED if and only if the row stored in the current
      generation is live and holds every expected field with its value; then the row's data is the new data,
      otherwise the store is as it was. */
  ghost predicate ReplacesExactlyOnMatch(cfg: Config, st: Store, op: RowOp, st': Store, reply: Reply)
  {
    op.ReplaceIf? && !IsBlank(op.pkid) && cfg.accepts(op.data) && op.expected != map[] &&
    (forall f :: f in op.expected ==> !op.expected[f].Structured?) ==>
      var key := (Physical(cfg.id, CurrentVersion(st, cfg.id)), op.pkid);
      var live := key in st.rows && st.now < st.rows[key].expiresAt;
      var holds := live && forall f :: f in op.expected ==>
                     f in st.rows[key].data && st.rows[key].data[f] == op.expected[f];
      && (reply == Moved(Replaced, None) <==> holds)
      && (holds ==> key in st'.rows && st'.rows[key].data == op.data)
      && (!holds ==> st' == st)
  }

  lemma ReplaceIsExact(cfg: Config, st: Store, op: RowOp)
    ensures ReplacesExactlyOnMatch(cfg, st, op, RowStep(cfg, st, op).0, RowStep(cfg, st, op).1)
  {
    hide IsBlank, Physical, CurrentVersion;
  }

  lemma StepIsExecute(cfg: Config, st: Store, op: RowOp)
    ensures var key := (Physical(cfg.id, CurrentVersion(st, cfg.id)), op.pkid);
            var decided := Decide(cfg.accepts, cfg.defaultTtl, cfg.merges, op, LiveData(st, key));
            RowStep(cfg, st, op) == (Apply(st, key, decided.0), decided.1)
  {
    hide Decide, Physical, CurrentVersion;
  }

  // ---------------------------------------------------------------------------
  // The classes of the source, proved against the steps above.
  // ---------------------------------------------------------------------------

  /** A backend shared by every cache of one inbox. */
  class TableCache {
    const merges: bool
    var store: Store

    constructor (now: real, merges: bool)
      ensures store == Store(now, map[]) && this.merges == merges
    {
      this.merges := merges;
      store := Store(now, map[]);
    }

    method GetField(table: string, pkid: string, field: string) returns (r: Option<Value>)
      ensures var row := LiveData(store, (table, pkid));
              r == if row.Some? && field in row.value then Some(row.value[field]) else None
    {
      var row := LiveData(store, (table, pkid));
      r := if row.Some? && field in row.value then Some(row.value[field]) else None;
    }

    method Increment(table: string, pkid: string, field: string, increment: int, ttl: int) returns (r: Option<int>)
      modifies this
      ensures (store, r) == IncrementField(old(store), (table, pkid), field, increment, ttl)
    {
      var result := IncrementField(store, (table, pkid), field, increment, ttl);
      store, r := result.0, result.1;
    }

    method Execute(table: string, op: RowOp, accepts: RowData -> bool, defaultTtl: int) returns (reply: Reply)
      modifies this
      ensures var decided := Decide(accepts, defaultTtl, merges, op, LiveData(old(store), (table, op.pkid)));
              reply == decided.1 && store == Apply(old(store), (table, op.pkid), decided.0)
    {
      var decided := Decide(accepts, defaultTtl, merges, op, LiveData(store, (table, op.pkid)));
      store, reply := Apply(store, (table, op.pkid), decided.0), decided.1;
    }
  }

  datatype ConfigError = TtlNotPositive | BadName(why: NameError)

  class VersionedTableCache {
    const cache: TableCache
    const cfg: Config

    /** The arguments the source accepts: a positive TTL first, then a table name and a space that
        survive stripping; its errors are results here. */
    static method Create(cache: TableCache, tableName: string, cacheSpace: Option<string>, defaultTtl: int,
            accepts: RowData -> bool)
      returns (r: Result<VersionedTableCache, ConfigError>)
      ensures defaultTtl <= 0 ==> r == Err(TtlNotPositive)
      ensures defaultTtl > 0 ==>
        match BuildTableName(tableName, cacheSpace)
        case Err(e) => r == Err(BadName(e))
        case Ok(base) =>
          r.Ok? && fresh(r.value) && r.value.cache == cache && IsCacheId(r.value.cfg.id) &&
          Base(r.value.cfg.id) == base && r.value.cfg.defaultTtl == defaultTtl && r.value.cfg.accepts == accepts &&
          r.value.cfg.merges == cache.merges
    {
      if defaultTtl <= 0 {
        return Err(TtlNotPositive);
      }
      var name := BuildTableName(tableName, cacheSpace);
      if name.Err? {
        return Err(BadName(name.error));
      }
      var id := CacheId(if cacheSpace.Some? then Some(Strip(cacheSpace.value)) else None, Strip(tableName));
      BuiltNameIsBase(tableName, cacheSpace);
      var made := new VersionedTableCache(cache, id, defaultTtl, accepts);
      return Ok(made);
    }

    constructor (cache: TableCache, id: CacheId, defaultTtl: int, accepts: RowData -> bool)
      requires IsCacheId(id) && defaultTtl > 0
      ensures this.cache == cache && cfg == Config(id, defaultTtl, accepts, cache.merges)
    {
      this.cache := cache;
      this.cfg := Config(id, defaultTtl, accepts, cache.merges);
    }

    method ReadVersion() returns (v: nat)
      ensures v == CurrentVersion(cache.store, cfg.id)
    {
      var raw := cache.GetField(VersionTable(cfg.id.space), cfg.id.table, VERSION_FIELD);
      v := ToVersion(raw);
    }

    method BumpVersion() returns (v: Option<nat>)
      modifies cache
      ensures (cache.store, v) == BumpStep(cfg, old(cache.store))
    {
      var bumps := cache.Increment(VersionTable(cfg.id.space), cfg.id.table, VERSION_FIELD, 1,
                                   VersionTtl(cfg.defaultTtl));
      v := if bumps.Some? then Some(ToVersion(Some(Number(bumps.value)))) else None;
    }

    /** Every row operation reads the generation first and then acts on that table. */
    method Perform(op: RowOp) returns (reply: Reply)
      requires cfg.merges == cache.merges
      modifies cache
      ensures (cache.store, reply) == RowStep(cfg, old(cache.store), op)
      ensures ReplacesExactlyOnMatch(cfg, old(cache.store), op, cache.store, reply)
    {
      hide *;
      ReplaceIsExact(cfg, cache.store, op);
      StepIsExecute(cfg, cache.store, op);
      var version := ReadVersion();
      reply := cache.Execute(Physical(cfg.id, version), op, cfg.accepts, cfg.defaultTtl);
    }
  }
}

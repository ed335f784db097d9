/** What the row operations of a versioned cache mean for the row a client sees, stated over the store alone:
    for each operation its answer, the row it leaves and what it does not touch, and laws over two calls. */
module RowLaws {
  import opened Outcomes
  import opened CacheSpace
  import opened TableRows
  import opened Text
  import opened VersionedCache

  /** The row an operation of this cache sees now: the live one in the table of the current generation. */
  function Seen(cfg: Config, st: Store, pkid: string): Option<Stored>
  {
    Live(st, RowKey(cfg.id, CurrentVersion(st, cfg.id), pkid))
  }

  /** The row is stored in the current generation's table and its time has not come. */
  lemma SeenIff(cfg: Config, st: Store, pkid: string, row: Stored)
    ensures Seen(cfg, st, pkid) == Some(row)
       <==> var key := (Physical(cfg.id, CurrentVersion(st, cfg.id)), pkid);
            key in st.rows && st.rows[key] == row && st.now < row.expiresAt
  {
  }

  /** A row written now, gone at once if its TTL is not positive. */
  ghost predicate Wrote(cfg: Config, st: Store, pkid: string, data: RowData, ttl: Option<int>, now: real)
  {
    var seconds := if ttl.Some? then ttl.value else cfg.defaultTtl;
    Seen(cfg, st, pkid) == if seconds > 0 then Some(Stored(data, now + seconds as real)) else None
  }

  /** Every field asked for is there with the value asked for. */
  ghost predicate HasFields(row: Option<Stored>, expected: map<string, Value>)
  {
    row.Some? && forall f :: f in expected ==> f in row.value.data && row.value.data[f] == expected[f]
  }

  ghost predicate Scalar(expected: map<string, Value>)
  {
    forall f :: f in expected ==> !expected[f].Structured?
  }

  /** No operation touches another row, a counter or the clock. */
  lemma OthersAreUntouched(cfg: Config, st: Store, op: RowOp, id: CacheId, g: nat, pkid: string)
    requires IsCacheId(cfg.id) && IsCacheId(id)
    ensures var st' := RowStep(cfg, st, op).0;
            && st'.now == st.now && CurrentVersion(st', id) == CurrentVersion(st, id)
            && Live(st', CounterKey(id)) == Live(st, CounterKey(id))
            && (id != cfg.id || g != CurrentVersion(st, cfg.id) || pkid != op.pkid ==>
                  Live(st', RowKey(id, g, pkid)) == Live(st, RowKey(id, g, pkid)))
  {
    var v := CurrentVersion(st, cfg.id);
    var own := RowKey(cfg.id, v, op.pkid);
    var effect := Decide(cfg.accepts, cfg.defaultTtl, cfg.merges, op, LiveData(st, own)).0;
    StepApplies(cfg, st, op);
    hide *;
    var st' := Apply(st, own, effect);
    KeysDiffer(cfg.id, v, op.pkid, id, g, pkid);
    ApplyElsewhere(st, own, effect, CounterKey(id));
    SameVersion(st, st', id);
    if own != RowKey(id, g, pkid) {
      ApplyElsewhere(st, own, effect, RowKey(id, g, pkid));
    }
  }

  lemma StepApplies(cfg: Config, st: Store, op: RowOp)
    ensures var own := RowKey(cfg.id, CurrentVersion(st, cfg.id), op.pkid);
            var (effect, reply) := Decide(cfg.accepts, cfg.defaultTtl, cfg.merges, op, LiveData(st, own));
            RowStep(cfg, st, op) == (Apply(st, own, effect), reply) && Apply(st, own, effect).now == st.now
  {
    hide Decide, LiveData, CurrentVersion, RowKey;
  }

  lemma SameVersion(st: Store, st': Store, id: CacheId)
    requires Live(st', CounterKey(id)) == Live(st, CounterKey(id))
    ensures CurrentVersion(st', id) == CurrentVersion(st, id)
  {
    hide CounterKey, Live;
  }

  /** What the operation leaves in its own row, from its decision. */
  lemma OwnRow(cfg: Config, st: Store, op: RowOp)
    requires IsCacheId(cfg.id)
    ensures var row := Seen(cfg, st, op.pkid);
            var current := if row.Some? then Some(row.value.data) else None;
            var (effect, reply) := Decide(cfg.accepts, cfg.defaultTtl, cfg.merges, op, current);
            var (st', answer) := RowStep(cfg, st, op);
            && answer == reply && Seen(cfg, st', op.pkid) == LiveAfter(row, effect, st.now)
            && (effect.Keep? ==> st' == st)
  {
    var own := RowKey(cfg.id, CurrentVersion(st, cfg.id), op.pkid);
    hide Decide, RowKey, CounterKey, CurrentVersion, RowStep, Live, Apply, LiveAfter, IsCacheId;
    StepApplies(cfg, st, op);
    OthersAreUntouched(cfg, st, op, cfg.id, 0, "");
    ApplyHere(st, own, Decide(cfg.accepts, cfg.defaultTtl, cfg.merges, op, LiveData(st, own)).0);
    assert Decide(cfg.accepts, cfg.defaultTtl, cfg.merges, op, LiveData(st, own)).0.Keep? ==>
             RowStep(cfg, st, op).0 == st by { KeepsStore(st, own); }
  }

  lemma KeepsStore(st: Store, key: Key)
    ensures Apply(st, key, Keep) == st
  {
  }

  // ---------------------------------------------------------------------------
  // One call.
  // ---------------------------------------------------------------------------

  lemma GetLaw(cfg: Config, st: Store, pkid: string)
    requires IsCacheId(cfg.id) && !IsBlank(pkid)
    ensures var row := Seen(cfg, st, pkid);
            RowStep(cfg, st, Get(pkid))
            == (st, if row.None? then Row(None)
                    else if cfg.accepts(row.value.data) then Row(Some(row.value.data)) else Raised(InvalidRow))
  {
    hide Seen, RowStep, IsBlank;
    OwnRow(cfg, st, Get(pkid));
  }

  lemma ExistsLaw(cfg: Config, st: Store, pkid: string)
    requires IsCacheId(cfg.id) && !IsBlank(pkid)
    ensures RowStep(cfg, st, Exists(pkid)) == (st, Flag(Seen(cfg, st, pkid).Some?))
  {
    hide Seen, RowStep, IsBlank;
    OwnRow(cfg, st, Exists(pkid));
  }

  /** The fields of the new data are stored; others of the old row stay exactly on a merging backend. */
  lemma UpsertLaw(cfg: Config, st: Store, pkid: string, data: RowData, ttl: Option<int>) returns (stored: RowData)
    requires IsCacheId(cfg.id) && !IsBlank(pkid) && cfg.accepts(data)
    ensures var (st', reply) := RowStep(cfg, st, Upsert(pkid, data, ttl));
            reply == Flag(true) && Wrote(cfg, st', pkid, stored, ttl, st.now)
    ensures var row := Seen(cfg, st, pkid);
            && (forall f :: f in data ==> f in stored && stored[f] == data[f])
            && forall f :: f !in data ==>
                 if cfg.merges && row.Some? && f in row.value.data
                 then f in stored && stored[f] == row.value.data[f] else f !in stored
    ensures !cfg.merges || Seen(cfg, st, pkid).None? ==> stored == data
  {
    hide Seen, RowStep, IsBlank;
    OwnRow(cfg, st, Upsert(pkid, data, ttl));
    var row := Seen(cfg, st, pkid);
    stored := if cfg.merges && row.Some? then row.value.data + data else data;
  }

  /** CREATED exactly where no row is seen; otherwise the row there is answered and stays. */
  lemma CreateIfAbsentLaw(cfg: Config, st: Store, pkid: string, data: RowData, ttl: Option<int>)
    requires IsCacheId(cfg.id) && !IsBlank(pkid) && cfg.accepts(data)
    ensures var row := Seen(cfg, st, pkid);
            var (st', reply) := RowStep(cfg, st, CreateIfAbsent(pkid, data, ttl));
            && (reply == Moved(Created, None) <==> row.None?)
            && (row.None? ==> Wrote(cfg, st', pkid, data, ttl, st.now))
            && (row.Some? ==> st' == st && reply == if cfg.accepts(row.value.data)
                                                    then Moved(AlreadyExists, Some(row.value.data))
                                                    else Raised(InvalidRow))
  {
    hide Seen, RowStep, IsBlank;
    OwnRow(cfg, st, CreateIfAbsent(pkid, data, ttl));
  }

  /** REPLACED exactly where a row is seen that holds every expected field with its value; then the new data
      is stored, otherwise nothing changes and the answer says why. */
  lemma ReplaceIfLaw(cfg: Config, st: Store, pkid: string, data: RowData, expected: map<string, Value>,
          ttl: Option<int>)
    requires IsCacheId(cfg.id) && !IsBlank(pkid) && cfg.accepts(data) && expected != map[] && Scalar(expected)
    ensures var row := Seen(cfg, st, pkid);
            var (st', reply) := RowStep(cfg, st, ReplaceIf(pkid, data, expected, ttl));
            && (reply == Moved(Replaced, None) <==> HasFields(row, expected))
            && (HasFields(row, expected) ==> Wrote(cfg, st', pkid, data, ttl, st.now))
            && (!HasFields(row, expected) ==> st' == st)
            && (row.None? ==> reply == Moved(Missing, None))
            && (row.Some? && !HasFields(row, expected) ==>
                  reply == if cfg.accepts(row.value.data) then Moved(ConditionNotMet, Some(row.value.data))
                           else Raised(InvalidRow))
  {
    hide Seen, RowStep, IsBlank;
    OwnRow(cfg, st, ReplaceIf(pkid, data, expected, ttl));
  }

  /** One row is counted exactly where one is seen, and none is left. */
  lemma DeleteLaw(cfg: Config, st: Store, pkid: string)
    requires IsCacheId(cfg.id) && !IsBlank(pkid)
    ensures var (st', reply) := RowStep(cfg, st, Delete(pkid));
            reply == Count(if Seen(cfg, st, pkid).Some? then 1 else 0) && Seen(cfg, st', pkid) == None
  {
    hide Seen, RowStep, IsBlank;
    OwnRow(cfg, st, Delete(pkid));
  }

  /** Only the one field changes; on an absent row a row of that field alone is made. */
  lemma UpdateFieldLaw(cfg: Config, st: Store, pkid: string, field: string, value: Value, ttl: Option<int>)
      returns (stored: RowData)
    requires IsCacheId(cfg.id) && !IsBlank(pkid) && !IsBlank(field)
    ensures var (st', reply) := RowStep(cfg, st, UpdateField(pkid, field, value, ttl));
            reply == Flag(true) && Wrote(cfg, st', pkid, stored, ttl, st.now)
    ensures var row := Seen(cfg, st, pkid);
            && field in stored && stored[field] == value
            && forall f :: f != field ==>
                 if row.Some? && f in row.value.data then f in stored && stored[f] == row.value.data[f]
                 else f !in stored
  {
    hide Seen, RowStep, IsBlank;
    OwnRow(cfg, st, UpdateField(pkid, field, value, ttl));
    var row := Seen(cfg, st, pkid);
    stored := (if row.Some? then row.value.data else map[])[field := value];
  }

  /** The data stays and the time is set anew, exactly where a row is seen. */
  lemma RenewTtlLaw(cfg: Config, st: Store, pkid: string, ttl: Option<int>)
    requires IsCacheId(cfg.id) && !IsBlank(pkid)
    ensures var row := Seen(cfg, st, pkid);
            var (st', reply) := RowStep(cfg, st, RenewTtl(pkid, ttl));
            && reply == Flag(row.Some?)
            && (row.Some? ==> Wrote(cfg, st', pkid, row.value.data, ttl, st.now))
            && (row.None? ==> st' == st)
  {
    hide Seen, RowStep, IsBlank;
    OwnRow(cfg, st, RenewTtl(pkid, ttl));
  }

  /** Bad input raises without effect: a blank identifier first, then data the model refuses, then an empty
      condition, then one on a container. */
  lemma RejectedInputs(cfg: Config, st: Store, op: RowOp)
    requires IsCacheId(cfg.id)
    ensures IsBlank(op.pkid) ==> RowStep(cfg, st, op) == (st, Raised(BlankIdentifier))
    ensures !IsBlank(op.pkid) && op.UpdateField? && IsBlank(op.field) ==>
              RowStep(cfg, st, op) == (st, Raised(BlankIdentifier))
    ensures !IsBlank(op.pkid) && (op.Upsert? || op.CreateIfAbsent? || op.ReplaceIf?) && !cfg.accepts(op.data) ==>
              RowStep(cfg, st, op) == (st, Raised(InvalidRow))
    ensures !IsBlank(op.pkid) && op.ReplaceIf? && cfg.accepts(op.data) && op.expected == map[] ==>
              RowStep(cfg, st, op) == (st, Raised(EmptyCondition))
    ensures !IsBlank(op.pkid) && op.ReplaceIf? && cfg.accepts(op.data) && !Scalar(op.expected) ==>
              RowStep(cfg, st, op) == (st, Raised(NonScalarCondition))
  {
    hide Seen, RowStep, IsBlank;
    OwnRow(cfg, st, op);
  }

  // ---------------------------------------------------------------------------
  // Counters.
  // ---------------------------------------------------------------------------

  /** What a field reads as for counting: a number, or text that spells one. */
  ghost predicate ReadsAs(value: Value, n: int)
  {
    match value
    case Number(m) => m == n
    case Text(_, spelled) => spelled == Some(n)
    case Structured(_) => false
  }

  /** The field of a live row. */
  ghost predicate HoldsLive(st: Store, key: Key, field: string, value: Value)
  {
    key in st.rows && st.now < st.rows[key].expiresAt && field in st.rows[key].data &&
    st.rows[key].data[field] == value
  }

  /** The generation is one more than the bumps counted, and the first one while nothing positive is. */
  lemma GenerationIs(st: Store, id: CacheId)
    ensures var key := (VersionTable(id.space), id.table);
            var v := CurrentVersion(st, id);
            v >= 1 &&
            forall value, n :: HoldsLive(st, key, "bumps", value) && ReadsAs(value, n) && n > 0 ==> v == n + 1
    ensures var key := (VersionTable(id.space), id.table);
            CurrentVersion(st, id) > 1 ==>
              exists value :: HoldsLive(st, key, "bumps", value) && ReadsAs(value, CurrentVersion(st, id) - 1)
  {
    var key := (VersionTable(id.space), id.table);
    hide VersionTable;
    if CurrentVersion(st, id) > 1 {
      assert HoldsLive(st, key, "bumps", st.rows[key].data["bumps"]);
    }
  }

  /** An increment adds to the number a live row's field reads as, nothing where there is none, and writes the
      row back with that field changed alone and its time set anew; a field that is no number stops it. */
  lemma IncrementLaw(st: Store, key: Key, field: string, increment: int, ttl: int)
    ensures var (st', got) := IncrementField(st, key, field, increment, ttl);
            && (forall value :: HoldsLive(st, key, field, value) ==>
                  if got.Some? then ReadsAs(value, got.value - increment) else forall n :: !ReadsAs(value, n))
            && ((forall value :: !HoldsLive(st, key, field, value)) ==> got == Some(increment))
            && (got.None? ==> st' == st)
            && (got.Some? && ttl > 0 ==>
                  && key in st'.rows && st'.rows[key].expiresAt == st.now + ttl as real
                  && HoldsLive(st', key, field, Number(got.value))
                  && forall f, value :: f != field ==>
                       (HoldsLive(st', key, f, value) <==> HoldsLive(st, key, f, value)))
  {
    if LiveData(st, key).Some? && field in LiveData(st, key).value {
      assert HoldsLive(st, key, field, st.rows[key].data[field]);
    }
  }

  // ---------------------------------------------------------------------------
  // Two calls.
  // ---------------------------------------------------------------------------

  /** While the counter does not expire, time changes what is seen only by expiring it. */
  lemma SeenLater(cfg: Config, st: Store, dt: real, pkid: string)
    requires dt >= 0.0 && !Lapses(st, dt, cfg.id)
    ensures var row := Seen(cfg, st, pkid);
            Seen(cfg, Pass(st, dt), pkid)
            == if row.Some? && st.now + dt < row.value.expiresAt then row else None
  {
    hide RowKey, CounterKey;
    assert Live(Pass(st, dt), CounterKey(cfg.id)) == Live(st, CounterKey(cfg.id));
  }

  /** What was stored is got back until its TTL has passed, and not after. */
  lemma GetAfterUpsert(cfg: Config, st: Store, pkid: string, data: RowData, ttl: Option<int>, dt: real)
    requires IsCacheId(cfg.id) && !IsBlank(pkid) && cfg.accepts(data) && dt >= 0.0
    requires !cfg.merges || Seen(cfg, st, pkid).None?
    requires !Lapses(RowStep(cfg, st, Upsert(pkid, data, ttl)).0, dt, cfg.id)
    ensures var st' := Pass(RowStep(cfg, st, Upsert(pkid, data, ttl)).0, dt);
            var seconds := if ttl.Some? then ttl.value else cfg.defaultTtl;
            RowStep(cfg, st', Get(pkid)).1 == Row(if dt < seconds as real then Some(data) else None)
  {
    var stored := UpsertLaw(cfg, st, pkid, data, ttl);
    var st1 := RowStep(cfg, st, Upsert(pkid, data, ttl)).0;
    OthersAreUntouched(cfg, st, Upsert(pkid, data, ttl), cfg.id, 0, "");
    hide Seen, RowStep, IsBlank, Lapses, CurrentVersion, Live, IsCacheId;
    SeenLater(cfg, st1, dt, pkid);
    GetLaw(cfg, Pass(st1, dt), pkid);
  }

  lemma NothingAfterDelete(cfg: Config, st: Store, pkid: string)
    requires IsCacheId(cfg.id) && !IsBlank(pkid)
    ensures var st' := RowStep(cfg, st, Delete(pkid)).0;
            RowStep(cfg, st', Exists(pkid)).1 == Flag(false) && RowStep(cfg, st', Get(pkid)).1 == Row(None) &&
            RowStep(cfg, st', Delete(pkid)).1 == Count(0)
  {
    hide Seen, RowStep, IsBlank, IsCacheId;
    var st' := RowStep(cfg, st, Delete(pkid)).0;
    DeleteLaw(cfg, st, pkid);
    ExistsLaw(cfg, st', pkid);
    GetLaw(cfg, st', pkid);
    DeleteLaw(cfg, st', pkid);
  }

  /** Of two claims with no time between, the second is told of the first's row. */
  lemma SecondClaimIsRefused(cfg: Config, st: Store, pkid: string, first: RowData, second: RowData, ttl: Option<int>,
          ttl': Option<int>)
    requires IsCacheId(cfg.id) && !IsBlank(pkid) && cfg.accepts(first) && cfg.accepts(second)
    requires Seen(cfg, st, pkid).None? && (if ttl.Some? then ttl.value else cfg.defaultTtl) > 0
    ensures var st' := RowStep(cfg, st, CreateIfAbsent(pkid, first, ttl)).0;
            RowStep(cfg, st', CreateIfAbsent(pkid, second, ttl')) == (st', Moved(AlreadyExists, Some(first)))
  {
    hide Seen, RowStep, IsBlank, IsCacheId;
    CreateIfAbsentLaw(cfg, st, pkid, first, ttl);
    CreateIfAbsentLaw(cfg, RowStep(cfg, st, CreateIfAbsent(pkid, first, ttl)).0, pkid, second, ttl');
  }

  /** A replacement right after a claim succeeds exactly on what the claim stored. */
  lemma ReplaceAfterCreateIff(cfg: Config, st: Store, pkid: string, first: RowData, second: RowData,
          expected: map<string, Value>, ttl: Option<int>, ttl': Option<int>)
    requires IsCacheId(cfg.id) && !IsBlank(pkid) && cfg.accepts(first) && cfg.accepts(second)
    requires Seen(cfg, st, pkid).None? && (if ttl.Some? then ttl.value else cfg.defaultTtl) > 0
    requires expected != map[] && Scalar(expected)
    ensures var st' := RowStep(cfg, st, CreateIfAbsent(pkid, first, ttl)).0;
            RowStep(cfg, st', ReplaceIf(pkid, second, expected, ttl')).1 == Moved(Replaced, None)
            <==> forall f :: f in expected ==> f in first && first[f] == expected[f]
  {
    hide Seen, RowStep, IsBlank, IsCacheId, Scalar;
    CreateIfAbsentLaw(cfg, st, pkid, first, ttl);
    ReplaceIfLaw(cfg, RowStep(cfg, st, CreateIfAbsent(pkid, first, ttl)).0, pkid, second, expected, ttl');
  }

  /** After a bump nothing stored before is seen, while the counter lives and nothing lies ahead of it. */
  lemma NothingSeenAfterBump(cfg: Config, st: Store, sp: Plain, pkid: string)
    requires Agrees(st, sp) && IsCacheId(cfg.id) && cfg.defaultTtl > 0
    ensures Seen(cfg, BumpStep(cfg, st).0, pkid) == None
  {
    hide BumpStep, RowKey, CounterKey, IsCacheId;
    BumpAgrees(st, sp, cfg);
    assert RowAgrees(BumpStep(cfg, st).0, PlainBump(cfg.id, sp), cfg.id, pkid);
  }
}

/** Two-step clients of one versioned cache: each reads the generation, and acts under it a
    moment later, while bumps, other clients and expiries (of rows and of the counter itself)
    interleave at will. */
module GenerationProtocol {
  import opened Outcomes
  import opened CacheSpace
  import opened TableRows
  import opened Text
  import opened VersionedCache

  /** A cache and the longest time a client may take between its generation read and its action. */
  datatype Params = Params(cfg: Config, delay: real)

  function Ttl(p: Params): real { p.cfg.defaultTtl as real }

  function CounterTtl(p: Params): real { VersionTtl(p.cfg.defaultTtl) as real }

  predicate ValidParams(p: Params)
  {
    IsCacheId(p.cfg.id) && p.cfg.defaultTtl > 0 && p.delay >= 0.0
  }

  datatype Counter = Absent | Counter(bumps: nat, expiresAt: real)

  /** One generation read: what it returned, when, and at which step of the run. */
  datatype Ticket = Ticket(gen: nat, readAt: real, index: nat)

  /** A row, the ticket it was last written under, and the earliest ticket whose data it carries. */
  datatype Cell = Cell(stored: Stored, ticket: Ticket, oldest: nat)

  /** `peak`, `lastGen` and `lapsedAt` record, for the counters that have expired and been replaced, the
      highest generation reached, the last one's final generation and the moment of its expiry. */
  datatype State = State(
    now: real, counter: Counter, cells: map<(nat, string), Cell>, pending: map<nat, Ticket>,
    steps: nat, peak: nat, lastGen: nat, lapsedAt: Option<real>)

  datatype Step = Tick(dt: real) | Read(client: nat) | Act(client: nat, op: RowOp) | Invalidate

  const START := State(0.0, Absent, map[], map[], 0, 1, 1, None)

  predicate CounterLive(s: State)
  {
    s.counter.Counter? && s.now < s.counter.expiresAt
  }

  predicate CounterLapsed(s: State)
  {
    s.counter.Counter? && s.counter.expiresAt <= s.now
  }

  function Generation(s: State): nat
  {
    if CounterLive(s) then FIRST_VERSION + s.counter.bumps else FIRST_VERSION
  }

  function Max(a: nat, b: nat): nat { if a > b then a else b }

  function Min(a: nat, b: nat): nat { if a < b then a else b }

  /** The highest generation reached before the last counter expiry. */
  function Peak(s: State): nat
  {
    if CounterLapsed(s) then Max(s.peak, FIRST_VERSION + s.counter.bumps) else s.peak
  }

  /** The final generation of the counter that expired last. */
  function LastGeneration(s: State): nat
  {
    if CounterLapsed(s) then FIRST_VERSION + s.counter.bumps else s.lastGen
  }

  /** When a counter last expired. */
  function LapsedAt(s: State): Option<real>
  {
    if CounterLapsed(s) then Some(s.counter.expiresAt) else s.lapsedAt
  }

  function LiveCell(s: State, key: (nat, string)): Option<Cell>
  {
    if key in s.cells && s.now < s.cells[key].stored.expiresAt then Some(s.cells[key]) else None
  }

  /** Whether a client that holds this ticket may still act. */
  predicate Timely(p: Params, s: State, t: Ticket)
  {
    s.now - t.readAt <= p.delay
  }

  predicate Enabled(p: Params, s: State, step: Step)
  {
    match step
    case Tick(dt) => dt >= 0.0
    case Read(_) => true
    case Act(c, op) => c in s.pending && Timely(p, s, s.pending[c]) && TtlWithinDefault(p, op)
    case Invalidate => true
  }

  predicate TtlWithinDefault(p: Params, op: RowOp)
  {
    match op
    case Get(_) => true
    case Exists(_) => true
    case Delete(_) => true
    case _ => Resolve(op.ttl, p.cfg.defaultTtl) <= p.cfg.defaultTtl
  }

  function ActEffect(p: Params, s: State, gen: nat, op: RowOp): (Effect, Reply)
  {
    var live := LiveCell(s, (gen, op.pkid));
    Decide(p.cfg.accepts, p.cfg.defaultTtl, p.cfg.merges, op, if live.Some? then Some(live.value.stored.data) else None)
  }

  /** A field update, a TTL renewal or a merging upsert carries the old row's data along; every other write
      replaces it. */
  function OldestAfter(p: Params, s: State, t: Ticket, op: RowOp): nat
  {
    var live := LiveCell(s, (t.gen, op.pkid));
    if (op.UpdateField? || op.RenewTtl? || (op.Upsert? && p.cfg.merges)) && live.Some?
    then Min(live.value.oldest, t.index)
    else t.index
  }

  function CellsAfter(p: Params, s: State, t: Ticket, op: RowOp): map<(nat, string), Cell>
  {
    match ActEffect(p, s, t.gen, op).0
    case Keep => s.cells
    case Write(data, ttl) =>
      s.cells[(t.gen, op.pkid) := Cell(Stored(data, s.now + ttl as real), t, OldestAfter(p, s, t, op))]
    case Remove => s.cells - {(t.gen, op.pkid)}
  }

  function Next(p: Params, s: State, step: Step): State
    requires Enabled(p, s, step)
  {
    match step
    case Tick(dt) => s.(now := s.now + dt, steps := s.steps + 1)
    case Read(c) => s.(pending := s.pending[c := Ticket(Generation(s), s.now, s.steps)], steps := s.steps + 1)
    case Act(c, op) =>
      s.(cells := CellsAfter(p, s, s.pending[c], op), pending := s.pending - {c}, steps := s.steps + 1)
    case Invalidate =>
      s.(counter := Counter(Generation(s), s.now + CounterTtl(p)), steps := s.steps + 1,
         peak := Peak(s), lastGen := LastGeneration(s), lapsedAt := LapsedAt(s))
  }

  ghost predicate Runs(p: Params, s: State, steps: seq<Step>)
    decreases |steps|
  {
    steps == [] || (Enabled(p, s, steps[0]) && Runs(p, Next(p, s, steps[0]), steps[1..]))
  }

  ghost function After(p: Params, s: State, steps: seq<Step>): State
    requires Runs(p, s, steps)
    decreases |steps|
  {
    if steps == [] then s else After(p, Next(p, s, steps[0]), steps[1..])
  }

  /** The state arises in some run from an empty backend. */
  ghost predicate Reachable(p: Params, s: State)
  {
    exists steps :: Runs(p, START, steps) && After(p, START, steps) == s
  }

  lemma {:induction false} OneMore(p: Params, s: State, steps: seq<Step>, step: Step)
    requires Runs(p, s, steps) && Enabled(p, After(p, s, steps), step)
    ensures Runs(p, s, steps + [step]) && After(p, s, steps + [step]) == Next(p, After(p, s, steps), step)
    decreases |steps|
  {
    hide Next, Enabled;
    if steps == [] {
      assert [step][1..] == [];
    } else {
      OneMore(p, Next(p, s, steps[0]), steps[1..], step);
      assert (steps + [step])[1..] == steps[1..] + [step];
    }
  }

  lemma ReachNext(p: Params, s: State, step: Step)
    requires Reachable(p, s) && Enabled(p, s, step)
    ensures Reachable(p, Next(p, s, step))
  {
    var steps :| Runs(p, START, steps) && After(p, START, steps) == s;
    OneMore(p, START, steps, step);
  }

  lemma ReachStart(p: Params)
    ensures Reachable(p, START)
  {
    assert Runs(p, START, []) && After(p, START, []) == START;
  }

  // ---------------------------------------------------------------------------
  // Where every ticket comes from.
  // ---------------------------------------------------------------------------

  /** A generation-1 ticket was read before the counter's last bump or after its expiry; any other
      was read under the present counter or, no higher than `peak`, before the last expiry. Below the
      final generation of its counter it was read before that counter's last bump. */
  ghost predicate Origin(p: Params, s: State, t: Ticket)
  {
    && 1 <= t.gen && t.readAt <= s.now && t.index < s.steps
    && (t.gen == 1 && s.counter.Counter? ==>
          t.readAt <= s.counter.expiresAt - CounterTtl(p) || s.counter.expiresAt <= t.readAt)
    && (t.gen > 1 ==>
          || (s.counter.Counter? && t.gen <= 1 + s.counter.bumps && t.readAt < s.counter.expiresAt &&
              (t.gen == 1 + s.counter.bumps || t.readAt <= s.counter.expiresAt - CounterTtl(p)))
          || (s.lapsedAt.Some? && t.gen <= s.peak && t.readAt < s.lapsedAt.value &&
              (t.gen == s.lastGen || t.readAt <= s.lapsedAt.value - CounterTtl(p))))
  }

  ghost predicate CellOrigin(p: Params, s: State, gen: nat, c: Cell)
  {
    && Origin(p, s, c.ticket) && c.ticket.gen == gen
    && c.stored.expiresAt <= c.ticket.readAt + p.delay + Ttl(p)
  }

  ghost predicate Inv(p: Params, s: State)
  {
    && (s.counter.Counter? ==> s.counter.bumps >= 1 && s.counter.expiresAt - CounterTtl(p) <= s.now)
    && (s.lapsedAt.Some? ==> s.counter.Counter? && s.lapsedAt.value <= s.counter.expiresAt - CounterTtl(p))
    && (forall c :: c in s.pending ==> Origin(p, s, s.pending[c]))
    && (forall k :: k in s.cells ==> CellOrigin(p, s, k.0, s.cells[k]))
  }

  lemma OriginKept(p: Params, s: State, step: Step, t: Ticket)
    requires ValidParams(p) && Inv(p, s) && Enabled(p, s, step) && Origin(p, s, t)
    ensures Origin(p, Next(p, s, step), t)
  {
  }

  lemma InvKept(p: Params, s: State, step: Step)
    requires ValidParams(p) && Inv(p, s) && Enabled(p, s, step)
    ensures Inv(p, Next(p, s, step))
  {
    var s' := Next(p, s, step);
    forall c | c in s'.pending
      ensures Origin(p, s', s'.pending[c])
    {
      if c in s.pending {
        OriginKept(p, s, step, s.pending[c]);
      }
    }
    forall k | k in s'.cells
      ensures CellOrigin(p, s', k.0, s'.cells[k])
    {
      if k in s.cells && s'.cells[k] == s.cells[k] {
        OriginKept(p, s, step, s.cells[k].ticket);
      } else {
        OriginKept(p, s, step, s.pending[step.client]);
        WrittenCell(p, s, step.client, step.op, k);
      }
    }
  }

  lemma WritesWithinDefault(p: Params, s: State, gen: nat, op: RowOp)
    requires TtlWithinDefault(p, op)
    ensures var effect := ActEffect(p, s, gen, op).0; effect.Write? ==> effect.ttl <= p.cfg.defaultTtl
  {
    var live := LiveCell(s, (gen, op.pkid));
    WritesResolvedTtl(p.cfg.accepts, p.cfg.defaultTtl, p.cfg.merges, op,
                      if live.Some? then Some(live.value.stored.data) else None);
  }

  /** A cell that an action puts in place lies in the actor's generation and expires in time. */
  lemma WrittenCell(p: Params, s: State, c: nat, op: RowOp, k: (nat, string))
    requires Enabled(p, s, Act(c, op))
    requires var cells := CellsAfter(p, s, s.pending[c], op); k in cells && !(k in s.cells && cells[k] == s.cells[k])
    ensures var cell := CellsAfter(p, s, s.pending[c], op)[k];
            k == (s.pending[c].gen, op.pkid) && cell.ticket == s.pending[c] &&
            cell.oldest == OldestAfter(p, s, s.pending[c], op) &&
            cell.stored.expiresAt <= s.now + Ttl(p)
  {
    WritesWithinDefault(p, s, s.pending[c].gen, op);
    var effect := ActEffect(p, s, s.pending[c].gen, op).0;
    assert effect.Write?;
  }

  lemma {:induction false} RunKeepsInv(p: Params, s: State, steps: seq<Step>)
    requires ValidParams(p) && Inv(p, s) && Runs(p, s, steps)
    ensures Inv(p, After(p, s, steps))
    decreases |steps|
  {
    if steps != [] {
      InvKept(p, s, steps[0]);
      RunKeepsInv(p, Next(p, s, steps[0]), steps[1..]);
    }
  }

  lemma ReachableInv(p: Params, s: State)
    requires ValidParams(p) && Reachable(p, s)
    ensures Inv(p, s)
  {
    var steps :| Runs(p, START, steps) && After(p, START, steps) == s;
    RunKeepsInv(p, START, steps);
  }

  /** A client that read its generation earlier waits, stores a row, and time passes again. */
  lemma LateWrite(p: Params, s: State, gap: real, rest: real, pkid: string, row: RowData) returns (s': State)
    requires ValidParams(p) && Reachable(p, s) && !IsBlank(pkid) && p.cfg.accepts(row)
    requires gap >= 0.0 && rest >= 0.0 && 0 in s.pending && s.now + gap - s.pending[0].readAt <= p.delay
    ensures Reachable(p, s') && s'.now == s.now + gap + rest && s'.counter == s.counter
    ensures (s.pending[0].gen, pkid) in s'.cells
    ensures var cell := s'.cells[(s.pending[0].gen, pkid)];
            cell.stored.expiresAt == s.now + gap + Ttl(p) && cell.ticket == s.pending[0]
  {
    var s1 := Next(p, s, Tick(gap));
    ReachNext(p, s, Tick(gap));
    var s2 := StoreRow(p, s1, pkid, row);
    ReachNext(p, s2, Tick(rest));
    s' := Next(p, s2, Tick(rest));
  }

  lemma StoreRow(p: Params, s: State, pkid: string, row: RowData) returns (s': State)
    requires ValidParams(p) && Reachable(p, s) && !IsBlank(pkid) && p.cfg.accepts(row)
    requires 0 in s.pending && Timely(p, s, s.pending[0])
    ensures Reachable(p, s') && s'.now == s.now && s'.counter == s.counter
    ensures (s.pending[0].gen, pkid) in s'.cells
    ensures var cell := s'.cells[(s.pending[0].gen, pkid)];
            cell.stored.expiresAt == s.now + Ttl(p) && cell.ticket == s.pending[0]
  {
    var write := Upsert(pkid, row, None);
    assert ActEffect(p, s, s.pending[0].gen, write).0.Write?;
    s' := PutRow(p, s, write);
  }

  lemma PutRow(p: Params, s: State, op: RowOp) returns (s': State)
    requires Reachable(p, s) && Enabled(p, s, Act(0, op)) && ActEffect(p, s, s.pending[0].gen, op).0.Write?
    ensures Reachable(p, s') && s'.now == s.now && s'.counter == s.counter
    ensures (s.pending[0].gen, op.pkid) in s'.cells
    ensures var cell := s'.cells[(s.pending[0].gen, op.pkid)];
            cell.stored.expiresAt == s.now + ActEffect(p, s, s.pending[0].gen, op).0.ttl as real &&
            cell.ticket == s.pending[0]
  {
    ReachNext(p, s, Act(0, op));
    s' := Next(p, s, Act(0, op));
  }

  // ---------------------------------------------------------------------------
  // Falling back to generation 1 when the counter expires.
  // ---------------------------------------------------------------------------

  /** A generation-1 row written under a read older than the counter's expiry is live after it. */
  ghost predicate StaleFallback(s: State)
  {
    CounterLapsed(s) &&
    exists pkid :: LiveCell(s, (1, pkid)).Some? && LiveCell(s, (1, pkid)).value.ticket.readAt < s.counter.expiresAt
  }

  lemma FallbackIsCold(p: Params, s: State)
    requires ValidParams(p) && Inv(p, s) && p.delay + Ttl(p) <= CounterTtl(p)
    ensures !StaleFallback(s)
  {
    forall pkid | CounterLapsed(s) && LiveCell(s, (1, pkid)).Some?
      ensures LiveCell(s, (1, pkid)).value.ticket.readAt >= s.counter.expiresAt
    {
      assert CellOrigin(p, s, 1, s.cells[(1, pkid)]);
    }
  }

  /** The documented margin: a counter TTL of four row TTLs covers any delay up to three. */
  lemma MarginCoversThreeTtls(p: Params)
    requires ValidParams(p) && p.delay <= 3.0 * Ttl(p)
    ensures p.delay + Ttl(p) <= CounterTtl(p)
  {
    assert VersionTtl(p.cfg.defaultTtl) >= 4 * p.cfg.defaultTtl;
  }

  lemma ReadThenBump(p: Params) returns (s: State)
    requires ValidParams(p)
    ensures Reachable(p, s) && 0 in s.pending && s.pending[0] == Ticket(1, 0.0, 0)
    ensures s.now == 0.0 && s.counter == Counter(1, CounterTtl(p))
  {
    var s1 := Next(p, START, Read(0));
    ReachStart(p);
    ReachNext(p, START, Read(0));
    ReachNext(p, s1, Invalidate);
    s := Next(p, s1, Invalidate);
  }

  lemma ShowStale(s: State, pkid: string)
    requires CounterLapsed(s) && (1, pkid) in s.cells
    requires var cell := s.cells[(1, pkid)]; s.now < cell.stored.expiresAt && cell.ticket.readAt < s.counter.expiresAt
    ensures StaleFallback(s)
  {
    assert LiveCell(s, (1, pkid)).Some?;
  }

  lemma FallbackWitness(p: Params, pkid: string, row: RowData) returns (s: State)
    requires ValidParams(p) && p.delay + Ttl(p) > CounterTtl(p) && !IsBlank(pkid) && p.cfg.accepts(row)
    ensures Reachable(p, s) && StaleFallback(s)
  {
    var vt := CounterTtl(p);
    assert vt >= 3600.0;
    var w := if p.delay < vt then p.delay else vt;
    var s2 := ReadThenBump(p);
    s := LateWrite(p, s2, w, vt - w, pkid, row);
    ShowStale(s, pkid);
  }

  /** Exactly when the counter TTL covers a row TTL plus the delay does no run resurrect a
      generation-1 row. */
  lemma FallbackExactlyCold(p: Params, pkid: string, row: RowData)
    requires ValidParams(p) && !IsBlank(pkid) && p.cfg.accepts(row)
    ensures (forall s :: Reachable(p, s) ==> !StaleFallback(s)) <==> p.delay + Ttl(p) <= CounterTtl(p)
  {
    if p.delay + Ttl(p) <= CounterTtl(p) {
      forall s | Reachable(p, s)
        ensures !StaleFallback(s)
      {
        ReachableInv(p, s);
        FallbackIsCold(p, s);
      }
    } else {
      var s := FallbackWitness(p, pkid, row);
    }
  }

  // ---------------------------------------------------------------------------
  // What a bump exposes.
  // ---------------------------------------------------------------------------

  /** No counter expired within the last row TTL plus delay, or the new generation is higher than
      any reached before the last expiry. */
  ghost predicate SafeToBump(p: Params, s: State)
  {
    LapsedAt(s).None? || LapsedAt(s).value + Ttl(p) + p.delay <= s.now || Generation(s) + 1 > Peak(s)
  }

  /** Nothing live, and nobody still able to write, at or above generation `g`. */
  ghost predicate NothingFrom(p: Params, s: State, g: nat)
  {
    && (forall k :: k in s.cells && k.0 >= g ==> LiveCell(s, k).None?)
    && (forall c :: c in s.pending && s.pending[c].gen >= g ==> !Timely(p, s, s.pending[c]))
  }

  lemma BumpExposesNothing(p: Params, s: State)
    requires ValidParams(p) && Inv(p, s) && SafeToBump(p, s)
    ensures NothingFrom(p, Next(p, s, Invalidate), Generation(Next(p, s, Invalidate)))
  {
    var s' := Next(p, s, Invalidate);
    assert VersionTtl(p.cfg.defaultTtl) > 0;
    var g := Generation(s');
    assert g == Generation(s) + 1;
    forall k | k in s'.cells && k.0 >= g
      ensures LiveCell(s', k).None?
    {
      assert CellOrigin(p, s, k.0, s.cells[k]);
    }
    forall c | c in s'.pending && s'.pending[c].gen >= g
      ensures !Timely(p, s', s'.pending[c])
    {
      assert Origin(p, s, s.pending[c]);
    }
  }

  /** The counter is live at the start and after every step. */
  ghost predicate CounterStays(p: Params, s: State, steps: seq<Step>)
    requires Runs(p, s, steps)
    decreases |steps|
  {
    CounterLive(s) && (steps != [] ==> CounterStays(p, Next(p, s, steps[0]), steps[1..]))
  }

  /** From step `n` on, generations at or above `g` hold only what was read and written since. */
  ghost predicate Since(p: Params, s: State, g: nat, n: nat)
  {
    && Generation(s) >= g && s.steps >= n
    && (forall k :: k in s.cells && k.0 >= g && LiveCell(s, k).Some? ==> s.cells[k].oldest >= n)
    && (forall c :: c in s.pending && s.pending[c].gen >= g && Timely(p, s, s.pending[c]) ==> s.pending[c].index >= n)
    && (forall c :: c in s.pending && s.pending[c].index >= n ==> s.pending[c].gen >= g)
  }

  lemma SinceKept(p: Params, s: State, step: Step, g: nat, n: nat)
    requires Enabled(p, s, step) && Since(p, s, g, n)
    requires CounterLive(s) && CounterLive(Next(p, s, step))
    ensures Since(p, Next(p, s, step), g, n)
  {
    hide CellsAfter, Decide;
    var s' := Next(p, s, step);
    forall k | k in s'.cells && k.0 >= g && LiveCell(s', k).Some?
      ensures s'.cells[k].oldest >= n
    {
      if k in s.cells && s'.cells[k] == s.cells[k] {
        assert LiveCell(s, k).Some?;
      } else {
        WrittenCell(p, s, step.client, step.op, k);
      }
    }
  }

  lemma {:induction false} SinceHolds(p: Params, s: State, steps: seq<Step>, g: nat, n: nat)
    requires Runs(p, s, steps) && CounterStays(p, s, steps) && Since(p, s, g, n)
    ensures Since(p, After(p, s, steps), g, n)
    decreases |steps|
  {
    if steps != [] {
      assert CounterStays(p, Next(p, s, steps[0]), steps[1..]);
      SinceKept(p, s, steps[0], g, n);
      SinceHolds(p, Next(p, s, steps[0]), steps[1..], g, n);
    }
  }

  /** After a safe bump, however operations interleave while the counter stays live, an operation
      whose generation read comes after the bump observes only data whose own generation reads
      came after it too. */
  lemma FreshReadsSeeFreshRows(p: Params, s: State, steps: seq<Step>, client: nat, pkid: string)
    requires ValidParams(p) && Inv(p, s) && SafeToBump(p, s)
    requires forall c :: c in s.pending ==> s.pending[c].index < s.steps
    requires var s' := Next(p, s, Invalidate); Runs(p, s', steps) && CounterStays(p, s', steps)
    requires var u := After(p, Next(p, s, Invalidate), steps); client in u.pending && u.pending[client].index > s.steps
    ensures var u := After(p, Next(p, s, Invalidate), steps);
            var seen := LiveCell(u, (u.pending[client].gen, pkid));
            seen.Some? ==> seen.value.oldest > s.steps
  {
    var s' := Next(p, s, Invalidate);
    BumpExposesNothing(p, s);
    SinceHolds(p, s', steps, Generation(s'), s'.steps);
  }

  /** A bump `age` after a counter's expiry leaves a row of an earlier counter live in the new generation. */
  ghost predicate ExposesAt(p: Params, s: State, age: real)
  {
    CounterLapsed(s) && s.now == s.counter.expiresAt + age &&
    exists pkid :: LiveCell(Next(p, s, Invalidate), (Generation(Next(p, s, Invalidate)), pkid)).Some?
  }

  lemma ShowExposed(p: Params, s: State, pkid: string)
    requires ValidParams(p) && CounterLapsed(s) && (2, pkid) in s.cells && s.now < s.cells[(2, pkid)].stored.expiresAt
    ensures ExposesAt(p, s, s.now - s.counter.expiresAt)
  {
    var bumped := Next(p, s, Invalidate);
    assert VersionTtl(p.cfg.defaultTtl) > 0;
    assert Generation(bumped) == 2;
    assert LiveCell(bumped, (2, pkid)).Some?;
  }

  lemma ExposureWitness(p: Params, age: real, pkid: string, row: RowData) returns (s: State)
    requires ValidParams(p) && !IsBlank(pkid) && p.cfg.accepts(row) && 0.0 <= age < Ttl(p) + p.delay
    ensures Reachable(p, s) && ExposesAt(p, s, age)
  {
    var vt := CounterTtl(p);
    var slack := (Ttl(p) + p.delay - age) / 2.0;
    var early := if slack < 1.0 then slack else 1.0;
    assert vt >= 3600.0 && early > 0.0;
    var gap := if p.delay < early + age then p.delay else early + age;
    var s1 := BumpsThenRead(p, vt - early, 2);
    s := LateWrite(p, s1, gap, early + age - gap, pkid, row);
    ShowExposed(p, s, pkid);
  }

  /** A bump coming `age` after the counter's expiry can expose an earlier row exactly when a row
      TTL plus the delay has not yet gone by. */
  lemma ExposureExactlyWithinTtlAndDelay(p: Params, age: real, pkid: string, row: RowData)
    requires ValidParams(p) && !IsBlank(pkid) && p.cfg.accepts(row) && 0.0 <= age
    ensures (exists s :: Reachable(p, s) && ExposesAt(p, s, age)) <==> age < Ttl(p) + p.delay
  {
    if age < Ttl(p) + p.delay {
      var s := ExposureWitness(p, age, pkid, row);
    } else {
      forall s | Reachable(p, s)
        ensures !ExposesAt(p, s, age)
      {
        ReachableInv(p, s);
        if ExposesAt(p, s, age) {
          BumpExposesNothing(p, s);
        }
      }
    }
  }

  // ---------------------------------------------------------------------------
  // Which bump exposes.
  // ---------------------------------------------------------------------------

  /** In `s`, `age` after the last counter expiry, a bump makes generation `g` current and shows a live
      row in it; `last` is the final generation of the expired counter. */
  ghost predicate Exposes(p: Params, s: State, age: real, last: nat, g: nat)
  {
    && LapsedAt(s).Some? && s.now == LapsedAt(s).value + age
    && LastGeneration(s) == last && Generation(s) + 1 == g
    && exists pkid :: LiveCell(Next(p, s, Invalidate), (g, pkid)).Some?
  }

  /** With the margin, a row below its counter's final generation is gone when that counter expires: only
      the bump that reaches exactly that generation can expose one. */
  lemma OnlyTheLastGenerationIsExposed(p: Params, s: State, age: real, last: nat, g: nat)
    requires ValidParams(p) && Inv(p, s) && p.delay + Ttl(p) <= CounterTtl(p) && Exposes(p, s, age, last, g)
    ensures g == last && age < Ttl(p) + p.delay
  {
    var pkid :| LiveCell(Next(p, s, Invalidate), (g, pkid)).Some?;
    assert VersionTtl(p.cfg.defaultTtl) > 0;
    assert CellOrigin(p, s, g, s.cells[(g, pkid)]);
  }

  /** Bumping `n` times at once keeps everything but the counter. */
  lemma {:induction false} BumpTimes(p: Params, s: State, n: nat) returns (s': State)
    requires ValidParams(p) && Reachable(p, s)
    ensures Reachable(p, s') && s'.now == s.now && s'.cells == s.cells && s'.pending == s.pending
    ensures Generation(s') == Generation(s) + n && LapsedAt(s') == LapsedAt(s)
    ensures LastGeneration(s') == LastGeneration(s)
    ensures n == 0 ==> s' == s
    ensures n > 0 ==> s'.counter == Counter(Generation(s) + n - 1, s.now + CounterTtl(p))
    decreases n
  {
    assert VersionTtl(p.cfg.defaultTtl) > 0;
    if n == 0 {
      s' := s;
    } else {
      ReachNext(p, s, Invalidate);
      s' := BumpTimes(p, Next(p, s, Invalidate), n - 1);
    }
  }

  /** A run whose first counter ends at generation `last` with a ticket read under it at `at`. */
  lemma BumpsThenRead(p: Params, at: real, last: nat) returns (s: State)
    requires ValidParams(p) && 0.0 <= at < CounterTtl(p) && last >= 2
    ensures Reachable(p, s) && 0 in s.pending && s.pending[0].gen == last && s.pending[0].readAt == at
    ensures s.now == at && s.counter == Counter(last - 1, CounterTtl(p))
  {
    ReachStart(p);
    var s1 := BumpTimes(p, START, last - 1);
    var s2 := Next(p, s1, Tick(at));
    ReachNext(p, s1, Tick(at));
    ReachNext(p, s2, Read(0));
    s := Next(p, s2, Read(0));
  }

  lemma LastGenerationWitness(p: Params, age: real, last: nat, pkid: string, row: RowData) returns (s: State)
    requires ValidParams(p) && !IsBlank(pkid) && p.cfg.accepts(row)
    requires 0.0 <= age < Ttl(p) + p.delay && last >= 2
    ensures Reachable(p, s) && Exposes(p, s, age, last, last)
  {
    var vt := CounterTtl(p);
    var slack := (Ttl(p) + p.delay - age) / 2.0;
    var early := if slack < 1.0 then slack else 1.0;
    assert vt >= 3600.0 && early > 0.0;
    var gap := if p.delay < early + age then p.delay else early + age;
    var s1 := BumpsThenRead(p, vt - early, last);
    var s2 := LateWrite(p, s1, gap, early + age - gap, pkid, row);
    s := BumpTimes(p, s2, last - 2);
    assert LiveCell(Next(p, s, Invalidate), (last, pkid)).Some?;
  }

  /** With the margin, a bump to generation `g` that comes `age` after a counter ended at generation `last`
      can expose an earlier row exactly when it reaches that very generation within a row TTL plus the delay. */
  lemma ExposureExactlyAtLastGeneration(p: Params, age: real, last: nat, g: nat, pkid: string, row: RowData)
    requires ValidParams(p) && p.delay + Ttl(p) <= CounterTtl(p) && !IsBlank(pkid) && p.cfg.accepts(row)
    requires 0.0 <= age && last >= 2
    ensures (exists s :: Reachable(p, s) && Exposes(p, s, age, last, g)) <==> g == last && age < Ttl(p) + p.delay
  {
    if g == last && age < Ttl(p) + p.delay {
      var s := LastGenerationWitness(p, age, last, pkid, row);
    }
    forall s | Reachable(p, s) && Exposes(p, s, age, last, g)
      ensures g == last && age < Ttl(p) + p.delay
    {
      ReachableInv(p, s);
      OnlyTheLastGenerationIsExposed(p, s, age, last, g);
    }
  }

  // ---------------------------------------------------------------------------
  // One creator per row and generation.
  // ---------------------------------------------------------------------------

  /** The step claims the row: a `create_if_absent` on this key that answers CREATED. */
  predicate Creates(p: Params, s: State, step: Step, key: (nat, string))
    requires Enabled(p, s, step)
  {
    step.Act? && step.op.CreateIfAbsent? && (s.pending[step.client].gen, step.op.pkid) == key &&
    ActEffect(p, s, key.0, step.op).1 == Moved(Created, None)
  }

  /** The step leaves the row absent that was live or that it claimed itself: a deletion or an expiry. */
  predicate Empties(p: Params, s: State, step: Step, key: (nat, string))
    requires Enabled(p, s, step)
  {
    LiveCell(Next(p, s, step), key).None? && (LiveCell(s, key).Some? || Creates(p, s, step, key))
  }

  function Claims(p: Params, s: State, steps: seq<Step>, key: (nat, string)): nat
    requires Runs(p, s, steps)
    decreases |steps|
  {
    if steps == [] then 0
    else (if Creates(p, s, steps[0], key) then 1 else 0) + Claims(p, Next(p, s, steps[0]), steps[1..], key)
  }

  function Vacations(p: Params, s: State, steps: seq<Step>, key: (nat, string)): nat
    requires Runs(p, s, steps)
    decreases |steps|
  {
    if steps == [] then 0
    else (if Empties(p, s, steps[0], key) then 1 else 0) + Vacations(p, Next(p, s, steps[0]), steps[1..], key)
  }

  lemma ClaimsOnlyVacantRows(p: Params, s: State, step: Step, key: (nat, string))
    requires Enabled(p, s, step) && Creates(p, s, step, key)
    ensures LiveCell(s, key).None?
  {
    hide Decide;
    var live := LiveCell(s, key);
    CreatesOnlyAbsentRows(p.cfg.accepts, p.cfg.defaultTtl, p.cfg.merges, step.op,
                          if live.Some? then Some(live.value.stored.data) else None);
  }

  /** However clients interleave, a row of one generation is claimed at most once more often than
      it is deleted or expires. */
  lemma {:induction false} OneCreatorPerVacancy(p: Params, s: State, steps: seq<Step>, key: (nat, string))
    requires Runs(p, s, steps)
    ensures Claims(p, s, steps, key) + (if LiveCell(s, key).Some? then 1 else 0)
         <= Vacations(p, s, steps, key) + (if LiveCell(After(p, s, steps), key).Some? then 1 else 0)
    decreases |steps|
  {
    if steps != [] {
      OneCreatorPerVacancy(p, Next(p, s, steps[0]), steps[1..], key);
      if Creates(p, s, steps[0], key) {
        ClaimsOnlyVacantRows(p, s, steps[0], key);
      }
    }
  }

  // ---------------------------------------------------------------------------
  // The protocol is what the cache does on a real store.
  // ---------------------------------------------------------------------------

  /** The protocol state shows one cache's rows and counter in a store, table names and all. */
  ghost predicate Shows(p: Params, s: State, st: Store)
  {
    && s.now == st.now
    && ShowsCounter(p, s, st)
    && (forall g: nat, pkid :: ShowsRow(p, s, st, g, pkid))
  }

  ghost predicate ShowsCounter(p: Params, s: State, st: Store)
  {
    var row := Live(st, CounterKey(p.cfg.id));
    if CounterLive(s) then
      row.Some? && row.value.expiresAt == s.counter.expiresAt && s.counter.bumps > 0 &&
      VERSION_FIELD in row.value.data && row.value.data[VERSION_FIELD] == Number(s.counter.bumps)
    else row.None?
  }

  ghost predicate ShowsRow(p: Params, s: State, st: Store, g: nat, pkid: string)
  {
    var cell := LiveCell(s, (g, pkid));
    Live(st, RowKey(p.cfg.id, g, pkid)) == if cell.Some? then Some(cell.value.stored) else None
  }

  /** A generation read in the protocol returns what the cache reads. */
  lemma ReadsAgree(p: Params, s: State, st: Store)
    requires Shows(p, s, st)
    ensures CurrentVersion(st, p.cfg.id) == Generation(s)
  {
  }

  lemma ActedRow(p: Params, s: State, c: nat, op: RowOp, g: nat, pkid: string)
    requires Enabled(p, s, Act(c, op))
    ensures var before := LiveCell(s, (g, pkid));
            var after := LiveCell(Next(p, s, Act(c, op)), (g, pkid));
            (if after.Some? then Some(after.value.stored) else None)
            == var live := if before.Some? then Some(before.value.stored) else None;
               if g == s.pending[c].gen && pkid == op.pkid
               then LiveAfter(live, ActEffect(p, s, s.pending[c].gen, op).0, s.now) else live
  {
    hide Decide, OldestAfter;
  }

  lemma ActedRowShown(p: Params, s: State, st: Store, c: nat, op: RowOp, g: nat, pkid: string)
    requires ValidParams(p) && Enabled(p, s, Act(c, op)) && s.now == st.now && ShowsRow(p, s, st, g, pkid)
    ensures var effect := ActEffect(p, s, s.pending[c].gen, op).0;
            ShowsRow(p, Next(p, s, Act(c, op)), Apply(st, RowKey(p.cfg.id, s.pending[c].gen, op.pkid), effect), g, pkid)
  {
    var gen := s.pending[c].gen;
    var key := RowKey(p.cfg.id, gen, op.pkid);
    var effect := ActEffect(p, s, gen, op).0;
    KeysDiffer(p.cfg.id, gen, op.pkid, p.cfg.id, g, pkid);
    ActedRow(p, s, c, op, g, pkid);
    if g == gen && pkid == op.pkid {
      ApplyHere(st, key, effect);
    } else {
      ApplyElsewhere(st, key, effect, RowKey(p.cfg.id, g, pkid));
    }
  }

  lemma SameDecision(p: Params, s: State, st: Store, gen: nat, op: RowOp)
    requires ShowsRow(p, s, st, gen, op.pkid)
    ensures ActAt(p.cfg, st, gen, op).0 == Apply(st, RowKey(p.cfg.id, gen, op.pkid), ActEffect(p, s, gen, op).0)
    ensures ActAt(p.cfg, st, gen, op).1 == ActEffect(p, s, gen, op).1
  {
  }

  /** An action in the protocol answers and writes what the cache does under the same generation. */
  lemma ActionsAgree(p: Params, s: State, st: Store, c: nat, op: RowOp)
    requires ValidParams(p) && Shows(p, s, st) && Enabled(p, s, Act(c, op))
    ensures Shows(p, Next(p, s, Act(c, op)), ActAt(p.cfg, st, s.pending[c].gen, op).0)
    ensures ActAt(p.cfg, st, s.pending[c].gen, op).1 == ActEffect(p, s, s.pending[c].gen, op).1
  {
    hide Decide, OldestAfter, ActAt, Physical, CounterKey, ShowsRow;
    var gen := s.pending[c].gen;
    var s' := Next(p, s, Act(c, op));
    assert ShowsRow(p, s, st, gen, op.pkid);
    SameDecision(p, s, st, gen, op);
    var key, effect := RowKey(p.cfg.id, gen, op.pkid), ActEffect(p, s, gen, op).0;
    var st' := Apply(st, key, effect);
    KeysDiffer(p.cfg.id, gen, op.pkid, p.cfg.id, 0, "");
    ApplyElsewhere(st, key, effect, CounterKey(p.cfg.id));
    assert ShowsCounter(p, s', st');
    forall g: nat, pkid
      ensures ShowsRow(p, s', st', g, pkid)
    {
      assert ShowsRow(p, s, st, g, pkid);
      ActedRowShown(p, s, st, c, op, g, pkid);
    }
  }

  /** A bump in the protocol is the cache's bump, and returns the new generation. */
  lemma BumpsAgree(p: Params, s: State, st: Store)
    requires ValidParams(p) && Shows(p, s, st)
    ensures var (st', g) := BumpStep(p.cfg, st);
            Shows(p, Next(p, s, Invalidate), st') && g == Some(Generation(Next(p, s, Invalidate)))
  {
    hide CounterKey, RowKey;
    var st' := BumpStep(p.cfg, st).0;
    var s' := Next(p, s, Invalidate);
    BumpWritesOneKey(st, p.cfg);
    forall g: nat, pkid
      ensures ShowsRow(p, s', st', g, pkid)
    {
      assert ShowsRow(p, s, st, g, pkid);
      KeysDiffer(p.cfg.id, g, pkid, p.cfg.id, 0, "");
    }
  }

  lemma WaitsAgree(p: Params, s: State, st: Store, dt: real)
    requires Shows(p, s, st) && dt >= 0.0
    ensures Shows(p, Next(p, s, Tick(dt)), Pass(st, dt))
  {
    var (s', st') := (Next(p, s, Tick(dt)), Pass(st, dt));
    forall g: nat, pkid
      ensures ShowsRow(p, s', st', g, pkid)
    {
      assert ShowsRow(p, s, st, g, pkid);
    }
  }

  /** A store change that keeps this cache's rows and counter live as they were keeps it shown. */
  lemma ShownByEqualRows(p: Params, s: State, st: Store, st': Store, key: Key)
    requires ValidParams(p) && Shows(p, s, st) && st'.now == st.now
    requires forall k :: k != key ==> Live(st', k) == Live(st, k)
    requires key != CounterKey(p.cfg.id) && forall g: nat, pkid :: key != RowKey(p.cfg.id, g, pkid)
    ensures Shows(p, s, st')
  {
    hide CounterKey, RowKey, Live;
    assert ShowsCounter(p, s, st');
    forall g: nat, pkid
      ensures ShowsRow(p, s, st', g, pkid)
    {
      assert ShowsRow(p, s, st, g, pkid);
    }
  }

  /** Whatever another cache does to the same backend, this cache's rows and counter stay as they are. */
  lemma OtherActionsInvisible(p: Params, s: State, st: Store, other: Config, g: nat, op: RowOp)
    requires ValidParams(p) && Shows(p, s, st) && IsCacheId(other.id) && other.id != p.cfg.id
    ensures Shows(p, s, ActAt(other, st, g, op).0)
  {
    hide Decide, RowKey, CounterKey, Shows, IsCacheId;
    var key := RowKey(other.id, g, op.pkid);
    KeysDiffer(other.id, g, op.pkid, p.cfg.id, 0, "");
    forall h: nat, pkid
      ensures key != RowKey(p.cfg.id, h, pkid)
    {
      KeysDiffer(p.cfg.id, h, pkid, other.id, g, op.pkid);
    }
    ActWritesOneKey(st, other, g, op);
    ShownByEqualRows(p, s, st, ActAt(other, st, g, op).0, key);
  }

  lemma ActWritesOneKey(st: Store, cfg: Config, g: nat, op: RowOp)
    ensures var st' := ActAt(cfg, st, g, op).0;
            st'.now == st.now && forall k :: k != RowKey(cfg.id, g, op.pkid) ==> Live(st', k) == Live(st, k)
  {
    hide Decide, RowKey;
  }

  lemma OtherBumpsInvisible(p: Params, s: State, st: Store, other: Config)
    requires ValidParams(p) && Shows(p, s, st) && IsCacheId(other.id) && other.id != p.cfg.id
    ensures Shows(p, s, BumpStep(other, st).0)
  {
    hide RowKey, CounterKey, Shows, IsCacheId, BumpStep;
    KeysDiffer(other.id, 0, "", p.cfg.id, 0, "");
    forall h: nat, pkid
      ensures CounterKey(other.id) != RowKey(p.cfg.id, h, pkid)
    {
      KeysDiffer(p.cfg.id, h, pkid, other.id, 0, "");
    }
    BumpWritesOneKey(st, other);
    ShownByEqualRows(p, s, st, BumpStep(other, st).0, CounterKey(other.id));
  }

  lemma BumpWritesOneKey(st: Store, cfg: Config)
    ensures var st' := BumpStep(cfg, st).0;
            st'.now == st.now && forall k :: k != CounterKey(cfg.id) ==> Live(st', k) == Live(st, k)
  {
    hide CounterKey;
  }
}

/** Any number of versioned caches and two-step clients on one backend: seen from any one of the caches,
    every run is a run of the generation protocol, so what holds of the protocol holds of the store. */
module SharedBackend {
  import opened Outcomes
  import opened CacheSpace
  import opened TableRows
  import opened VersionedCache
  import P = GenerationProtocol

  /** What a client remembers between its two steps; `index` counts the moves made before its read. */
  datatype Holding = Holding(cfg: Config, gen: nat, readAt: real, index: nat)

  datatype System = System(store: Store, holdings: map<nat, Holding>, moves: nat)

  datatype Move =
    | Elapse(dt: real)
    | ReadBy(client: nat, cfg: Config)
    | ActBy(client: nat, op: RowOp)
    | BumpBy(cfg: Config)

  /** What is assumed of the moves, for the sake of the cache `p`: all objects for that cache are configured
      alike, and its clients act in time and with TTLs up to the default. Other caches are free. */
  ghost predicate Allowed(p: P.Params, y: System, move: Move)
  {
    match move
    case Elapse(dt) => dt >= 0.0
    case ReadBy(_, cfg) => IsCacheId(cfg.id) && (cfg.id == p.cfg.id ==> cfg == p.cfg)
    case ActBy(c, op) =>
      c in y.holdings && (y.holdings[c].cfg.id == p.cfg.id ==>
                            y.store.now - y.holdings[c].readAt <= p.delay && P.TtlWithinDefault(p, op))
    case BumpBy(cfg) => IsCacheId(cfg.id) && (cfg.id == p.cfg.id ==> cfg == p.cfg)
  }

  function Next(y: System, move: Move): System
    requires move.ActBy? ==> move.client in y.holdings
  {
    match move
    case Elapse(dt) => System(Pass(y.store, dt), y.holdings, y.moves + 1)
    case ReadBy(c, cfg) =>
      var holding := Holding(cfg, CurrentVersion(y.store, cfg.id), y.store.now, y.moves);
      System(y.store, y.holdings[c := holding], y.moves + 1)
    case ActBy(c, op) =>
      var h := y.holdings[c];
      System(ActAt(h.cfg, y.store, h.gen, op).0, y.holdings - {c}, y.moves + 1)
    case BumpBy(cfg) => System(BumpStep(cfg, y.store).0, y.holdings, y.moves + 1)
  }

  /** The move as a step of the protocol of cache `p`: moves of other caches are no step at all. */
  function Project(p: P.Params, y: System, move: Move): P.Step
    requires move.ActBy? ==> move.client in y.holdings
  {
    match move
    case Elapse(dt) => P.Tick(dt)
    case ReadBy(c, cfg) => if cfg.id == p.cfg.id then P.Read(c) else P.Tick(0.0)
    case ActBy(c, op) => if y.holdings[c].cfg.id == p.cfg.id then P.Act(c, op) else P.Tick(0.0)
    case BumpBy(cfg) => if cfg.id == p.cfg.id then P.Invalidate else P.Tick(0.0)
  }

  /** The protocol state shows the cache's part of the store and of the clients' memory. */
  ghost predicate Linked(p: P.Params, s: P.State, y: System)
  {
    && P.Shows(p, s, y.store) && s.steps == y.moves
    && (forall c :: c in y.holdings ==> HoldingLinked(p, s, c, y.holdings[c]))
  }

  ghost predicate HoldingLinked(p: P.Params, s: P.State, c: nat, h: Holding)
  {
    && IsCacheId(h.cfg.id)
    && (h.cfg.id == p.cfg.id ==> h.cfg == p.cfg && c in s.pending && s.pending[c] == P.Ticket(h.gen, h.readAt, h.index))
  }

  /** A move of another cache leaves this one's view as it is. */
  lemma NothingHappens(p: P.Params, s: P.State, st: Store)
    requires P.Shows(p, s, st)
    ensures P.Enabled(p, s, P.Tick(0.0)) && P.Shows(p, P.Next(p, s, P.Tick(0.0)), st)
    ensures P.Next(p, s, P.Tick(0.0)).pending == s.pending && P.Next(p, s, P.Tick(0.0)).steps == s.steps + 1
  {
    hide P.Shows;
    P.WaitsAgree(p, s, st, 0.0);
    assert Pass(st, 0.0) == st;
  }

  lemma MoveShows(p: P.Params, s: P.State, y: System, move: Move)
    requires P.ValidParams(p) && Linked(p, s, y) && Allowed(p, y, move)
    ensures P.Enabled(p, s, Project(p, y, move))
    ensures P.Shows(p, P.Next(p, s, Project(p, y, move)), Next(y, move).store)
  {
    match move {
      case Elapse(dt) => P.WaitsAgree(p, s, y.store, dt);
      case ReadBy(c, cfg) =>
        if cfg.id == p.cfg.id {
          ReadShows(p, s, y.store, c);
        } else {
          NothingHappens(p, s, y.store);
        }
      case ActBy(c, op) =>
        var h := y.holdings[c];
        assert HoldingLinked(p, s, c, h) && s.now == y.store.now;
        hide P.Shows, ActAt;
        if h.cfg.id == p.cfg.id {
          P.ActionsAgree(p, s, y.store, c, op);
        } else {
          P.OtherActionsInvisible(p, s, y.store, h.cfg, h.gen, op);
          NothingHappens(p, s, ActAt(h.cfg, y.store, h.gen, op).0);
        }
      case BumpBy(cfg) =>
        hide P.Shows, BumpStep;
        if cfg.id == p.cfg.id {
          P.BumpsAgree(p, s, y.store);
        } else {
          P.OtherBumpsInvisible(p, s, y.store, cfg);
          NothingHappens(p, s, BumpStep(cfg, y.store).0);
        }
    }
  }

  lemma ReadShows(p: P.Params, s: P.State, st: Store, c: nat)
    requires P.Shows(p, s, st)
    ensures P.Shows(p, P.Next(p, s, P.Read(c)), st)
  {
    var s' := P.Next(p, s, P.Read(c));
    forall g: nat, pkid
      ensures P.ShowsRow(p, s', st, g, pkid)
    {
      assert P.ShowsRow(p, s, st, g, pkid);
    }
  }

  lemma MoveKeepsLink(p: P.Params, s: P.State, y: System, move: Move)
    requires P.ValidParams(p) && Linked(p, s, y) && Allowed(p, y, move)
    ensures P.Enabled(p, s, Project(p, y, move))
    ensures Linked(p, P.Next(p, s, Project(p, y, move)), Next(y, move))
  {
    MoveShows(p, s, y, move);
    var (s', y') := (P.Next(p, s, Project(p, y, move)), Next(y, move));
    assert s'.steps == s.steps + 1 && y'.moves == y.moves + 1;
    hide P.Shows, P.Next, Next, HoldingLinked;
    forall c | c in y'.holdings
      ensures HoldingLinked(p, s', c, y'.holdings[c])
    {
      HoldingKept(p, s, y, move, c);
    }
  }

  lemma HoldingKept(p: P.Params, s: P.State, y: System, move: Move, c: nat)
    requires Linked(p, s, y) && Allowed(p, y, move) && P.Enabled(p, s, Project(p, y, move))
    requires c in Next(y, move).holdings
    ensures HoldingLinked(p, P.Next(p, s, Project(p, y, move)), c, Next(y, move).holdings[c])
  {
    assert s.now == y.store.now;
    P.ReadsAgree(p, s, y.store);
    hide P.Shows, P.CellsAfter, ActAt, BumpStep, CurrentVersion, P.Generation, P.Peak, P.LapsedAt, P.LastGeneration;
    if !(move.ReadBy? && move.client == c) {
      assert HoldingLinked(p, s, c, y.holdings[c]);
    }
  }

  ghost predicate Runs(p: P.Params, y: System, moves: seq<Move>)
    decreases |moves|
  {
    moves == [] || (Allowed(p, y, moves[0]) && Runs(p, Next(y, moves[0]), moves[1..]))
  }

  ghost function After(p: P.Params, y: System, moves: seq<Move>): System
    requires Runs(p, y, moves)
    decreases |moves|
  {
    if moves == [] then y else After(p, Next(y, moves[0]), moves[1..])
  }

  ghost function Projected(p: P.Params, y: System, moves: seq<Move>): seq<P.Step>
    requires Runs(p, y, moves)
    decreases |moves|
  {
    if moves == [] then [] else [Project(p, y, moves[0])] + Projected(p, Next(y, moves[0]), moves[1..])
  }

  /** Whatever the other caches and their clients do, the run is a run of this cache's protocol. */
  lemma {:induction false} RunIsProtocolRun(p: P.Params, s: P.State, y: System, moves: seq<Move>)
    requires P.ValidParams(p) && Linked(p, s, y) && Runs(p, y, moves)
    ensures P.Runs(p, s, Projected(p, y, moves))
    ensures Linked(p, P.After(p, s, Projected(p, y, moves)), After(p, y, moves))
    decreases |moves|
  {
    if moves != [] {
      var step := Project(p, y, moves[0]);
      var rest := Projected(p, Next(y, moves[0]), moves[1..]);
      MoveKeepsLink(p, s, y, moves[0]);
      hide Linked, P.Enabled, P.Next, Next, Allowed, Project;
      RunIsProtocolRun(p, P.Next(p, s, step), Next(y, moves[0]), moves[1..]);
      assert Projected(p, y, moves) == [step] + rest && ([step] + rest)[1..] == rest;
    }
  }

  const EMPTY := System(Store(0.0, map[]), map[], 0)

  lemma EmptyBackendIsLinked(p: P.Params)
    ensures Linked(p, P.START, EMPTY)
  {
  }

  /** From an empty backend every run of all the caches is a reachable run of each cache's protocol. */
  lemma EveryRunIsReachable(p: P.Params, moves: seq<Move>) returns (s: P.State)
    requires P.ValidParams(p) && Runs(p, EMPTY, moves)
    ensures P.Reachable(p, s) && Linked(p, s, After(p, EMPTY, moves))
  {
    hide P.Runs, P.After, Runs, After, Projected, Linked;
    EmptyBackendIsLinked(p);
    RunIsProtocolRun(p, P.START, EMPTY, moves);
    s := P.After(p, P.START, Projected(p, EMPTY, moves));
  }

  // ---------------------------------------------------------------------------
  // What the store shows after a bump.
  // ---------------------------------------------------------------------------

  /** The cache's counter row is live at the start and after every move. */
  ghost predicate CounterHeld(p: P.Params, y: System, moves: seq<Move>)
    requires Runs(p, y, moves)
    decreases |moves|
  {
    Live(y.store, CounterKey(p.cfg.id)).Some? && (moves != [] ==> CounterHeld(p, Next(y, moves[0]), moves[1..]))
  }

  lemma CounterSeen(p: P.Params, s: P.State, y: System)
    requires Linked(p, s, y) && Live(y.store, CounterKey(p.cfg.id)).Some?
    ensures P.CounterLive(s)
  {
  }

  lemma {:induction false} CounterStaysInProtocol(p: P.Params, s: P.State, y: System, moves: seq<Move>)
    requires P.ValidParams(p) && Linked(p, s, y) && Runs(p, y, moves) && CounterHeld(p, y, moves)
    requires P.Runs(p, s, Projected(p, y, moves))
    ensures P.CounterStays(p, s, Projected(p, y, moves))
    decreases |moves|
  {
    CounterSeen(p, s, y);
    if moves != [] {
      var step := Project(p, y, moves[0]);
      var rest := Projected(p, Next(y, moves[0]), moves[1..]);
      MoveKeepsLink(p, s, y, moves[0]);
      hide Linked, P.Enabled, P.Next, Next, Allowed, Project, P.CounterLive;
      assert Projected(p, y, moves) == [step] + rest && ([step] + rest)[1..] == rest;
      CounterStaysInProtocol(p, P.Next(p, s, step), Next(y, moves[0]), moves[1..]);
    }
  }

  /** Right after a safe bump the store holds no live row of this cache at the new generation or above. */
  lemma StoreIsEmptyAtNewGeneration(p: P.Params, s: P.State, y: System, g: nat, pkid: string)
    requires P.ValidParams(p) && Linked(p, s, y) && P.Inv(p, s) && P.SafeToBump(p, s)
    requires g >= CurrentVersion(Next(y, BumpBy(p.cfg)).store, p.cfg.id)
    ensures Live(Next(y, BumpBy(p.cfg)).store, RowKey(p.cfg.id, g, pkid)).None?
  {
    var (s', y') := (P.Next(p, s, P.Invalidate), Next(y, BumpBy(p.cfg)));
    MoveKeepsLink(p, s, y, BumpBy(p.cfg));
    assert Linked(p, s', y');
    P.ReadsAgree(p, s', y'.store);
    P.BumpExposesNothing(p, s);
    assert P.ShowsRow(p, s', y'.store, g, pkid);
  }

  /** After a safe bump, over any run of all caches and clients that keeps this cache's counter alive, what
      a client that read its generation after the bump finds in the store was written under generation
      reads after the bump, field updates and renewals included. */
  lemma FreshReadsSeeFreshStore(p: P.Params, s: P.State, y: System, moves: seq<Move>, client: nat, pkid: string)
    requires P.ValidParams(p) && Linked(p, s, y) && P.Inv(p, s) && P.SafeToBump(p, s)
    requires Runs(p, Next(y, BumpBy(p.cfg)), moves) && CounterHeld(p, Next(y, BumpBy(p.cfg)), moves)
    requires var u := After(p, Next(y, BumpBy(p.cfg)), moves);
             client in u.holdings && u.holdings[client].cfg.id == p.cfg.id && u.holdings[client].index > y.moves
    ensures var y' := Next(y, BumpBy(p.cfg));
            var u := After(p, y', moves);
            var row := Live(u.store, RowKey(p.cfg.id, u.holdings[client].gen, pkid));
            P.Runs(p, P.Next(p, s, P.Invalidate), Projected(p, y', moves)) &&
            var q := P.After(p, P.Next(p, s, P.Invalidate), Projected(p, y', moves));
            row.Some? ==>
              var key := (u.holdings[client].gen, pkid);
              key in q.cells && q.cells[key].stored == row.value && q.cells[key].oldest > y.moves
  {
    var (s', y') := (P.Next(p, s, P.Invalidate), Next(y, BumpBy(p.cfg)));
    MoveKeepsLink(p, s, y, BumpBy(p.cfg));
    assert s.steps == y.moves && Linked(p, s', y');
    RunIsProtocolRun(p, s', y', moves);
    CounterStaysInProtocol(p, s', y', moves);
    var steps := Projected(p, y', moves);
    var (q, u) := (P.After(p, s', steps), After(p, y', moves));
    assert HoldingLinked(p, q, client, u.holdings[client]);
    assert forall c :: c in s.pending ==> P.Origin(p, s, s.pending[c]);
    assert P.ShowsRow(p, q, u.store, u.holdings[client].gen, pkid);
    hide P.Runs, P.After, P.CounterStays, P.SafeToBump, P.Inv, Runs, After, Projected, Linked, P.Next, Next, RowKey;
    P.FreshReadsSeeFreshRows(p, s, steps, client, pkid);
  }
}

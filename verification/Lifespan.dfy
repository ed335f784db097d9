/** Python's stable `sorted` on entries with an integer priority. */
module PrioritySort {
  datatype Entry<T> = Entry(item: T, priority: int)

  /** Insert an entry that was registered before all of `sorted`. */
  function Insert<T>(e: Entry<T>, sorted: seq<Entry<T>>): seq<Entry<T>>
  {
    if sorted == [] || e.priority <= sorted[0].priority then [e] + sorted else [sorted[0]] + Insert(e, sorted[1..])
  }

  /** `sorted(entries, key=priority)`. */
  function Ascending<T>(entries: seq<Entry<T>>): seq<Entry<T>>
  {
    if entries == [] then [] else Insert(entries[0], Ascending(entries[1..]))
  }

  function Flip<T>(e: Entry<T>): Entry<T>
  {
    Entry(e.item, -e.priority)
  }

  function Negated<T>(entries: seq<Entry<T>>): (r: seq<Entry<T>>)
    ensures |r| == |entries|
  {
    seq(|entries|, i requires 0 <= i < |entries| => Flip(entries[i]))
  }

  /** `sorted(entries, key=priority, reverse=True)`, which keeps equal priorities in their order. */
  function Descending<T>(entries: seq<Entry<T>>): seq<Entry<T>>
  {
    Negated(Ascending(Negated(entries)))
  }

  ghost predicate Increasing<T(!new)>(entries: seq<Entry<T>>)
  {
    forall i, j :: 0 <= i < j < |entries| ==> entries[i].priority <= entries[j].priority
  }

  /** The entries of one priority, in order. */
  function Tier<T>(entries: seq<Entry<T>>, priority: int): seq<Entry<T>>
  {
    if entries == [] then []
    else (if entries[0].priority == priority then [entries[0]] else []) + Tier(entries[1..], priority)
  }

  lemma {:induction false} InsertKeepsEntries<T(!new)>(e: Entry<T>, sorted: seq<Entry<T>>)
    ensures multiset(Insert(e, sorted)) == multiset{e} + multiset(sorted)
  {
    if sorted != [] {
      assert sorted == [sorted[0]] + sorted[1..];
      InsertKeepsEntries(e, sorted[1..]);
    }
  }

  lemma TierCons<T>(e: Entry<T>, rest: seq<Entry<T>>, p: int)
    ensures Tier([e] + rest, p) == if e.priority == p then [e] + Tier(rest, p) else Tier(rest, p)
  {
    assert ([e] + rest)[1..] == rest;
  }

  lemma {:induction false} InsertKeepsTier<T>(e: Entry<T>, sorted: seq<Entry<T>>, p: int)
    ensures Tier(Insert(e, sorted), p) == if e.priority == p then [e] + Tier(sorted, p) else Tier(sorted, p)
  {
    hide Tier;
    if sorted == [] || e.priority <= sorted[0].priority {
      TierCons(e, sorted, p);
    } else {
      InsertKeepsTier(e, sorted[1..], p);
      TierCons(sorted[0], Insert(e, sorted[1..]), p);
      TierCons(sorted[0], sorted[1..], p);
      assert [sorted[0]] + sorted[1..] == sorted;
    }
  }

  lemma {:induction false} InsertSorts<T(!new)>(e: Entry<T>, sorted: seq<Entry<T>>)
    requires Increasing(sorted)
    ensures Increasing(Insert(e, sorted))
  {
    if sorted != [] && e.priority > sorted[0].priority {
      InsertSorts(e, sorted[1..]);
      var r := Insert(e, sorted[1..]);
      InsertKeepsEntries(e, sorted[1..]);
      forall x | x in r
        ensures sorted[0].priority <= x.priority
      {
        assert x in multiset(r);
        assert x == e || x in sorted[1..];
      }
    }
  }

  /** Sorting permutes the entries, orders the priorities, and keeps every tier in registration order. */
  lemma {:induction false} AscendingSorts<T(!new)>(entries: seq<Entry<T>>)
    ensures Increasing(Ascending(entries)) && multiset(Ascending(entries)) == multiset(entries)
    ensures forall p :: Tier(Ascending(entries), p) == Tier(entries, p)
  {
    if entries != [] {
      assert entries == [entries[0]] + entries[1..];
      AscendingSorts(entries[1..]);
      var rest := Ascending(entries[1..]);
      InsertSorts(entries[0], rest);
      InsertKeepsEntries(entries[0], rest);
      forall p
        ensures Tier(Ascending(entries), p) == Tier(entries, p)
      {
        InsertKeepsTier(entries[0], rest, p);
      }
    }
  }

  lemma {:induction false} NegatedTier<T>(entries: seq<Entry<T>>, p: int)
    ensures Tier(Negated(entries), p) == Negated(Tier(entries, -p))
  {
    if entries != [] {
      NegatedTier(entries[1..], p);
      assert Negated(entries)[1..] == Negated(entries[1..]);
    }
  }

  lemma NegatedTwice<T>(entries: seq<Entry<T>>)
    ensures Negated(Negated(entries)) == entries
  {
  }

  lemma {:induction false} NegatedMultiset<T>(entries: seq<Entry<T>>, e: Entry<T>)
    ensures multiset(Negated(entries))[Flip(e)] == multiset(entries)[e]
  {
    if entries == [] {
      assert Negated(entries) == [];
    } else {
      NegatedMultiset(entries[1..], e);
      assert Negated(entries) == [Flip(entries[0])] + Negated(entries[1..]);
      assert entries == [entries[0]] + entries[1..];
    }
  }

  lemma NegatedDescends<T(!new)>(entries: seq<Entry<T>>)
    requires Increasing(entries)
    ensures var r := Negated(entries); forall i, j :: 0 <= i < j < |r| ==> r[i].priority >= r[j].priority
  {
  }

  lemma DescendingKeepsEntries<T(!new)>(entries: seq<Entry<T>>)
    ensures multiset(Descending(entries)) == multiset(entries)
  {
    var sorted := Ascending(Negated(entries));
    AscendingSorts(Negated(entries));
    hide Ascending, Negated, Tier, Increasing;
    forall e: Entry<T>
      ensures multiset(Negated(sorted))[e] == multiset(entries)[e]
    {
      NegatedMultiset(sorted, Flip(e));
      NegatedMultiset(entries, e);
      assert Flip(Flip(e)) == e;
    }
  }

  lemma DescendingKeepsTier<T(!new)>(entries: seq<Entry<T>>, p: int)
    ensures Tier(Descending(entries), p) == Tier(entries, p)
  {
    var sorted := Ascending(Negated(entries));
    AscendingSorts(Negated(entries));
    hide Ascending, Negated, Tier, Increasing;
    NegatedTier(sorted, p);
    NegatedTier(entries, -p);
    NegatedTwice(Tier(entries, p));
  }

  lemma DescendingSorts<T(!new)>(entries: seq<Entry<T>>)
    ensures var r := Descending(entries);
            multiset(r) == multiset(entries) && forall i, j :: 0 <= i < j < |r| ==> r[i].priority >= r[j].priority
    ensures forall p :: Tier(Descending(entries), p) == Tier(entries, p)
  {
    hide Ascending, Negated, Tier, Increasing;
    AscendingSorts(Negated(entries));
    NegatedDescends(Ascending(Negated(entries)));
    DescendingKeepsEntries(entries);
    forall p
      ensures Tier(Descending(entries), p) == Tier(entries, p)
    {
      DescendingKeepsTier(entries, p);
    }
  }

  /** The three facts above leave no choice: they determine the order. */
  lemma {:induction false} SortedOrderIsUnique<T(!new)>(a: seq<Entry<T>>, b: seq<Entry<T>>)
    requires Increasing(a) && Increasing(b) && forall p :: Tier(a, p) == Tier(b, p)
    ensures a == b
  {
    hide Tier;
    if a != [] {
      TierHead(a);
      NoTier<T>(a[0].priority);
    }
    if b != [] {
      TierHead(b);
      NoTier<T>(b[0].priority);
    }
    if a != [] {
      SameHead(a, b);
      forall q
        ensures Tier(a[1..], q) == Tier(b[1..], q)
      {
        TierTail(a, q);
        TierTail(b, q);
      }
      SortedOrderIsUnique(a[1..], b[1..]);
      SameHeadAndTail(a, b);
    }
  }

  lemma NoTier<T(!new)>(p: int)
    ensures Tier<T>([], p) == []
  {
  }

  lemma SameHeadAndTail<T(!new)>(a: seq<T>, b: seq<T>)
    requires a != [] && b != [] && a[0] == b[0] && a[1..] == b[1..]
    ensures a == b
  {
    assert a == [a[0]] + a[1..];
  }

  lemma TierHead<T(!new)>(entries: seq<Entry<T>>)
    requires entries != []
    ensures Tier(entries, entries[0].priority) != []
  {
  }

  lemma TierTail<T(!new)>(entries: seq<Entry<T>>, q: int)
    requires entries != []
    ensures Tier(entries[1..], q) == if entries[0].priority == q then Tier(entries, q)[1..] else Tier(entries, q)
  {
  }

  lemma SameHead<T(!new)>(a: seq<Entry<T>>, b: seq<Entry<T>>)
    requires a != [] && b != [] && Increasing(a) && Increasing(b) && forall p :: Tier(a, p) == Tier(b, p)
    ensures a[0] == b[0]
  {
    var p, q := a[0].priority, b[0].priority;
    HigherTierIsEmpty(a, q);
    HigherTierIsEmpty(b, p);
    assert Tier(a, p) == Tier(b, p) && Tier(a, q) == Tier(b, q);
    assert Tier(a, p)[0] == a[0] && Tier(b, q)[0] == b[0];
  }

  lemma {:induction false} HigherTierIsEmpty<T(!new)>(entries: seq<Entry<T>>, p: int)
    requires Increasing(entries)
    ensures entries != [] && entries[0].priority > p ==> Tier(entries, p) == []
  {
    if |entries| > 1 && entries[0].priority > p {
      assert entries[1].priority >= entries[0].priority;
      HigherTierIsEmpty(entries[1..], p);
    }
  }
}

/** Application lifespan: prioritised hooks, the drain of background work, and the close of the
    shared HTTP session. */
module Lifespan {
  import opened PrioritySort

  /** The core plugin's three shutdown phases, its startup, and anybody else's hooks. */
  datatype Hook = BeginDrain | DrainWork | CoreShutdown | CoreStartup | Other(name: nat)

  const BEGIN_DRAIN_PRIORITY := 90
  const DRAIN_PRIORITY := 70
  const CORE_PRIORITY := 10

  function Items(entries: seq<Entry<Hook>>): (r: seq<Hook>)
    ensures |r| == |entries| && forall i :: 0 <= i < |r| ==> r[i] == entries[i].item
  {
    seq(|entries|, i requires 0 <= i < |entries| => entries[i].item)
  }

  class WappaBuilder {
    var startupHooks: seq<Entry<Hook>>
    var shutdownHooks: seq<Entry<Hook>>

    constructor ()
      ensures startupHooks == [] && shutdownHooks == []
    {
      startupHooks, shutdownHooks := [], [];
    }

    method AddStartupHook(hook: Hook, priority: int := 50)
      modifies this`startupHooks
      ensures startupHooks == old(startupHooks) + [Entry(hook, priority)]
    {
      startupHooks := startupHooks + [Entry(hook, priority)];
    }

    method AddShutdownHook(hook: Hook, priority: int := 50)
      modifies this`shutdownHooks
      ensures shutdownHooks == old(shutdownHooks) + [Entry(hook, priority)]
    {
      shutdownHooks := shutdownHooks + [Entry(hook, priority)];
    }

    /** What `WappaCorePlugin.configure` registers. */
    method ConfigureCore()
      modifies this
      ensures startupHooks == old(startupHooks) + [Entry(CoreStartup, 10)]
      ensures shutdownHooks == old(shutdownHooks)
        + [Entry(BeginDrain, 90), Entry(DrainWork, 70), Entry(CoreShutdown, 10)]
    {
      AddStartupHook(CoreStartup, CORE_PRIORITY);
      AddShutdownHook(BeginDrain, BEGIN_DRAIN_PRIORITY);
      AddShutdownHook(DrainWork, DRAIN_PRIORITY);
      AddShutdownHook(CoreShutdown, CORE_PRIORITY);
    }

    /** Run startup hooks until one raises; `fails(i)` says whether the i-th to run does. */
    method ExecuteAllStartupHooks(fails: nat -> bool) returns (ran: seq<Hook>, raised: bool)
      ensures var order := Items(Ascending(startupHooks));
              ran <= order && (!raised ==> ran == order) &&
              (forall i: nat :: i < |ran| - 1 ==> !fails(i)) && (raised <==> ran != [] && fails(|ran| - 1))
    {
      var sorted := Ascending(startupHooks);
      ran, raised := [], false;
      for i := 0 to |sorted|
        invariant ran == Items(sorted)[..i]
        invariant forall k: nat :: k < i ==> !fails(k)
      {
        ran := ran + [sorted[i].item];
        if fails(i) {
          return ran, true;
        }
      }
    }

    /** Run every shutdown hook; a raising one is logged and the rest still run. */
    method ExecuteAllShutdownHooks(fails: nat -> bool) returns (ran: seq<Hook>, failed: nat)
      ensures ran == Items(Descending(shutdownHooks)) && failed <= |ran|
      ensures (forall i :: 0 <= i < |ran| ==> !fails(i)) ==> failed == 0
    {
      var sorted := Descending(shutdownHooks);
      ran, failed := [], 0;
      for i := 0 to |sorted|
        invariant ran == Items(sorted)[..i] && failed <= i
        invariant (forall k :: 0 <= k < i ==> !fails(k)) ==> failed == 0
      {
        ran := ran + [sorted[i].item];
        if fails(i) {
          failed := failed + 1;
        }
      }
    }

    /** The unified lifespan: shutdown hooks all run however startup or the application ended. It raises
        exactly when the last startup hook to run did, or the application does. */
    method RunLifespan(startupFails: nat -> bool, appRaises: bool, shutdownFails: nat -> bool)
      returns (started: seq<Hook>, stopped: seq<Hook>, raised: bool)
      ensures stopped == Items(Descending(shutdownHooks))
      ensures started <= Items(Ascending(startupHooks)) && forall i: nat :: i < |started| - 1 ==> !startupFails(i)
      ensures var startupRaised := started != [] && startupFails(|started| - 1);
              (raised <==> startupRaised || appRaises) &&
              (!startupRaised ==> started == Items(Ascending(startupHooks)))
    {
      started, raised := ExecuteAllStartupHooks(startupFails);
      raised := raised || appRaises;
      var failed;
      stopped, failed := ExecuteAllShutdownHooks(shutdownFails);
    }
  }

  /** The priority the core plugin gives each of its phases. */
  function CorePriority(phase: Hook): int
    requires IsPhase(phase)
  {
    match phase
    case BeginDrain => BEGIN_DRAIN_PRIORITY
    case DrainWork => DRAIN_PRIORITY
    case CoreShutdown => CORE_PRIORITY
  }

  predicate IsPhase(hook: Hook)
  {
    hook.BeginDrain? || hook.DrainWork? || hook.CoreShutdown?
  }

  /** The core plugin registered its phases, and nobody else registered those. */
  ghost predicate CoreRegistered(hooks: seq<Entry<Hook>>)
  {
    && (forall h :: IsPhase(h) ==> Entry(h, CorePriority(h)) in hooks)
    && (forall e :: e in hooks && IsPhase(e.item) ==> e.priority == CorePriority(e.item))
  }

  /** After `ConfigureCore` the phases are registered, whatever hooks of others come before and after. */
  lemma CoreIsRegistered(before: seq<Entry<Hook>>, after: seq<Entry<Hook>>)
    requires forall e :: e in before || e in after ==> !IsPhase(e.item)
    ensures CoreRegistered(before + [Entry(BeginDrain, 90), Entry(DrainWork, 70), Entry(CoreShutdown, 10)] + after)
  {
    var core := [Entry(BeginDrain, 90), Entry(DrainWork, 70), Entry(CoreShutdown, 10)];
    assert core[0] in core && core[1] in core && core[2] in core;
    assert forall e :: e in before + core + after <==> e in before || e in core || e in after;
  }

  /** The phases among the hooks of others: draining is marked ahead of everything below priority 90, the
      work is drained ahead of everything below 70, so of everything at the default 50 or below, and the
      shared session is closed after everything above priority 10. */
  lemma PhasesAmongOthers(hooks: seq<Entry<Hook>>, i: nat, j: nat)
    requires CoreRegistered(hooks) && i < |Descending(hooks)| && j < |Descending(hooks)|
    ensures var (a, b) := (Descending(hooks)[i], Descending(hooks)[j]);
            && (a.item == BeginDrain && b.priority < 90 ==> i < j)
            && (a.item == DrainWork && b.priority < 70 ==> i < j)
            && (a.priority > 10 && b.item == CoreShutdown ==> i < j)
  {
    DescendingSorts(hooks);
    var (a, b) := (Descending(hooks)[i], Descending(hooks)[j]);
    if IsPhase(a.item) {
      SortedPhase(hooks, i);
    }
    if IsPhase(b.item) {
      SortedPhase(hooks, j);
    }
  }

  ghost predicate Precedes(order: seq<Hook>, a: Hook, b: Hook)
  {
    forall i, j :: 0 <= i < |order| && 0 <= j < |order| && order[i] == a && order[j] == b ==> i < j
  }

  /** The phases are all there, draining marked before the drain and the drain before the close. */
  ghost predicate CoreOrdered(order: seq<Hook>)
  {
    && (forall h :: IsPhase(h) ==> h in order)
    && Precedes(order, BeginDrain, DrainWork) && Precedes(order, DrainWork, CoreShutdown)
  }

  lemma SortedPhase(hooks: seq<Entry<Hook>>, i: nat)
    requires CoreRegistered(hooks) && i < |Descending(hooks)| && IsPhase(Descending(hooks)[i].item)
    ensures Descending(hooks)[i].priority == CorePriority(Descending(hooks)[i].item)
  {
    DescendingSorts(hooks);
    assert Descending(hooks)[i] in multiset(Descending(hooks));
    assert Descending(hooks)[i] in multiset(hooks);
  }

  lemma HigherRunsFirst(hooks: seq<Entry<Hook>>, a: Hook, b: Hook)
    requires CoreRegistered(hooks) && IsPhase(a) && IsPhase(b) && CorePriority(a) > CorePriority(b)
    ensures Precedes(Items(Descending(hooks)), a, b)
  {
    var sorted := Descending(hooks);
    DescendingSorts(hooks);
    var order := Items(sorted);
    forall i, j | 0 <= i < |order| && 0 <= j < |order| && order[i] == a && order[j] == b
      ensures i < j
    {
      SortedPhase(hooks, i);
      SortedPhase(hooks, j);
    }
  }

  /** Whatever else is registered at whatever priorities, the phases run in their order. */
  lemma PhasesInOrder(hooks: seq<Entry<Hook>>)
    requires CoreRegistered(hooks)
    ensures CoreOrdered(Items(Descending(hooks)))
  {
    var sorted := Descending(hooks);
    HigherRunsFirst(hooks, BeginDrain, DrainWork);
    HigherRunsFirst(hooks, DrainWork, CoreShutdown);
    forall h | IsPhase(h)
      ensures h in Items(sorted)
    {
      DescendingSorts(hooks);
      assert Entry(h, CorePriority(h)) in multiset(hooks);
      assert Entry(h, CorePriority(h)) in multiset(sorted);
      var k :| 0 <= k < |sorted| && sorted[k] == Entry(h, CorePriority(h));
      assert Items(sorted)[k] == h;
    }
  }

  // ---------------------------------------------------------------------------
  // Background tasks coming and going while the hooks run.
  // ---------------------------------------------------------------------------

  datatype DrainResult = DrainResult(completed: nat, cancelled: nat, timedOut: bool)

  datatype Drain =
    | NotBegun
    | Waiting(snapshot: set<nat>)
    | Cancelling(snapshot: set<nat>, stragglers: set<nat>)
    | Drained(result: DrainResult, snapshot: set<nat>)

  /** `started` says whether core startup created the tracker and the session; `next` is the
      shutdown hook about to run or running. */
  datatype State = State(
    started: bool, draining: bool, live: set<nat>, accepted: set<nat>, sessionOpen: bool, drain: Drain,
    next: nat, order: seq<Hook>)

  datatype Step =
    | Submit(task: nat)
    | Finish(task: nat)
    | RunHook
    | WaitEnds
    | CancelEnds

  predicate Enabled(s: State, step: Step)
  {
    match step
    case Submit(t) => s.started && t !in s.accepted
    case Finish(t) => t in s.live
    case RunHook => s.next < |s.order| && !s.drain.Waiting? && !s.drain.Cancelling?
    case WaitEnds => s.drain.Waiting?
    case CancelEnds => s.drain.Cancelling?
  }

  /** A submission while draining is refused; `asyncio.wait` may end at any time (by completion or
      by its timeout) and cancelled tasks may still be running when the last wait ends. */
  function Next(s: State, step: Step): State
    requires Enabled(s, step)
  {
    match step
    case Submit(t) => if s.draining then s else s.(live := s.live + {t}, accepted := s.accepted + {t})
    case Finish(t) => s.(live := s.live - {t})
    case RunHook => HookRuns(s)
    case WaitEnds =>
      var (done, still) := (s.drain.snapshot - s.live, s.drain.snapshot * s.live);
      if still == {} then EndDrain(s, DrainResult(|done|, 0, false), s.drain.snapshot)
      else s.(drain := Cancelling(s.drain.snapshot, still))
    case CancelEnds =>
      var (snapshot, still) := (s.drain.snapshot, s.drain.stragglers);
      EndDrain(s, DrainResult(|snapshot - still|, |still|, true), snapshot)
  }

  function EndDrain(s: State, result: DrainResult, snapshot: set<nat>): State
  {
    s.(drain := Drained(result, snapshot), next := s.next + 1)
  }

  function HookRuns(s: State): State
    requires s.next < |s.order|
  {
    match s.order[s.next]
    case BeginDrain => s.(draining := s.draining || s.started, next := s.next + 1)
    case DrainWork =>
      if !s.started then s.(next := s.next + 1)
      else if s.live == {} then EndDrain(s.(draining := true), DrainResult(0, 0, false), {})
      else s.(draining := true, drain := Waiting(s.live))
    case CoreShutdown => s.(sessionOpen := false, next := s.next + 1)
    case _ => s.(next := s.next + 1)
  }

  ghost predicate Passed(s: State, hook: Hook)
  {
    s.next <= |s.order| && hook in s.order[..s.next]
  }

  ghost predicate Inv(s: State)
  {
    && s.next <= |s.order|
    && (s.started && (Passed(s, BeginDrain) || Passed(s, DrainWork) || s.drain != NotBegun) ==> s.draining)
    && (s.started && Passed(s, DrainWork) ==> s.drain != NotBegun)
    && (s.drain.Waiting? || s.drain.Cancelling? ==> s.started && s.next < |s.order| && s.order[s.next] == DrainWork)
    && (s.drain.Waiting? ==> s.live <= s.drain.snapshot)
    && (s.drain.Cancelling? ==> s.live <= s.drain.stragglers <= s.drain.snapshot && s.drain.stragglers != {})
    && (s.drain.Drained? ==> s.started && DrainAccounts(s.drain.result, |s.drain.snapshot|))
    && (s.drain.Drained? ==> s.live <= s.drain.snapshot && (s.drain.result.timedOut || s.live == {}))
    && (s.drain.Waiting? || s.drain.Cancelling? || s.drain.Drained? ==> s.drain.snapshot <= s.accepted)
    && s.live <= s.accepted
    && (!s.started ==> s.live == {})
    && (s.started && !s.sessionOpen ==> Passed(s, CoreShutdown))
  }

  /** Every task of the drain's snapshot is counted once, and a timeout means some were cancelled. */
  ghost predicate DrainAccounts(r: DrainResult, size: nat)
  {
    r.completed + r.cancelled == size && (r.timedOut <==> r.cancelled > 0)
  }

  ghost predicate Initial(s: State)
  {
    && CoreOrdered(s.order) && s.next == 0 && !s.draining && s.drain == NotBegun
    && (s.started ==> s.sessionOpen) && (!s.started ==> s.live == {}) && s.live <= s.accepted
  }

  lemma PassedGrows(order: seq<Hook>, n: nat, h: Hook)
    requires n < |order|
    ensures h in order[..n + 1] <==> h in order[..n] || h == order[n]
  {
    assert order[..n + 1] == order[..n] + [order[n]];
  }

  lemma HookKeepsInv(s: State)
    requires Inv(s) && Enabled(s, RunHook)
    ensures Inv(Next(s, RunHook))
  {
    PassedGrows(s.order, s.next, BeginDrain);
    PassedGrows(s.order, s.next, DrainWork);
    PassedGrows(s.order, s.next, CoreShutdown);
    match s.order[s.next] {
      case BeginDrain =>
      case DrainWork =>
      case CoreShutdown =>
      case _ =>
    }
  }

  lemma EndDrainKeepsInv(s: State, r: DrainResult)
    requires Inv(s) && (s.drain.Waiting? || s.drain.Cancelling?)
    requires DrainAccounts(r, |s.drain.snapshot|) && (r.timedOut || s.live == {})
    ensures Inv(EndDrain(s, r, s.drain.snapshot))
  {
    PassedGrows(s.order, s.next, BeginDrain);
    PassedGrows(s.order, s.next, DrainWork);
    PassedGrows(s.order, s.next, CoreShutdown);
  }

  lemma WaitKeepsInv(s: State)
    requires Inv(s) && Enabled(s, WaitEnds)
    ensures Inv(Next(s, WaitEnds))
  {
    var (snapshot, live) := (s.drain.snapshot, s.live);
    CountSplit(snapshot, live);
    if snapshot * live == {} {
      assert live == snapshot * live;
      EndDrainKeepsInv(s, DrainResult(|snapshot - live|, 0, false));
    }
    hide DrainAccounts, Passed;
  }

  lemma CancelKeepsInv(s: State)
    requires Inv(s) && Enabled(s, CancelEnds)
    ensures Inv(Next(s, CancelEnds))
  {
    var (snapshot, still) := (s.drain.snapshot, s.drain.stragglers);
    CountSplit(snapshot, still);
    assert snapshot * still == still;
    EndDrainKeepsInv(s, DrainResult(|snapshot - still|, |still|, true));
    hide Inv;
  }

  lemma TaskKeepsInv(s: State, step: Step)
    requires Inv(s) && Enabled(s, step) && (step.Submit? || step.Finish?)
    ensures Inv(Next(s, step))
  {
    hide DrainAccounts;
  }

  lemma InvKept(s: State, step: Step)
    requires Inv(s) && Enabled(s, step)
    ensures Inv(Next(s, step)) && Next(s, step).order == s.order
  {
    hide Inv;
    match step {
      case RunHook => HookKeepsInv(s);
      case WaitEnds => WaitKeepsInv(s);
      case CancelEnds => CancelKeepsInv(s);
      case _ => TaskKeepsInv(s, step);
    }
  }

  lemma CountSplit(a: set<nat>, b: set<nat>)
    ensures |a - b| + |a * b| == |a|
  {
    assert a == (a - b) + a * b;
  }

  ghost predicate Runs(s: State, steps: seq<Step>)
    decreases |steps|
  {
    steps == [] || (Enabled(s, steps[0]) && Runs(Next(s, steps[0]), steps[1..]))
  }

  ghost function After(s: State, steps: seq<Step>): State
    requires Runs(s, steps)
    decreases |steps|
  {
    if steps == [] then s else After(Next(s, steps[0]), steps[1..])
  }

  lemma {:induction false} RunKeepsInv(s: State, steps: seq<Step>)
    requires Inv(s) && Runs(s, steps)
    ensures Inv(After(s, steps)) && After(s, steps).order == s.order && After(s, steps).started == s.started
    decreases |steps|
  {
    if steps != [] {
      InvKept(s, steps[0]);
      assert Next(s, steps[0]).started == s.started;
      hide Inv, Enabled, Next;
      RunKeepsInv(Next(s, steps[0]), steps[1..]);
    }
  }

  /** Over every run of the shutdown, with tasks arriving and finishing at any time: once the
      session is closed, work had been refused and drained before; the drain's result accounts
      for its whole snapshot of accepted tasks, only tasks of that snapshot can still be live, and unless
      it timed out none is. */
  lemma ClosedOnlyAfterDrain(s: State, steps: seq<Step>)
    requires Initial(s) && s.started && Runs(s, steps) && !After(s, steps).sessionOpen
    ensures var u := After(s, steps);
            u.draining && u.drain.Drained? && DrainAccounts(u.drain.result, |u.drain.snapshot|) &&
            u.live <= u.drain.snapshot <= u.accepted && (!u.drain.result.timedOut ==> u.live == {})
  {
    RunKeepsInv(s, steps);
    var u := After(s, steps);
    var i :| 0 <= i < u.next && u.order[i] == CoreShutdown;
    assert IsPhase(DrainWork);
    var d :| 0 <= d < |u.order| && u.order[d] == DrainWork;
    assert Precedes(u.order, DrainWork, CoreShutdown) && d < i;
    assert u.order[..u.next][d] == DrainWork;
  }

  /** Once draining has begun, the set of accepted tasks never changes again and live ones only go. */
  lemma {:induction false} NothingAcceptedWhileDraining(s: State, steps: seq<Step>)
    requires s.draining && Runs(s, steps)
    ensures var u := After(s, steps); u.draining && u.accepted == s.accepted && u.live <= s.live
    decreases |steps|
  {
    if steps != [] {
      assert Next(s, steps[0]).draining;
      NothingAcceptedWhileDraining(Next(s, steps[0]), steps[1..]);
    }
  }

  /** The tracker of accepted background tasks. */
  class BackgroundWorkTracker {
    var tasks: set<nat>
    var draining: bool

    constructor ()
      ensures tasks == {} && !draining
    {
      tasks, draining := {}, false;
    }

    /** Register a new task, or refuse (RuntimeError) while draining. */
    method Track(task: nat) returns (accepted: bool)
      requires task !in tasks
      modifies this`tasks
      ensures accepted == !draining && tasks == old(tasks) + if accepted then {task} else {}
    {
      accepted := !draining;
      if accepted {
        tasks := tasks + {task};
      }
    }

    method MarkDraining()
      modifies this`draining
      ensures draining
    {
      draining := true;
    }

    /** Drain, given the snapshot tasks that finish before the timeout and those that finish after
        being cancelled. */
    method DrainTasks(inTime: set<nat>, afterCancel: set<nat>) returns (r: DrainResult)
      modifies this
      ensures draining && tasks <= old(tasks)
      ensures DrainAccounts(r, |old(tasks)|) && r.completed == |old(tasks) * inTime|
      ensures tasks == old(tasks) - inTime - (if r.timedOut then afterCancel else {})
      ensures !r.timedOut ==> tasks == {}
      ensures (r.timedOut <==> !(old(tasks) <= inTime)) && r.cancelled == |old(tasks) - inTime|
    {
      MarkDraining();
      var pending := tasks;
      if pending == {} {
        return DrainResult(0, 0, false);
      }
      var done, still := pending * inTime, pending - inTime;
      CountSplit(pending, inTime);
      tasks := tasks - done;
      assert tasks == still;
      var cancelled, rest := 0, still;
      while rest != {}
        invariant rest <= still && cancelled + |rest| == |still|
        decreases |rest|
      {
        var task :| task in rest;
        rest := rest - {task};
        cancelled := cancelled + 1;
      }
      if still != {} {
        tasks := tasks - afterCancel;
      }
      r := DrainResult(|done|, cancelled, still != {});
    }
  }
}

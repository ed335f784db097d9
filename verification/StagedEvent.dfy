/** The request-scoped SSE context and the incoming-message event staged on it. */
module StagedEvent {
  import opened Outcomes
  import opened Text

  /** Events of one scope: the staged incoming message, a reply sent by the bot, or other background work. */
  datatype Item = Incoming(payload: string) | Outgoing(n: nat) | Work(n: nat)

  /** Where flushed events are scheduled: the background tracker, or a bare task without one. Without a
      running event loop no task can be made at all. */
  datatype Tracker = NoTracker | Accepting | Draining | NoLoop

  predicate Refuses(t: Tracker)
  {
    t == Draining || t == NoLoop
  }

  datatype Identity = Identity(userId: string, bsuid: Option<string>, phoneNumber: Option<string>)

  /** `ready` are scheduled tasks the event loop has not run yet, `published` what reached the hub, and
      `lost` how often a claimed event could not be scheduled. `sending` are the sends awaiting the
      transport, with whether each has been suspended. */
  datatype Scope = Scope(
    identity: Identity, metadata: map<string, string>, pending: Option<string>, tracker: Tracker,
    ready: seq<Item>, published: seq<Item>, lost: nat, sending: map<nat, bool>)

  /** `flush_incoming_sse`: claim the staged event, and schedule it unless that is refused. */
  function Flush(s: Scope): Scope
  {
    match s.pending
    case None => s
    case Some(p) =>
      if Refuses(s.tracker) then s.(pending := None, lost := s.lost + 1)
      else s.(pending := None, ready := s.ready + [Incoming(p)])
  }

  /** A suspension of the running tasks: everything scheduled so far runs, in order. */
  function Suspend(s: Scope): Scope
  {
    s.(published := s.published + s.ready, ready := [], sending := map n | n in s.sending :: true)
  }

  /** One synchronous stretch of one of the tasks in the scope. A send flushes and awaits the transport,
      which may suspend or not and may fail; other tasks run in between; then it publishes the reply. */
  datatype Step =
    | UpdateMetadata(values: map<string, string>)
    | UpdateIdentity(userId: Option<string>, bsuid: Option<string>, phoneNumber: Option<string>)
    | FlushNow
    | StartSend(n: nat)
    | FinishSend(n: nat)
    | AbortSend(n: nat)
    | PostProcess
    | Schedule(n: nat)
    | Yield
    | StartDraining

  function Merge(i: Identity, userId: Option<string>, bsuid: Option<string>, phoneNumber: Option<string>): Identity
  {
    Identity(if userId.Some? then userId.value else i.userId,
             if bsuid.Some? then bsuid else i.bsuid,
             if phoneNumber.Some? then phoneNumber else i.phoneNumber)
  }

  predicate Enabled(s: Scope, step: Step)
  {
    match step
    case StartSend(n) => n !in s.sending
    case FinishSend(n) => n in s.sending
    case AbortSend(n) => n in s.sending
    case _ => true
  }

  function TrackerNext(t: Tracker, step: Step): Tracker
  {
    if step.StartDraining? && t == Accepting then Draining else t
  }

  function Next(s: Scope, step: Step): Scope
  {
    match step
    case UpdateMetadata(values) => Flush(s.(metadata := s.metadata + values))
    case UpdateIdentity(u, b, p) => Flush(s.(identity := Merge(s.identity, u, b, p)))
    case FlushNow => Flush(s)
    case PostProcess => Flush(s)
    case StartSend(n) => Flush(s.(sending := s.sending[n := false]))
    case FinishSend(n) => s.(published := s.published + [Outgoing(n)], sending := s.sending - {n})
    case AbortSend(n) => s.(sending := s.sending - {n})
    case Schedule(n) => if Refuses(s.tracker) then s else s.(ready := s.ready + [Work(n)])
    case Yield => Suspend(s)
    case StartDraining => s.(tracker := TrackerNext(s.tracker, step))
  }

  /** `log_incoming_message` stages the event. */
  function Stage(s: Scope, payload: string): Scope
  {
    s.(pending := Some(payload))
  }

  ghost predicate Runs(s: Scope, steps: seq<Step>)
    decreases |steps|
  {
    steps == [] || (Enabled(s, steps[0]) && Runs(Next(s, steps[0]), steps[1..]))
  }

  function After(s: Scope, steps: seq<Step>): Scope
    decreases |steps|
  {
    if steps == [] then s else After(Next(s, steps[0]), steps[1..])
  }

  /** The steps that flush the staged event. */
  predicate Flushes(step: Step)
  {
    step.UpdateMetadata? || step.UpdateIdentity? || step.FlushNow? || step.PostProcess? || step.StartSend?
  }

  function Incomings(items: seq<Item>): nat
  {
    if items == [] then 0 else Incomings(items[..|items| - 1]) + if items[|items| - 1].Incoming? then 1 else 0
  }

  lemma {:induction false} IncomingsConcat(a: seq<Item>, b: seq<Item>)
    ensures Incomings(a + b) == Incomings(a) + Incomings(b)
  {
    if b == [] {
      assert a + b == a;
    } else {
      IncomingsConcat(a, b[..|b| - 1]);
      assert (a + b)[..|a + b| - 1] == a + b[..|b| - 1];
    }
  }

  /** Where a staged event can be: still pending, scheduled, published or lost. */
  function Whereabouts(s: Scope): nat
  {
    (if s.pending.Some? then 1 else 0) + Incomings(s.ready) + Incomings(s.published) + s.lost
  }

  lemma FlushKeepsEvent(s: Scope)
    ensures Whereabouts(Flush(s)) == Whereabouts(s)
  {
    hide Incomings;
    if s.pending.Some? {
      IncomingsSnoc(s.ready, Incoming(s.pending.value));
    }
  }

  lemma SuspendKeepsEvent(s: Scope)
    ensures Whereabouts(Suspend(s)) == Whereabouts(s)
  {
    IncomingsConcat(s.published, s.ready);
    assert Incomings([]) == 0;
    hide Incomings;
  }

  lemma IncomingsSnoc(items: seq<Item>, item: Item)
    ensures Incomings(items + [item]) == Incomings(items) + if item.Incoming? then 1 else 0
  {
    assert (items + [item])[..|items|] == items;
  }

  lemma StepKeepsEvent(s: Scope, step: Step)
    ensures Whereabouts(Next(s, step)) == Whereabouts(s)
  {
    match step {
      case UpdateMetadata(values) => FlushKeepsEvent(s.(metadata := s.metadata + values));
      case UpdateIdentity(u, b, p) => FlushKeepsEvent(s.(identity := Merge(s.identity, u, b, p)));
      case FlushNow => FlushKeepsEvent(s);
      case PostProcess => FlushKeepsEvent(s);
      case StartSend(n) => FlushKeepsEvent(s.(sending := s.sending[n := false]));
      case FinishSend(n) =>
        hide Incomings;
        IncomingsSnoc(s.published, Outgoing(n));
      case AbortSend(n) =>
      case Schedule(n) =>
        hide Incomings;
        IncomingsSnoc(s.ready, Work(n));
      case Yield => SuspendKeepsEvent(s);
      case StartDraining =>
    }
  }

  /** Over any interleaving the staged event is in exactly one place: it is never claimed twice. */
  lemma {:induction false} StagedEventIsConserved(s: Scope, steps: seq<Step>)
    ensures Whereabouts(After(s, steps)) == Whereabouts(s)
    decreases |steps|
  {
    if steps != [] {
      StepKeepsEvent(s, steps[0]);
      hide Next, Whereabouts;
      StagedEventIsConserved(Next(s, steps[0]), steps[1..]);
    }
  }

  /** Scheduling is refused when the first flush comes. */
  predicate RefusedAtFirstFlush(s: Scope, steps: seq<Step>)
    decreases |steps|
  {
    steps != [] &&
    if Flushes(steps[0]) then Refuses(s.tracker) else RefusedAtFirstFlush(Next(s, steps[0]), steps[1..])
  }

  lemma {:induction false} LossIsDecidedAtFirstFlush(s: Scope, steps: seq<Step>)
    requires steps != [] && Flushes(steps[|steps| - 1])
    ensures After(s, steps).pending == None
    ensures After(s, steps).lost == s.lost + if s.pending.Some? && RefusedAtFirstFlush(s, steps) then 1 else 0
    decreases |steps|
  {
    if |steps| == 1 {
      assert steps[1..] == [];
    } else if Flushes(steps[0]) {
      assert Next(s, steps[0]).pending == None;
      NothingLeftToLose(Next(s, steps[0]), steps[1..]);
    } else {
      LossIsDecidedAtFirstFlush(Next(s, steps[0]), steps[1..]);
    }
  }

  lemma {:induction false} NothingLeftToLose(s: Scope, steps: seq<Step>)
    requires s.pending == None
    ensures After(s, steps).pending == None && After(s, steps).lost == s.lost
    decreases |steps|
  {
    if steps != [] {
      NothingLeftToLose(Next(s, steps[0]), steps[1..]);
    }
  }

  /** When processing returns normally (so post-processing flushes last), the one staged event has
      been scheduled exactly once, unless scheduling was refused when it was first flushed: then it is
      gone. */
  lemma ScheduledOnceUnlessRefused(s: Scope, payload: string, steps: seq<Step>)
    requires s.pending == None && Whereabouts(s) == 0
    requires steps != [] && steps[|steps| - 1].PostProcess?
    ensures var u := After(Stage(s, payload), steps);
            Incomings(u.ready) + Incomings(u.published)
            == if RefusedAtFirstFlush(Stage(s, payload), steps) then 0 else 1
  {
    StagedEventIsConserved(Stage(s, payload), steps);
    LossIsDecidedAtFirstFlush(Stage(s, payload), steps);
  }

  /** Even when processing fails before post-processing, the event is scheduled at most once. */
  lemma NeverScheduledTwice(s: Scope, payload: string, steps: seq<Step>)
    requires s.pending == None && Whereabouts(s) == 0
    ensures var u := After(Stage(s, payload), steps); Incomings(u.ready) + Incomings(u.published) <= 1
  {
    StagedEventIsConserved(Stage(s, payload), steps);
  }

  /** The scheduled tasks, in the order they run: everything but the replies, which are published in place. */
  function Tasks(items: seq<Item>): seq<Item>
  {
    if items == [] then []
    else Tasks(items[..|items| - 1]) + if items[|items| - 1].Outgoing? then [] else [items[|items| - 1]]
  }

  lemma {:induction false} TasksConcat(a: seq<Item>, b: seq<Item>)
    ensures Tasks(a + b) == Tasks(a) + Tasks(b)
  {
    if b == [] {
      assert a + b == a;
    } else {
      TasksConcat(a, b[..|b| - 1]);
      assert (a + b)[..|a + b| - 1] == a + b[..|b| - 1];
    }
  }

  function Order(s: Scope): seq<Item>
  {
    Tasks(s.published) + Tasks(s.ready)
  }

  lemma TasksSnoc(items: seq<Item>, item: Item)
    ensures Tasks(items + [item]) == Tasks(items) + if item.Outgoing? then [] else [item]
  {
    assert (items + [item])[..|items|] == items;
  }

  lemma FlushSchedulesLast(s: Scope)
    ensures Order(s) <= Order(Flush(s))
    ensures s.pending.Some? && !Refuses(s.tracker) ==> Order(Flush(s)) == Order(s) + [Incoming(s.pending.value)]
  {
    if s.pending.Some? {
      var item := Incoming(s.pending.value);
      hide Tasks;
      TasksSnoc(s.ready, item);
      Regroup(Tasks(s.published), Tasks(s.ready), [item]);
    }
  }

  lemma SuspendKeepsTasks(s: Scope)
    ensures Order(Suspend(s)) == Order(s)
  {
    TasksConcat(s.published, s.ready);
    assert Tasks([]) == [];
    hide Tasks;
  }

  lemma ReplyKeepsTasks(s: Scope, n: nat)
    ensures Order(Next(s, FinishSend(n))) == Order(s)
  {
    hide Tasks;
    TasksSnoc(s.published, Outgoing(n));
  }

  lemma StepKeepsOrder(s: Scope, step: Step)
    ensures Order(s) <= Order(Next(s, step))
  {
    match step {
      case UpdateMetadata(values) => FlushSchedulesLast(s.(metadata := s.metadata + values));
      case UpdateIdentity(u, b, p) => FlushSchedulesLast(s.(identity := Merge(s.identity, u, b, p)));
      case FlushNow => FlushSchedulesLast(s);
      case PostProcess => FlushSchedulesLast(s);
      case StartSend(n) => FlushSchedulesLast(s.(sending := s.sending[n := false]));
      case FinishSend(n) => ReplyKeepsTasks(s, n);
      case AbortSend(n) =>
      case Schedule(n) =>
        hide Tasks;
        TasksSnoc(s.ready, Work(n));
        Regroup(Tasks(s.published), Tasks(s.ready), [Work(n)]);
      case Yield => SuspendKeepsTasks(s);
      case StartDraining =>
    }
  }

  lemma {:induction false} OrderIsKept(s: Scope, steps: seq<Step>)
    ensures Order(s) <= Order(After(s, steps))
    decreases |steps|
  {
    if steps != [] {
      StepKeepsOrder(s, steps[0]);
      hide Next, Order;
      OrderIsKept(Next(s, steps[0]), steps[1..]);
    }
  }

  /** The flush that schedules the event puts it right behind what was scheduled before, so everything
      scheduled later, by whatever interleaving, runs after it. */
  lemma ScheduledAheadOfLaterWork(s: Scope, payload: string, steps: seq<Step>)
    requires !Refuses(s.tracker)
    ensures Order(s) + [Incoming(payload)] <= Order(After(Flush(Stage(s, payload)), steps))
  {
    FlushSchedulesLast(Stage(s, payload));
    OrderIsKept(Flush(Stage(s, payload)), steps);
  }

  // ---------------------------------------------------------------------------
  // The incoming message before the replies to it.
  // ---------------------------------------------------------------------------

  ghost predicate HasIncoming(items: seq<Item>)
  {
    exists j :: 0 <= j < |items| && items[j].Incoming?
  }

  ghost predicate NoReplies(items: seq<Item>)
  {
    forall j :: 0 <= j < |items| ==> !items[j].Outgoing?
  }

  /** A reply is published only behind an incoming event. */
  ghost predicate RepliesFollow(items: seq<Item>)
  {
    forall i :: 0 <= i < |items| && items[i].Outgoing? ==> HasIncoming(items[..i])
  }

  /** How far the incoming event has come: not there (never staged, or lost), staged, scheduled or published. */
  datatype Place = Absent | Staged | Scheduled | Out

  ghost function PlaceOf(s: Scope): Place
  {
    if HasIncoming(s.published) then Out
    else if HasIncoming(s.ready) then Scheduled
    else if s.pending.Some? then Staged
    else Absent
  }

  function PlaceNext(tracker: Tracker, place: Place, step: Step): Place
  {
    if Flushes(step) && place == Staged then (if Refuses(tracker) then Absent else Scheduled)
    else if step.Yield? && place == Scheduled then Out
    else place
  }

  /** Read off the steps alone: no reply is published before an accepted flush and then a suspension
      have brought the event out. */
  predicate InTime(tracker: Tracker, place: Place, steps: seq<Step>)
    decreases |steps|
  {
    steps == [] ||
    ((steps[0].FinishSend? ==> place == Out) &&
     InTime(TrackerNext(tracker, steps[0]), PlaceNext(tracker, place, steps[0]), steps[1..]))
  }

  lemma IncomingGrows(items: seq<Item>, more: seq<Item>)
    ensures HasIncoming(items + more) <==> HasIncoming(items) || HasIncoming(more)
  {
    var all := items + more;
    assert forall j :: 0 <= j < |items| ==> all[j] == items[j];
    assert forall j :: 0 <= j < |more| ==> all[|items| + j] == more[j];
  }

  lemma FlushMoves(s: Scope)
    ensures PlaceOf(Flush(s)) == PlaceNext(s.tracker, PlaceOf(s), FlushNow)
  {
    if s.pending.Some? {
      IncomingGrows(s.ready, [Incoming(s.pending.value)]);
      assert [Incoming(s.pending.value)][0].Incoming?;
    }
    hide HasIncoming;
  }

  lemma StepMoves(s: Scope, step: Step)
    ensures PlaceOf(Next(s, step)) == PlaceNext(s.tracker, PlaceOf(s), step)
    ensures Next(s, step).tracker == TrackerNext(s.tracker, step)
  {
    match step {
      case UpdateMetadata(values) => FlushMoves(s.(metadata := s.metadata + values));
      case UpdateIdentity(u, b, p) => FlushMoves(s.(identity := Merge(s.identity, u, b, p)));
      case FlushNow => FlushMoves(s);
      case PostProcess => FlushMoves(s);
      case StartSend(n) => FlushMoves(s.(sending := s.sending[n := false]));
      case FinishSend(n) => IncomingGrows(s.published, [Outgoing(n)]);
      case Schedule(n) => IncomingGrows(s.ready, [Work(n)]);
      case Yield => IncomingGrows(s.published, s.ready);
      case _ =>
    }
  }

  lemma FollowersGrow(items: seq<Item>, more: seq<Item>)
    requires RepliesFollow(items) && (NoReplies(more) || HasIncoming(items))
    ensures RepliesFollow(items + more)
  {
    var all := items + more;
    forall i | 0 <= i < |all| && all[i].Outgoing?
      ensures HasIncoming(all[..i])
    {
      if i < |items| {
        assert all[..i] == items[..i];
      } else {
        assert all[..i] == items + more[..i - |items|];
        IncomingGrows(items, more[..i - |items|]);
        assert all[i] == more[i - |items|];
      }
    }
  }

  lemma FollowersOfPrefix(items: seq<Item>, all: seq<Item>)
    requires items <= all && RepliesFollow(all)
    ensures RepliesFollow(items)
  {
    forall i | 0 <= i < |items| && items[i].Outgoing?
      ensures HasIncoming(items[..i])
    {
      assert all[..i] == items[..i];
    }
  }

  lemma {:induction false} PublishedGrows(s: Scope, steps: seq<Step>)
    ensures s.published <= After(s, steps).published
    decreases |steps|
  {
    if steps != [] {
      PublishedGrows(Next(s, steps[0]), steps[1..]);
    }
  }

  /** A step keeps the replies behind the event, unless it publishes one before the event is out. */
  lemma StepFollows(s: Scope, step: Step)
    requires RepliesFollow(s.published) && NoReplies(s.ready)
    ensures NoReplies(Next(s, step).ready)
    ensures RepliesFollow(Next(s, step).published) <==> (step.FinishSend? ==> PlaceOf(s) == Out)
  {
    if step.Yield? {
      FollowersGrow(s.published, s.ready);
    } else if step.FinishSend? {
      var reply := [Outgoing(step.n)];
      var all := s.published + reply;
      assert all[..|s.published|] == s.published && all[|s.published|].Outgoing?;
      if HasIncoming(s.published) {
        FollowersGrow(s.published, reply);
      }
    }
    hide HasIncoming, RepliesFollow;
  }

  /** Over every run, whatever is sent, flushed, scheduled, aborted or drained in between: all replies follow
      the incoming event if and only if the steps bring it out in time. */
  lemma {:induction false} RepliesFollowIff(s: Scope, steps: seq<Step>)
    requires Runs(s, steps) && RepliesFollow(s.published) && NoReplies(s.ready)
    ensures RepliesFollow(After(s, steps).published) <==> InTime(s.tracker, PlaceOf(s), steps)
    decreases |steps|
  {
    if steps != [] {
      StepMoves(s, steps[0]);
      StepFollows(s, steps[0]);
      hide Next, PlaceOf, PlaceNext, RepliesFollow, NoReplies;
      if steps[0].FinishSend? && PlaceOf(s) != Out {
        PublishedGrows(Next(s, steps[0]), steps[1..]);
        if RepliesFollow(After(s, steps).published) {
          FollowersOfPrefix(Next(s, steps[0]).published, After(s, steps).published);
        }
      } else {
        RepliesFollowIff(Next(s, steps[0]), steps[1..]);
      }
    }
  }

  /** The same from the moment the event is staged in a fresh scope. */
  lemma StagedRepliesFollowIff(s: Scope, payload: string, steps: seq<Step>)
    requires s.ready == [] && s.published == [] && Runs(Stage(s, payload), steps)
    ensures RepliesFollow(After(Stage(s, payload), steps).published) <==> InTime(s.tracker, Staged, steps)
  {
    RepliesFollowIff(Stage(s, payload), steps);
  }

  /** Every send is suspended between its flush and its reply, and scheduling is never refused. */
  predicate SendsSuspend(s: Scope, steps: seq<Step>)
    decreases |steps|
  {
    !Refuses(s.tracker) &&
    (steps == [] ||
     ((steps[0].FinishSend? ==> steps[0].n in s.sending && s.sending[steps[0].n]) &&
      SendsSuspend(Next(s, steps[0]), steps[1..])))
  }

  /** A send in flight has flushed, and one that has been suspended has let the event out. */
  ghost predicate SendsKnowPlace(s: Scope, place: Place)
  {
    && place != Absent && (s.sending != map[] ==> place != Staged)
    && forall n :: n in s.sending && s.sending[n] ==> place == Out
  }

  lemma StepKnowsPlace(s: Scope, place: Place, step: Step)
    requires SendsKnowPlace(s, place) && !Refuses(s.tracker)
    ensures SendsKnowPlace(Next(s, step), PlaceNext(s.tracker, place, step))
  {
    assert step.Yield? && s.sending == map[] ==> Suspend(s).sending == map[];
    assert (step.FinishSend? || step.AbortSend?) && s.sending == map[] ==> s.sending - {step.n} == map[];
  }

  lemma {:induction false} SuspendedSendsAreInTime(s: Scope, place: Place, steps: seq<Step>)
    requires SendsKnowPlace(s, place) && SendsSuspend(s, steps)
    ensures InTime(s.tracker, place, steps)
    decreases |steps|
  {
    if steps != [] {
      StepKnowsPlace(s, place, steps[0]);
      StepMoves(s, steps[0]);
      hide Next, PlaceNext, SendsKnowPlace;
      SuspendedSendsAreInTime(Next(s, steps[0]), PlaceNext(s.tracker, place, steps[0]), steps[1..]);
    }
  }

  /** If every send suspends and scheduling is never refused, then over any interleaving, with other tasks
      running while sends wait, the incoming event is published before every reply. */
  lemma IncomingBeforeReplies(s: Scope, payload: string, steps: seq<Step>)
    requires s.ready == [] && s.published == [] && s.sending == map[]
    requires Runs(Stage(s, payload), steps) && SendsSuspend(Stage(s, payload), steps)
    ensures RepliesFollow(After(Stage(s, payload), steps).published)
  {
    SuspendedSendsAreInTime(Stage(s, payload), Staged, steps);
    StagedRepliesFollowIff(s, payload, steps);
  }

  /** ... which they need not be: a send that flushes and does not suspend overtakes the event it flushed. */
  lemma HastySendOvertakes(s: Scope, payload: string, n: nat)
    requires s.ready == [] && s.published == [] && s.sending == map[]
    ensures !RepliesFollow(After(Stage(s, payload), [StartSend(n), FinishSend(n)]).published)
  {
    var steps := [StartSend(n), FinishSend(n)];
    var staged := Stage(s, payload);
    assert steps[1..] == [FinishSend(n)] && [FinishSend(n)][1..] == [];
    assert Runs(Next(Next(staged, steps[0]), FinishSend(n)), []);
    assert Runs(Next(staged, steps[0]), steps[1..]);
    StagedRepliesFollowIff(s, payload, steps);
    assert !InTime(s.tracker, PlaceNext(s.tracker, Staged, steps[0]), steps[1..]);
  }

  // ---------------------------------------------------------------------------
  // The context object of the source.
  // ---------------------------------------------------------------------------

  class SSEEventContext {
    var identity: Identity
    var metadata: map<string, string>
    var pendingIncoming: Option<string>
    var hasFlush: bool
    var tracker: Tracker
    var ready: seq<Item>
    ghost var published: seq<Item>
    ghost var lost: nat
    ghost var sending: map<nat, bool>

    ghost predicate Valid()
      reads this
    {
      pendingIncoming.Some? ==> hasFlush
    }

    ghost function Show(): Scope
      reads this
    {
      Scope(identity, metadata, pendingIncoming, tracker, ready, published, lost, sending)
    }

    /** What was staged has been claimed: scheduled, or lost with a draining tracker or without a running loop. */
    ghost predicate Flushed(staged: Option<string>, readyBefore: seq<Item>, lostBefore: nat)
      reads this
    {
      && pendingIncoming == None
      && match staged
         case None => ready == readyBefore && lost == lostBefore
         case Some(payload) =>
           if tracker in {Draining, NoLoop} then ready == readyBefore && lost == lostBefore + 1
           else ready == readyBefore + [Incoming(payload)] && lost == lostBefore
    }

    constructor (identity: Identity, metadata: map<string, string>, tracker: Tracker)
      ensures Valid() && Show() == Scope(identity, metadata, None, tracker, [], [], 0, map[])
    {
      this.identity, this.metadata, this.tracker := identity, metadata, tracker;
      pendingIncoming, hasFlush, ready, published, lost, sending := None, false, [], [], 0, map[];
    }

    method LogIncomingMessage(payload: string)
      requires Valid()
      modifies this
      ensures Valid() && Show() == Stage(old(Show()), payload)
      ensures pendingIncoming == Some(payload) && ready == old(ready) && published == old(published)
    {
      pendingIncoming := Some(payload);
      hasFlush := true;
    }

    method FlushIncoming()
      requires Valid()
      modifies this
      ensures Valid() && Show() == Flush(old(Show())) && Flushed(old(pendingIncoming), old(ready), old(lost))
      ensures identity == old(identity) && metadata == old(metadata) && published == old(published)
    {
      if pendingIncoming.None? || !hasFlush {
        return;
      }
      var pending := pendingIncoming.value;
      pendingIncoming := None;
      hasFlush := false;
      if Refuses(tracker) {
        lost := lost + 1;
      } else {
        ready := ready + [Incoming(pending)];
      }
    }

    method MergeMetadata(values: map<string, string>)
      requires Valid()
      modifies this
      ensures Valid() && Show() == Next(old(Show()), UpdateMetadata(values))
      ensures metadata.Keys == old(metadata).Keys + values.Keys
      ensures forall k :: k in metadata ==> metadata[k] == if k in values then values[k] else old(metadata)[k]
      ensures Flushed(old(pendingIncoming), old(ready), old(lost)) && identity == old(identity)
    {
      metadata := metadata + values;
      FlushIncoming();
    }

    method OverrideIdentity(userId: Option<string>, bsuid: Option<string>, phoneNumber: Option<string>)
      requires Valid()
      modifies this
      ensures Valid() && Show() == Next(old(Show()), UpdateIdentity(userId, bsuid, phoneNumber))
      ensures identity.userId == if userId == None then old(identity).userId else userId.value
      ensures identity.bsuid == if bsuid == None then old(identity).bsuid else bsuid
      ensures identity.phoneNumber == if phoneNumber == None then old(identity).phoneNumber else phoneNumber
      ensures Flushed(old(pendingIncoming), old(ready), old(lost)) && metadata == old(metadata)
    {
      if userId.Some? {
        identity := identity.(userId := userId.value);
      }
      if bsuid.Some? {
        identity := identity.(bsuid := bsuid);
      }
      if phoneNumber.Some? {
        identity := identity.(phoneNumber := phoneNumber);
      }
      FlushIncoming();
    }
  }
}

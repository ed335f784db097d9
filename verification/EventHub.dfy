/** One subscriber's bounded queue: enqueuing never blocks, a full queue drops its oldest event. */
module SubscriberQueue {
  import opened Text

  datatype Step<T> = Offer(event: T) | Take

  function Enqueue<T>(queue: seq<T>, event: T, capacity: nat): seq<T>
    requires capacity >= 1
  {
    if |queue| < capacity then queue + [event] else queue[1..] + [event]
  }

  /** The queue after a history of offers and takes; taking from an empty queue waits. */
  function QueueAfter<T>(log: seq<Step<T>>, capacity: nat): (q: seq<T>)
    requires capacity >= 1
    ensures |q| <= capacity
  {
    if log == [] then [] else
      var q := QueueAfter(log[..|log| - 1], capacity);
      match log[|log| - 1]
      case Offer(e) => Enqueue(q, e, capacity)
      case Take => if q == [] then [] else q[1..]
  }

  function Offered<T>(log: seq<Step<T>>): seq<T>
  {
    if log == [] then [] else
      Offered(log[..|log| - 1]) + match log[|log| - 1] case Offer(e) => [e] case Take => []
  }

  function Consumed<T>(log: seq<Step<T>>, capacity: nat): seq<T>
    requires capacity >= 1
  {
    if log == [] then [] else
      var before := log[..|log| - 1];
      var q := QueueAfter(before, capacity);
      Consumed(before, capacity) + if log[|log| - 1].Take? && q != [] then [q[0]] else []
  }

  function Dropped<T>(log: seq<Step<T>>, capacity: nat): nat
    requires capacity >= 1
  {
    if log == [] then 0 else
      var before := log[..|log| - 1];
      Dropped(before, capacity) +
      if log[|log| - 1].Offer? && |QueueAfter(before, capacity)| >= capacity then 1 else 0
  }

  /** For each consumed event, its position among the offered ones. */
  ghost function Positions<T>(log: seq<Step<T>>, capacity: nat): seq<int>
    requires capacity >= 1
  {
    if log == [] then [] else
      var before := log[..|log| - 1];
      var q := QueueAfter(before, capacity);
      Positions(before, capacity) + if log[|log| - 1].Take? && q != [] then [|Offered(before)| - |q|] else []
  }

  /** How many offers were made up to and including the last one consumed. */
  ghost function Mark<T>(log: seq<Step<T>>, capacity: nat): int
    requires capacity >= 1
  {
    var at := Positions(log, capacity);
    if at == [] then 0 else at[|at| - 1] + 1
  }

  /** `queue` is the newest `min(capacity, |offered| - mark)` of the offered events. */
  ghost predicate Newest<T(!new)>(queue: seq<T>, offered: seq<T>, mark: int, capacity: nat)
  {
    var n := |offered| - mark;
    0 <= n && |queue| == (if n < capacity then n else capacity) <= |offered| && queue == offered[|offered| - |queue|..]
  }

  lemma NewestAfterOffer<T(!new)>(queue: seq<T>, offered: seq<T>, mark: nat, capacity: nat, event: T)
    requires capacity >= 1 && Newest(queue, offered, mark, capacity)
    ensures Newest(Enqueue(queue, event, capacity), offered + [event], mark, capacity)
  {
    var queue', offered' := Enqueue(queue, event, capacity), offered + [event];
    assert queue' == offered'[|offered'| - |queue'|..];
  }

  lemma NewestAfterTake<T(!new)>(queue: seq<T>, offered: seq<T>, mark: nat, capacity: nat)
    requires queue != [] && Newest(queue, offered, mark, capacity)
    ensures Newest(queue[1..], offered, |offered| - |queue| + 1, capacity)
  {
  }

  /** The queue is exactly the newest `min(capacity, offers since the last consumed one)` offers. */
  lemma {:induction false} QueueIsNewestUnconsumed<T(!new)>(log: seq<Step<T>>, capacity: nat)
    requires capacity >= 1
    ensures Mark(log, capacity) >= 0
    ensures Newest(QueueAfter(log, capacity), Offered(log), Mark(log, capacity), capacity)
  {
    if log == [] {
      EmptyLog<T>(capacity);
    } else {
      hide *;
      QueueIsNewestUnconsumed(log[..|log| - 1], capacity);
      StepKeepsNewest(log[..|log| - 1], log[|log| - 1], capacity);
      Unsnoc(log);
    }
  }

  lemma StepKeepsNewest<T(!new)>(before: seq<Step<T>>, step: Step<T>, capacity: nat)
    requires capacity >= 1 && Mark(before, capacity) >= 0
    requires Newest(QueueAfter(before, capacity), Offered(before), Mark(before, capacity), capacity)
    ensures var log := before + [step];
            Mark(log, capacity) >= 0 && Newest(QueueAfter(log, capacity), Offered(log), Mark(log, capacity), capacity)
  {
    hide *;
    var q, offered, mark := QueueAfter(before, capacity), Offered(before), Mark(before, capacity);
    MarkGrows(before, step, capacity);
    LogGrows(before, step, capacity);
    match step {
      case Offer(e) => NewestAfterOffer(q, offered, mark, capacity, e);
      case Take =>
        NothingAdded(offered);
        NewestFits(q, offered, mark, capacity);
        if q != [] {
          NewestAfterTake(q, offered, mark, capacity);
        }
    }
  }

  lemma NothingAdded<T>(s: seq<T>)
    ensures s + [] == s
  {
  }

  lemma NewestFits<T(!new)>(queue: seq<T>, offered: seq<T>, mark: nat, capacity: nat)
    requires Newest(queue, offered, mark, capacity)
    ensures mark <= |offered| - |queue| && (queue != [] ==> queue[0] == offered[|offered| - |queue|])
  {
  }

  /** What was consumed is offered events at strictly increasing positions, all before the queue's. */
  lemma {:induction false} ConsumedInOrder<T(!new)>(log: seq<Step<T>>, capacity: nat)
    requires capacity >= 1
    ensures InOrder(Positions(log, capacity), Consumed(log, capacity), Offered(log))
    ensures 0 <= Mark(log, capacity) <= |Offered(log)| - |QueueAfter(log, capacity)|
  {
    MarkFits(log, capacity);
    if log == [] {
      hide *;
      InOrderNothing<T>();
      EmptyLog<T>(capacity);
    } else {
      hide *;
      ConsumedInOrder(log[..|log| - 1], capacity);
      StepInOrder(log[..|log| - 1], log[|log| - 1], capacity);
      Unsnoc(log);
    }
  }

  lemma EmptyLog<T(!new)>(capacity: nat)
    requires capacity >= 1
    ensures Positions<T>([], capacity) == [] && Consumed<T>([], capacity) == [] && Offered<T>([]) == []
  {
  }

  lemma StepInOrder<T(!new)>(before: seq<Step<T>>, step: Step<T>, capacity: nat)
    requires capacity >= 1 && InOrder(Positions(before, capacity), Consumed(before, capacity), Offered(before))
    ensures var log := before + [step]; InOrder(Positions(log, capacity), Consumed(log, capacity), Offered(log))
  {
    var at, taken := Positions(before, capacity), Consumed(before, capacity);
    var q, offered := QueueAfter(before, capacity), Offered(before);
    MarkFits(before, capacity);
    PositionsGrow(before, step, capacity);
    ConsumedGrow(before, step, capacity);
    LogGrows(before, step, capacity);
    assert at != [] ==> at[|at| - 1] + 1 == Mark(before, capacity);
    hide *;
    if step.Take? && q != [] {
      InOrderTake(at, taken, offered, |offered| - |q|);
    } else {
      InOrderOffer(at, taken, offered, Offered(before + [step]));
    }
  }

  lemma PositionsGrow<T>(before: seq<Step<T>>, step: Step<T>, capacity: nat)
    requires capacity >= 1
    ensures var q := QueueAfter(before, capacity);
            Positions(before + [step], capacity)
            == Positions(before, capacity) + if step.Take? && q != [] then [|Offered(before)| - |q|] else []
  {
    hide QueueAfter, Offered;
    Snoc(before, step);
  }

  lemma ConsumedGrow<T>(before: seq<Step<T>>, step: Step<T>, capacity: nat)
    requires capacity >= 1
    ensures var q := QueueAfter(before, capacity);
            Consumed(before + [step], capacity)
            == Consumed(before, capacity) + if step.Take? && q != [] then [q[0]] else []
  {
    hide QueueAfter;
    Snoc(before, step);
  }

  lemma MarkGrows<T>(before: seq<Step<T>>, step: Step<T>, capacity: nat)
    requires capacity >= 1
    ensures var q := QueueAfter(before, capacity);
            Mark(before + [step], capacity)
            == if step.Take? && q != [] then |Offered(before)| - |q| + 1 else Mark(before, capacity)
  {
    hide QueueAfter, Offered, Positions;
    PositionsGrow(before, step, capacity);
    if step.Take? && QueueAfter(before, capacity) != [] {
      Snoc(Positions(before, capacity), |Offered(before)| - |QueueAfter(before, capacity)|);
    }
  }

  lemma MarkFits<T(!new)>(log: seq<Step<T>>, capacity: nat)
    requires capacity >= 1
    ensures var q, offered := QueueAfter(log, capacity), Offered(log);
            0 <= Mark(log, capacity) <= |offered| - |q| && (q != [] ==> q[0] == offered[|offered| - |q|])
  {
    hide Newest, QueueAfter, Offered, Mark;
    QueueIsNewestUnconsumed(log, capacity);
    NewestFits(QueueAfter(log, capacity), Offered(log), Mark(log, capacity), capacity);
  }

  /** `taken` are the elements of `offered` at the strictly increasing positions `at`. */
  ghost predicate InOrder<T(!new)>(at: seq<int>, taken: seq<T>, offered: seq<T>)
  {
    && |at| == |taken|
    && (forall i :: 0 <= i < |at| ==> 0 <= at[i] < |offered| && taken[i] == offered[at[i]])
    && (forall i, j :: 0 <= i < j < |at| ==> at[i] < at[j])
  }

  lemma InOrderNothing<T(!new)>()
    ensures InOrder<T>([], [], [])
  {
  }

  lemma InOrderOffer<T(!new)>(at: seq<int>, taken: seq<T>, offered: seq<T>, offered': seq<T>)
    requires InOrder(at, taken, offered) && offered <= offered'
    ensures InOrder(at + [], taken + [], offered')
  {
    assert at + [] == at && taken + [] == taken;
  }

  lemma InOrderTake<T(!new)>(at: seq<int>, taken: seq<T>, offered: seq<T>, next: int)
    requires InOrder(at, taken, offered) && 0 <= next < |offered|
    requires at != [] ==> at[|at| - 1] < next
    ensures InOrder(at + [next], taken + [offered[next]], offered + [])
  {
    assert offered + [] == offered;
  }

  lemma {:induction false} NothingElseIsLost<T>(log: seq<Step<T>>, capacity: nat)
    requires capacity >= 1
    ensures |Offered(log)| == |Consumed(log, capacity)| + |QueueAfter(log, capacity)| + Dropped(log, capacity)
  {
    if log != [] {
      NothingElseIsLost(log[..|log| - 1], capacity);
    }
  }

  lemma LogGrows<T>(log: seq<Step<T>>, step: Step<T>, capacity: nat)
    requires capacity >= 1
    ensures var log' := log + [step];
            QueueAfter(log', capacity) == match step
              case Offer(e) => Enqueue(QueueAfter(log, capacity), e, capacity)
              case Take => var q := QueueAfter(log, capacity); if q == [] then [] else q[1..]
    ensures Offered(log + [step]) == Offered(log) + match step case Offer(e) => [e] case Take => []
  {
    assert (log + [step])[..|log|] == log;
  }
}

/** `SSEEventHub`: fan-out of events to filtered subscribers. */
module EventHub {
  import opened Outcomes
  import opened SubscriberQueue
  import Text

  datatype Event = Event(id: string, eventType: string, inboxId: string, userId: string, payload: string)

  datatype Filter = Filter(inboxId: Option<string>, userId: Option<string>, eventTypes: Option<set<string>>)

  predicate Matches(f: Filter, e: Event)
  {
    && (f.inboxId.Some? ==> f.inboxId.value == e.inboxId)
    && (f.userId.Some? ==> f.userId.value == e.userId)
    && (f.eventTypes.Some? ==> e.eventType in f.eventTypes.value)
  }

  /** No types, or an empty set of them, means every type; otherwise the kept types are the given ones
      without the white space around them, blank ones dropped. */
  function NormalizeTypes(eventTypes: Option<set<string>>): (types: Option<set<string>>)
    ensures types.None? <==> eventTypes.None? || eventTypes.value == {}
    ensures types.Some? ==>
      forall t :: t in types.value <==> exists given :: given in eventTypes.value && Text.TrimmedForm(given, t)
  {
    if eventTypes.None? || eventTypes.value == {} then None
    else
      var kept := set t | t in eventTypes.value && Text.Strip(t) != "" :: Text.Strip(t);
      KeptTypes(eventTypes.value, kept);
      Some(kept)
  }

  lemma KeptTypes(given: set<string>, kept: set<string>)
    requires kept == set t | t in given && Text.Strip(t) != "" :: Text.Strip(t)
    ensures forall t :: t in kept <==> exists g :: g in given && Text.TrimmedForm(g, t)
  {
    hide Text.TrimmedForm, Text.Strip;
    forall g, t
      ensures Text.TrimmedForm(g, t) <==> t == Text.Strip(g) && t != ""
    {
      Text.StripIsTrimmedForm(g, t);
    }
  }

  predicate IsCloseEvent(e: Event)
  {
    e.eventType == "stream_closed" && e.inboxId == "system" && e.userId == "system"
  }

  /** A subscriber as the hub's history shows it: its filter and what happened to its queue. */
  datatype Subscriber = Subscriber(filter: Filter, log: seq<SubscriberQueue.Step<Event>>)

  datatype Hub = Hub(capacity: nat, subs: map<nat, Subscriber>, registered: seq<nat>)

  datatype HubStep =
    | Subscribe(id: nat, filter: Filter)
    | Unsubscribe(id: nat)
    | Publish(event: Event)
    | Shutdown(close: Event)
    | Consume(id: nat)

  ghost predicate ValidHub(h: Hub)
  {
    && h.capacity >= 1
    && (forall i :: 0 <= i < |h.registered| ==> h.registered[i] in h.subs)
    && Distinct(h.registered)
  }

  predicate Possible(h: Hub, step: HubStep)
  {
    match step
    case Subscribe(id, _) => id !in h.subs
    case Consume(id) => id in h.subs
    case Shutdown(close) => IsCloseEvent(close)
    case _ => true
  }

  ghost predicate Distinct(ids: seq<nat>)
  {
    forall i, j :: 0 <= i < j < |ids| ==> ids[i] != ids[j]
  }

  function Without(ids: seq<nat>, id: nat): (r: seq<nat>)
    ensures id !in r && forall k :: k != id ==> (k in r <==> k in ids)
  {
    if ids == [] then []
    else
      assert ids == [ids[0]] + ids[1..];
      (if ids[0] == id then [] else [ids[0]]) + Without(ids[1..], id)
  }

  lemma {:induction false} WithoutKeepsDistinct(ids: seq<nat>, id: nat)
    requires Distinct(ids)
    ensures Distinct(Without(ids, id))
  {
    if ids != [] {
      WithoutKeepsDistinct(ids[1..], id);
      assert ids[0] !in ids[1..];
      assert ids[0] != id ==> ids[0] !in Without(ids[1..], id);
    }
  }

  /** Who a published event reaches: the registered subscribers each of whose filters is absent or agrees
      with the event. */
  ghost function Audience(h: Hub, e: Event): (ids: set<nat>)
    ensures forall id :: id in ids <==>
      && id in h.registered && id in h.subs
      && h.subs[id].filter.inboxId in {None, Some(e.inboxId)}
      && h.subs[id].filter.userId in {None, Some(e.userId)}
      && (h.subs[id].filter.eventTypes.None? || e.eventType in h.subs[id].filter.eventTypes.value)
  {
    set id | id in h.registered && id in h.subs && Matches(h.subs[id].filter, e)
  }

  function Offering(s: Subscriber, e: Event): Subscriber
  {
    s.(log := s.log + [Offer(e)])
  }

  function Next(h: Hub, step: HubStep): Hub
    requires Possible(h, step)
  {
    match step
    case Subscribe(id, filter) =>
      h.(subs := h.subs[id := Subscriber(filter, [])], registered := h.registered + [id])
    case Unsubscribe(id) => h.(registered := Without(h.registered, id))
    case Publish(e) =>
      h.(subs := map id | id in h.subs ::
           if id in h.registered && Matches(h.subs[id].filter, e) then Offering(h.subs[id], e) else h.subs[id])
    case Shutdown(close) =>
      h.(subs := map id | id in h.subs :: if id in h.registered then Offering(h.subs[id], close) else h.subs[id],
         registered := [])
    case Consume(id) => h.(subs := h.subs[id := h.subs[id].(log := h.subs[id].log + [Take])])
  }

  ghost predicate Runs(h: Hub, steps: seq<HubStep>)
    decreases |steps|
  {
    steps == [] || (Possible(h, steps[0]) && Runs(Next(h, steps[0]), steps[1..]))
  }

  ghost function After(h: Hub, steps: seq<HubStep>): Hub
    requires Runs(h, steps)
    decreases |steps|
  {
    if steps == [] then h else After(Next(h, steps[0]), steps[1..])
  }

  /** The published events a subscriber should have been offered while registered with this filter. */
  ghost function MatchingPublishes(h: Hub, steps: seq<HubStep>, id: nat): seq<Event>
    requires Runs(h, steps)
    decreases |steps|
  {
    if steps == [] then [] else Heard(h, steps[0], id) + MatchingPublishes(Next(h, steps[0]), steps[1..], id)
  }

  /** What a step offers a subscriber: a published event it matches, or the close event, while registered. */
  ghost function Heard(h: Hub, step: HubStep, id: nat): seq<Event>
  {
    match step
    case Publish(e) => if id in Audience(h, e) then [e] else []
    case Shutdown(close) => if id in h.registered then [close] else []
    case _ => []
  }

  lemma Associates<T>(a: seq<T>, b: seq<T>, c: seq<T>)
    ensures (a + b) + c == a + (b + c)
  {
  }

  /** Over any run a known subscriber is offered exactly the events published while it was
      registered that match its filter, and the close event of a shutdown, in order. */
  lemma {:induction false} OfferedAreMatchingPublishes(h: Hub, steps: seq<HubStep>, id: nat)
    requires ValidHub(h) && Runs(h, steps) && id in h.subs
    ensures var h' := After(h, steps);
            id in h'.subs && h'.subs[id].filter == h.subs[id].filter &&
            Offered(h'.subs[id].log) == Offered(h.subs[id].log) + MatchingPublishes(h, steps, id)
    decreases |steps|
  {
    if steps != [] {
      hide Next, Possible, ValidHub, Offered, Heard;
      StepKeepsHub(h, steps[0]);
      OfferedByStep(h, steps[0], id);
      var h1 := Next(h, steps[0]);
      OfferedAreMatchingPublishes(h1, steps[1..], id);
      hide Runs, After, MatchingPublishes;
      Associates(Offered(h.subs[id].log), Heard(h, steps[0], id), MatchingPublishes(h1, steps[1..], id));
    }
  }

  lemma StepKeepsHub(h: Hub, step: HubStep)
    requires ValidHub(h) && Possible(h, step)
    ensures ValidHub(Next(h, step)) && Next(h, step).capacity == h.capacity
  {
    var h' := Next(h, step);
    if step.Unsubscribe? {
      WithoutKeepsDistinct(h.registered, step.id);
    }
    forall i | 0 <= i < |h'.registered|
      ensures h'.registered[i] in h'.subs
    {
      assert h'.registered[i] in h'.registered;
      assert step.Unsubscribe? ==> h'.registered[i] in h.registered;
    }
  }

  lemma OfferedByStep(h: Hub, step: HubStep, id: nat)
    requires ValidHub(h) && Possible(h, step) && id in h.subs
    ensures id in Next(h, step).subs && Next(h, step).subs[id].filter == h.subs[id].filter
    ensures Offered(Next(h, step).subs[id].log) == Offered(h.subs[id].log) + Heard(h, step, id)
  {
    var log := h.subs[id].log;
    match step {
      case Publish(e) => LogGrows(log, Offer(e), h.capacity);
      case Shutdown(close) => LogGrows(log, Offer(close), h.capacity);
      case Consume(_) => LogGrows(log, Take, h.capacity);
      case _ =>
    }
  }

  lemma StaysUnregistered(h: Hub, step: HubStep, id: nat)
    requires ValidHub(h) && Possible(h, step) && id in h.subs && id !in h.registered
    ensures id in Next(h, step).subs && id !in Next(h, step).registered
  {
  }

  /** Once a subscriber is not registered, nothing published or shut down reaches it any more. */
  lemma {:induction false} UnregisteredHearsNothing(h: Hub, steps: seq<HubStep>, id: nat)
    requires ValidHub(h) && Runs(h, steps) && id in h.subs && id !in h.registered
    ensures MatchingPublishes(h, steps, id) == []
    decreases |steps|
  {
    if steps != [] {
      StepKeepsHub(h, steps[0]);
      StaysUnregistered(h, steps[0], id);
      hide Next, Possible, ValidHub;
      UnregisteredHearsNothing(Next(h, steps[0]), steps[1..], id);
    }
  }

  lemma ClosedHearsNothingMore(h: Hub, close: Event, steps: seq<HubStep>, id: nat)
    requires ValidHub(h) && IsCloseEvent(close) && id in h.registered
    requires Runs(Next(h, Shutdown(close)), steps)
    ensures var h' := After(Next(h, Shutdown(close)), steps);
            id in h'.subs && h'.subs[id].filter == h.subs[id].filter &&
            Offered(h'.subs[id].log) == Offered(h.subs[id].log) + [close]
  {
    var closed := Next(h, Shutdown(close));
    StepKeepsHub(h, Shutdown(close));
    OfferedByStep(h, Shutdown(close), id);
    assert closed.registered == [] && Heard(h, Shutdown(close), id) == [close];
    hide Next, Possible, ValidHub, Runs, After, MatchingPublishes, Offered, Heard;
    OfferedAreMatchingPublishes(closed, steps, id);
    UnregisteredHearsNothing(closed, steps, id);
    var all := Offered(After(closed, steps).subs[id].log);
    assert all == Offered(closed.subs[id].log) + [] == Offered(closed.subs[id].log);
  }

  /** Whoever was registered at a shutdown is offered the close event last, whatever happens
      afterwards; while anything is queued for it, the close event is at the end. */
  lemma CloseEventIsLast(h: Hub, close: Event, steps: seq<HubStep>, id: nat)
    requires ValidHub(h) && IsCloseEvent(close) && id in h.registered
    requires Runs(Next(h, Shutdown(close)), steps)
    ensures var h' := After(Next(h, Shutdown(close)), steps);
            id in h'.subs && Offered(h'.subs[id].log) == Offered(h.subs[id].log) + [close] &&
            var q := QueueAfter(h'.subs[id].log, h.capacity); q != [] ==> q[|q| - 1] == close
  {
    ClosedHearsNothingMore(h, close, steps, id);
    hide Next, Possible, Runs, After, Offered, QueueAfter, Newest;
    var log := After(Next(h, Shutdown(close)), steps).subs[id].log;
    QueueIsNewestUnconsumed(log, h.capacity);
    NewestEndsAlike(QueueAfter(log, h.capacity), Offered(h.subs[id].log), close, Mark(log, h.capacity), h.capacity);
  }

  lemma NewestEndsAlike<T(!new)>(queue: seq<T>, offered: seq<T>, last: T, mark: int, capacity: nat)
    requires Newest(queue, offered + [last], mark, capacity)
    ensures queue != [] ==> queue[|queue| - 1] == last
  {
  }

  function Deliveries(h: Hub, e: Event, ids: seq<nat>): nat
    requires forall i :: 0 <= i < |ids| ==> ids[i] in h.subs
  {
    if ids == [] then 0
    else Deliveries(h, e, ids[..|ids| - 1]) + if Matches(h.subs[ids[|ids| - 1]].filter, e) then 1 else 0
  }

  function LogWith(s: Subscriber, e: Event, reached: bool, everyone: bool): seq<SubscriberQueue.Step<Event>>
  {
    s.log + if reached && (everyone || Matches(s.filter, e)) then [Offer(e)] else []
  }

  lemma PrefixGrows(ids: seq<nat>, i: nat)
    requires Distinct(ids) && i < |ids|
    ensures ids[..i + 1] == ids[..i] + [ids[i]] && ids[..i + 1][..i] == ids[..i] && ids[i] !in ids[..i]
  {
  }

  ghost function Reached(h: Hub, e: Event, ids: seq<nat>): (reached: set<nat>)
    ensures forall id :: id in reached <==> id in ids && id in h.subs && Matches(h.subs[id].filter, e)
  {
    set id | id in ids && id in h.subs && Matches(h.subs[id].filter, e)
  }

  lemma {:induction false} DeliveriesCount(h: Hub, e: Event, ids: seq<nat>)
    requires Distinct(ids) && forall i :: 0 <= i < |ids| ==> ids[i] in h.subs
    ensures Deliveries(h, e, ids) == |Reached(h, e, ids)|
  {
    hide Matches;
    if ids == [] {
      assert Reached(h, e, ids) == {};
    } else {
      var (before, last) := (ids[..|ids| - 1], ids[|ids| - 1]);
      DeliveriesCount(h, e, before);
      OneMoreReached(h, e, before, last);
      Text.Unsnoc(ids);
    }
  }

  lemma OneMoreReached(h: Hub, e: Event, ids: seq<nat>, last: nat)
    requires last !in ids && last in h.subs
    ensures |Reached(h, e, ids + [last])|
         == |Reached(h, e, ids)| + if Matches(h.subs[last].filter, e) then 1 else 0
  {
    hide Matches;
    var reached, reached' := Reached(h, e, ids), Reached(h, e, ids + [last]);
    if Matches(h.subs[last].filter, e) {
      assert reached' == reached + {last};
    } else {
      assert reached' == reached;
    }
  }

  /** The count of a publish is the size of the audience. */
  lemma DeliveriesAreAudience(h: Hub, e: Event)
    requires ValidHub(h)
    ensures Deliveries(h, e, h.registered) == |Audience(h, e)|
  {
    DeliveriesCount(h, e, h.registered);
    hide Matches, Deliveries;
    assert Audience(h, e) == Reached(h, e, h.registered);
  }

  lemma PublishShows(h: Hub, e: Event)
    requires ValidHub(h)
    ensures var h' := Next(h, Publish(e));
            h'.subs.Keys == h.subs.Keys && h'.registered == h.registered &&
            (forall id :: id in h.subs ==>
              h'.subs[id] == Subscriber(h.subs[id].filter, LogWith(h.subs[id], e, id in h.registered, false))) &&
            forall id :: id in h.subs ==>
              h'.subs[id].log == h.subs[id].log + if id in Audience(h, e) then [Offer(e)] else []
  {
  }

  lemma SubscribeShows(h: Hub, id: nat, filter: Filter)
    requires ValidHub(h) && id !in h.subs
    ensures var h' := Next(h, Subscribe(id, filter));
            ValidHub(h') && h'.capacity == h.capacity && h'.registered == h.registered + [id] &&
            h'.subs == h.subs[id := Subscriber(filter, [])] &&
            forall i :: 0 <= i < |h.registered| ==> h.registered[i] in h.subs
  {
  }

  lemma ConsumeShows(h: Hub, id: nat)
    requires ValidHub(h) && id in h.subs
    ensures var h' := Next(h, Consume(id));
            ValidHub(h') && h'.capacity == h.capacity && h'.registered == h.registered &&
            h'.subs == h.subs[id := Subscriber(h.subs[id].filter, h.subs[id].log + [Take])]
  {
  }

  lemma UnsubscribeShows(h: Hub, id: nat)
    ensures Possible(h, Unsubscribe(id)) && Next(h, Unsubscribe(id)) == h.(registered := Without(h.registered, id))
  {
  }

  lemma ShutdownShows(h: Hub, close: Event)
    requires ValidHub(h) && IsCloseEvent(close)
    ensures var h' := Next(h, Shutdown(close));
            h'.subs.Keys == h.subs.Keys && h'.registered == [] &&
            (forall id :: id in h.subs ==>
              h'.subs[id] == Subscriber(h.subs[id].filter, LogWith(h.subs[id], close, id in h.registered, true))) &&
            forall id :: id in h.subs ==>
              h'.subs[id].log == h.subs[id].log + if id in h.registered then [Offer(close)] else []
  {
  }

  lemma OneMoreDelivery(h: Hub, e: Event, ids: seq<nat>, i: nat)
    requires i < |ids| && forall k :: 0 <= k < |ids| ==> ids[k] in h.subs
    ensures Deliveries(h, e, ids[..i + 1])
         == Deliveries(h, e, ids[..i]) + if Matches(h.subs[ids[i]].filter, e) then 1 else 0
  {
    assert ids[..i + 1][..i] == ids[..i];
  }

  /** One active subscriber and its queue. */
  class Subscription {
    const id: nat
    const filter: Filter
    const capacity: nat
    var queue: seq<Event>
    ghost var log: seq<SubscriberQueue.Step<Event>>

    ghost predicate Valid()
      reads this
    {
      capacity >= 1 && queue == QueueAfter(log, capacity)
    }

    constructor (id: nat, filter: Filter, capacity: nat)
      requires capacity >= 1
      ensures Valid() && log == [] && this.id == id && this.filter == filter && this.capacity == capacity
    {
      this.id, this.filter, this.capacity := id, filter, capacity;
      queue, log := [], [];
    }

    /** Add an event if there is room. */
    method PutNowait(e: Event) returns (done: bool)
      modifies this`queue
      ensures done == (|old(queue)| < capacity) && queue == if done then old(queue) + [e] else old(queue)
    {
      done := |queue| < capacity;
      if done {
        queue := queue + [e];
      }
    }

    /** Push without blocking: on a full queue drop the oldest event and try again. */
    method EnqueueEvent(e: Event) returns (accepted: bool)
      requires Valid()
      modifies this
      ensures Valid() && accepted && log == old(log) + [Offer(e)]
    {
      ghost var before := queue;
      accepted := PutNowait(e);
      if !accepted {
        if queue == [] {
          return false;
        }
        queue := queue[1..];
        accepted := PutNowait(e);
      }
      LogGrows(log, Offer(e), capacity);
      log := log + [Offer(e)];
    }

    /** Take the next event, if there is one. */
    method Get() returns (e: Option<Event>)
      requires Valid()
      modifies this
      ensures Valid() && log == old(log) + [Take]
      ensures e == if old(queue) == [] then None else Some(old(queue)[0])
    {
      LogGrows(log, Take, capacity);
      log := log + [Take];
      if queue == [] {
        e := None;
      } else {
        e := Some(queue[0]);
        queue := queue[1..];
      }
    }
  }

  class SSEEventHub {
    const queueSize: nat
    var subscribers: seq<Subscription>
    var nextId: nat
    ghost var hub: Hub
    ghost var known: map<nat, Subscription>

    /** The registered subscriptions are the known objects of the recorded history, in order. */
    ghost predicate Wired()
      reads this
    {
      && ValidHub(hub) && hub.capacity == queueSize
      && known.Keys == hub.subs.Keys
      && (forall id :: id in known ==> id < nextId && known[id].id == id)
      && (forall id :: id in known ==> known[id].capacity == queueSize && known[id].filter == hub.subs[id].filter)
      && |subscribers| == |hub.registered|
      && (forall i :: 0 <= i < |subscribers| ==> subscribers[i] == known[hub.registered[i]])
    }

    /** Every known queue is what its recorded history makes it. */
    ghost predicate Valid()
      reads this, known.Values
    {
      Wired() && forall id :: id in known ==> known[id].Valid() && known[id].log == hub.subs[id].log
    }

    constructor (queueSize: nat)
      requires queueSize >= 1
      ensures Valid() && hub == Hub(queueSize, map[], [])
    {
      this.queueSize := queueSize;
      subscribers, nextId := [], 0;
      hub, known := Hub(queueSize, map[], []), map[];
    }

    method SubscribeTo(inboxId: Option<string>, userId: Option<string>, eventTypes: Option<set<string>>)
      returns (s: Subscription)
      requires Valid()
      modifies this
      ensures Valid() && fresh(s) && s.id !in old(hub.subs) && known == old(known)[s.id := s]
      ensures s.filter == Filter(inboxId, userId, NormalizeTypes(eventTypes)) && s.log == []
      ensures hub == Next(old(hub), Subscribe(s.id, s.filter)) && hub.registered == old(hub).registered + [s.id]
    {
      var filter := Filter(inboxId, userId, NormalizeTypes(eventTypes));
      s := new Subscription(nextId, filter, queueSize);
      Attach(s);
    }

    method Attach(s: Subscription)
      requires Valid() && s.Valid() && s.id == nextId && s.capacity == queueSize && s.log == []
      requires s !in known.Values
      modifies this
      ensures Valid() && known == old(known)[s.id := s] && s.id !in old(hub.subs)
      ensures hub == Next(old(hub), Subscribe(s.id, s.filter)) && hub.registered == old(hub).registered + [s.id]
    {
      hide Next, ValidHub, QueueAfter;
      SubscribeShows(hub, nextId, s.filter);
      ghost var before := hub;
      hub, known := Next(hub, Subscribe(nextId, s.filter)), known[nextId := s];
      subscribers, nextId := subscribers + [s], nextId + 1;
      assert Wired() by {
        forall i | 0 <= i < |subscribers|
          ensures subscribers[i] == known[hub.registered[i]]
        {
          assert i < |before.registered| ==> before.registered[i] in before.subs;
        }
      }
    }

    /** The subscribers without the one of this id, in their order. */
    method AllBut(id: nat) returns (kept: seq<Subscription>)
      requires Wired()
      ensures |kept| == |Without(hub.registered, id)|
      ensures forall j :: 0 <= j < |kept| ==>
        Without(hub.registered, id)[j] in known && kept[j] == known[Without(hub.registered, id)[j]]
    {
      kept := [];
      for i := 0 to |subscribers|
        invariant |kept| == |Without(hub.registered[..i], id)|
        invariant forall j :: 0 <= j < |kept| ==>
          Without(hub.registered[..i], id)[j] in known && kept[j] == known[Without(hub.registered[..i], id)[j]]
      {
        WithoutSnoc(hub.registered[..i], hub.registered[i], id);
        assert hub.registered[..i + 1] == hub.registered[..i] + [hub.registered[i]];
        if subscribers[i].id != id {
          kept := kept + [subscribers[i]];
        }
      }
      assert hub.registered[..|subscribers|] == hub.registered;
    }

    method UnsubscribeFrom(id: nat)
      requires Valid()
      modifies this
      ensures Valid() && known == old(known) && hub == Next(old(hub), Unsubscribe(id))
      ensures hub.subs == old(hub).subs
      ensures forall k :: k in hub.registered <==> k in old(hub).registered && k != id
    {
      hide Next, QueueAfter, Matches, Possible, Without;
      UnsubscribeShows(hub, id);
      StepKeepsHub(hub, Unsubscribe(id));
      subscribers := AllBut(id);
      hub := Next(hub, Unsubscribe(id));
    }

    /** Every known subscription has seen the event exactly if it is one of the first `i` and hears it. */
    ghost predicate OfferedTo(e: Event, i: nat, everyone: bool)
      requires Wired() && i <= |subscribers|
      reads this, known.Values
    {
      forall id :: id in known ==>
        known[id].Valid() && known[id].log == LogWith(hub.subs[id], e, id in hub.registered[..i], everyone)
    }

    lemma PassOver(e: Event, i: nat)
      requires Wired() && i < |subscribers| && OfferedTo(e, i, false) && !Matches(subscribers[i].filter, e)
      ensures OfferedTo(e, i + 1, false)
    {
      hide Matches, QueueAfter;
      PrefixGrows(hub.registered, i);
    }

    method DeliverTo(i: nat, e: Event, ghost everyone: bool) returns (accepted: bool)
      requires Wired() && i < |subscribers| && OfferedTo(e, i, everyone)
      requires everyone || Matches(subscribers[i].filter, e)
      modifies subscribers[i]
      ensures accepted && OfferedTo(e, i + 1, everyone)
    {
      hide Matches, QueueAfter;
      PrefixGrows(hub.registered, i);
      accepted := subscribers[i].EnqueueEvent(e);
    }

    /** One turn of the publishing loop: deliver if the filter matches, skip otherwise. */
    method Visit(i: nat, e: Event) returns (reached: bool)
      requires Wired() && i < |subscribers| && OfferedTo(e, i, false)
      modifies subscribers[i]
      ensures OfferedTo(e, i + 1, false) && reached == Matches(hub.subs[hub.registered[i]].filter, e)
    {
      if !Matches(subscribers[i].filter, e) {
        PassOver(e, i);
        return false;
      }
      reached := DeliverTo(i, e, false);
    }

    method OfferToAll(e: Event) returns (delivered: nat)
      requires Wired() && OfferedTo(e, 0, false)
      modifies subscribers
      ensures OfferedTo(e, |subscribers|, false)
      ensures delivered == |Audience(hub, e)|
    {
      hide Next, QueueAfter, Matches, Audience;
      delivered := 0;
      for i := 0 to |subscribers|
        invariant delivered == Deliveries(hub, e, hub.registered[..i])
        invariant OfferedTo(e, i, false)
      {
        OneMoreDelivery(hub, e, hub.registered, i);
        var reached := Visit(i, e);
        if reached {
          delivered := delivered + 1;
        }
      }
      assert hub.registered[..|subscribers|] == hub.registered;
      DeliveriesAreAudience(hub, e);
    }

    method PublishEvent(e: Event) returns (delivered: nat)
      requires Valid()
      modifies this`hub, subscribers
      ensures Valid() && hub == Next(old(hub), Publish(e))
      ensures delivered == |Audience(old(hub), e)| && known == old(known)
      ensures forall id :: id in known ==>
        known[id].log == old(known[id].log) + if id in Audience(old(hub), e) then [Offer(e)] else []
    {
      hide Next, QueueAfter, Matches, Audience, ValidHub, Distinct, Possible;
      delivered := OfferToAll(e);
      RecordPublish(e);
    }

    ghost method RecordPublish(e: Event)
      requires Wired() && OfferedTo(e, |subscribers|, false)
      modifies this`hub
      ensures Valid() && hub == Next(old(hub), Publish(e))
      ensures forall id :: id in known ==>
        known[id].log == old(hub).subs[id].log + if id in Audience(old(hub), e) then [Offer(e)] else []
    {
      hide QueueAfter, Matches, Audience;
      assert hub.registered[..|subscribers|] == hub.registered;
      StepKeepsHub(hub, Publish(e));
      PublishShows(hub, e);
      hub := Next(hub, Publish(e));
    }

    method NotifyAll(close: Event)
      requires Wired() && OfferedTo(close, 0, true)
      modifies subscribers
      ensures OfferedTo(close, |subscribers|, true)
    {
      hide Next, QueueAfter, Matches;
      for i := 0 to |subscribers|
        invariant OfferedTo(close, i, true)
      {
        var _ := DeliverTo(i, close, true);
      }
    }

    method ShutdownHub(close: Event)
      requires Valid() && IsCloseEvent(close)
      modifies this`hub, this`subscribers, subscribers
      ensures Valid() && hub == Next(old(hub), Shutdown(close)) && subscribers == [] && known == old(known)
      ensures forall id :: id in known ==>
        known[id].log == old(known[id].log) + if id in old(hub).registered then [Offer(close)] else []
    {
      hide Next, QueueAfter, Distinct, ValidHub;
      Announce(close);
      subscribers := [];
    }

    /** Everyone registered is offered the close event, and that is recorded. */
    method Announce(close: Event)
      requires Valid() && IsCloseEvent(close)
      modifies this`hub, subscribers
      ensures hub == Next(old(hub), Shutdown(close)) && ValidHub(hub)
      ensures hub.capacity == old(hub.capacity) && hub.registered == [] && hub.subs.Keys == old(hub.subs).Keys
      ensures forall id :: id in known ==>
        id in hub.subs && known[id].Valid() && hub.subs[id] == Subscriber(known[id].filter, known[id].log) &&
        known[id].log == old(known[id].log) + if id in old(hub).registered then [Offer(close)] else []
    {
      hide Next, QueueAfter, Matches, Distinct;
      NotifyAll(close);
      RecordShutdown(close);
    }

    ghost method RecordShutdown(close: Event)
      requires IsCloseEvent(close) && Wired() && OfferedTo(close, |subscribers|, true)
      modifies this`hub
      ensures hub == Next(old(hub), Shutdown(close)) && ValidHub(hub)
      ensures hub.capacity == old(hub.capacity) && hub.registered == [] && hub.subs.Keys == old(hub.subs).Keys
      ensures forall id :: id in known ==>
        id in hub.subs && known[id].Valid() && hub.subs[id] == Subscriber(known[id].filter, known[id].log) &&
        known[id].log == old(hub).subs[id].log + if id in old(hub).registered then [Offer(close)] else []
    {
      hide QueueAfter, Matches;
      assert hub.registered[..|subscribers|] == hub.registered;
      StepKeepsHub(hub, Shutdown(close));
      ShutdownShows(hub, close);
      hub := Next(hub, Shutdown(close));
    }

    /** A consumer holding a subscription takes its next event, registered or not. */
    method ConsumeFrom(s: Subscription) returns (e: Option<Event>)
      requires Valid() && s.id in known && known[s.id] == s
      modifies this, s
      ensures Valid() && known == old(known) && hub == Next(old(hub), Consume(s.id))
      ensures s.log == old(s.log) + [Take] && hub.registered == old(hub).registered
      ensures var q := QueueAfter(old(hub).subs[s.id].log, queueSize); e == if q == [] then None else Some(q[0])
    {
      hide QueueAfter, Next, ValidHub, Distinct;
      e := s.Get();
      ConsumeShows(hub, s.id);
      hub := Next(hub, Consume(s.id));
      forall id | id in known
        ensures known[id].Valid() && known[id].log == hub.subs[id].log
      {
        assert known[id].id == id;
        assert id != s.id ==> known[id] != s;
      }
    }
  }

  lemma {:induction false} WithoutSnoc(ids: seq<nat>, last: nat, id: nat)
    ensures Without(ids + [last], id) == Without(ids, id) + if last == id then [] else [last]
  {
    if ids != [] {
      WithoutSnoc(ids[1..], last, id);
      assert (ids + [last])[1..] == ids[1..] + [last];
    }
  }
}

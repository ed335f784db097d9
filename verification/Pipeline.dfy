/** `MessengerPipeline`: outbound calls through a priority-ordered chain of middleware. */
module Pipeline {
  import opened Outcomes
  import opened PrioritySort

  /** Named values in insertion order, as Python dictionaries keep them. */
  type Named = seq<(string, string)>

  datatype Invocation = SendInvocation(
    methodName: string, messageType: string, recipient: string, args: seq<string>, kwargs: Named, arguments: Named)

  datatype Outcome = Returned(result: string) | Raised(error: string)

  /** What a middleware does next: finish, or await the inner chain with some invocation. */
  datatype Action = Finish(outcome: Outcome) | Await(inner: Invocation)

  /** A middleware decides from the invocation and the outcomes it has awaited so far: it may rewrite
      the invocation, short-circuit, retry, catch or transform. */
  datatype AnyMiddleware = AnyMiddleware(name: string, patience: nat, decide: (Invocation, seq<Outcome>) -> Action)

  ghost predicate Patient(m: AnyMiddleware)
  {
    forall inv, heard :: m.decide(inv, heard).Await? ==> |heard| < m.patience
  }

  /** It awaits the inner chain at most `patience` times in one call. */
  type Middleware = m: AnyMiddleware | Patient(m) witness AnyMiddleware("", 0, (inv, heard) => Finish(Returned("")))

  /** What happens during one call, in order; levels count from the outermost middleware. */
  datatype Event = Enter(level: nat) | Exit(level: nat) | RawCall(invocation: Invocation)

  datatype Run = Run(outcome: Outcome, trace: seq<Event>)

  /** The raw messenger: its answer may depend on every call that reached it before. */
  type Raw = (seq<Invocation>, Invocation) -> Outcome

  /** One link of the composed chain, given the calls that have reached the raw messenger so far. */
  type SendNext = (seq<Invocation>, Invocation) -> Run

  /** The calls of a trace that reached the raw messenger. */
  function RawCalls(trace: seq<Event>): seq<Invocation>
  {
    if trace == [] then []
    else RawCalls(trace[..|trace| - 1])
         + match trace[|trace| - 1] case RawCall(i) => [i] case _ => []
  }

  /** A middleware's run from where it has heard the given outcomes. */
  function Drive(mw: Middleware, inv: Invocation, heard: seq<Outcome>, past: seq<Invocation>, next: SendNext): Run
    decreases if |heard| < mw.patience then mw.patience - |heard| else 0
  {
    match mw.decide(inv, heard)
    case Finish(o) => Run(o, [])
    case Await(inner) =>
      assert Patient(mw) && mw.decide(inv, heard).Await?;
      var first := next(past, inner);
      var rest := Drive(mw, inv, heard + [first.outcome], past + RawCalls(first.trace), next);
      Run(rest.outcome, first.trace + rest.trace)
  }

  /** `_bind`: a middleware around the inner chain. */
  function Bind(level: nat, mw: Middleware, next: SendNext): SendNext
  {
    (past: seq<Invocation>, inv: Invocation) =>
      var body := Drive(mw, inv, [], past, next);
      Run(body.outcome, [Enter(level)] + body.trace + [Exit(level)])
  }

  function CallRaw(raw: Raw): SendNext
  {
    (past: seq<Invocation>, inv: Invocation) => Run(raw(past, inv), [RawCall(inv)])
  }

  /** The recursive meaning of a chain: outermost first, the raw messenger at the end. */
  function RunFrom(chain: seq<Middleware>, level: nat, raw: Raw, past: seq<Invocation>, inv: Invocation): Run
    requires level <= |chain|
    decreases |chain| - level
  {
    if level == |chain| then Run(raw(past, inv), [RawCall(inv)])
    else
      var body := Drive(chain[level], inv, [], past,
                        (q: seq<Invocation>, i: Invocation) => RunFrom(chain, level + 1, raw, q, i));
      Run(body.outcome, [Enter(level)] + body.trace + [Exit(level)])
  }

  lemma {:induction false} DriveAgrees(mw: Middleware, inv: Invocation, heard: seq<Outcome>, past: seq<Invocation>,
          f: SendNext, g: SendNext)
    requires forall q, i :: f(q, i) == g(q, i)
    ensures Drive(mw, inv, heard, past, f) == Drive(mw, inv, heard, past, g)
    decreases if |heard| < mw.patience then mw.patience - |heard| else 0
  {
    var action := mw.decide(inv, heard);
    assert Patient(mw);
    if action.Await? {
      var first := f(past, action.inner);
      DriveAgrees(mw, inv, heard + [first.outcome], past + RawCalls(first.trace), f, g);
    }
  }

  lemma BindAgrees(chain: seq<Middleware>, level: nat, raw: Raw, inner: SendNext, past: seq<Invocation>,
          inv: Invocation)
    requires level < |chain| && forall q, i :: inner(q, i) == RunFrom(chain, level + 1, raw, q, i)
    ensures Bind(level, chain[level], inner)(past, inv) == RunFrom(chain, level, raw, past, inv)
  {
    DriveAgrees(chain[level], inv, [], past, inner,
                (q: seq<Invocation>, i: Invocation) => RunFrom(chain, level + 1, raw, q, i));
  }

  function Chain(middleware: seq<Entry<Middleware>>): (chain: seq<Middleware>)
    ensures |chain| == |Descending(middleware)|
    ensures forall i :: 0 <= i < |chain| ==> chain[i] == Descending(middleware)[i].item
  {
    var sorted := Descending(middleware);
    seq(|sorted|, i requires 0 <= i < |sorted| => sorted[i].item)
  }

  /** `sent` is the raw messenger's own state: the calls that have reached it. */
  class MessengerPipeline {
    const raw: Raw
    const middleware: seq<Middleware>
    var entrypoint: SendNext
    var sent: seq<Invocation>

    /** The pre-composed chain is the recursive outer-to-inner run, for every call and every past. */
    ghost predicate Valid()
      reads this
    {
      forall past, inv :: entrypoint(past, inv) == RunFrom(middleware, 0, raw, past, inv)
    }

    /** The chain is composed once, inside out. */
    constructor (raw: Raw, entries: seq<Entry<Middleware>>)
      ensures Valid() && this.raw == raw && middleware == Chain(entries) && sent == []
    {
      var chain := Chain(entries);
      var composed := CallRaw(raw);
      var level: nat := |chain|;
      while level > 0
        invariant level <= |chain|
        invariant forall past, inv :: composed(past, inv) == RunFrom(chain, level, raw, past, inv)
      {
        level := level - 1;
        forall past, inv
          ensures Bind(level, chain[level], composed)(past, inv) == RunFrom(chain, level, raw, past, inv)
        {
          BindAgrees(chain, level, raw, composed, past, inv);
        }
        composed := Bind(level, chain[level], composed);
      }
      this.raw, middleware, entrypoint, sent := raw, chain, composed, [];
    }

    /** One call runs through the middleware in descending priority, from where the raw messenger is. */
    method Invoke(methodName: string, messageType: string, recipient: string, arguments: Named,
            keywordOnly: Option<Named>)
      returns (run: Run)
      requires Valid()
      modifies this`sent
      ensures Valid() && sent == old(sent) + RawCalls(run.trace)
      ensures run == RunFrom(middleware, 0, raw, old(sent),
                             Capture(methodName, messageType, recipient, arguments, keywordOnly))
      ensures (forall mw :: mw in middleware ==> PassesThrough(mw)) ==>
        exists i :: && sent == old(sent) + [i] && run.outcome == raw(old(sent), i)
                    && Carries(i, methodName, messageType, recipient, arguments, keywordOnly)
    {
      ghost var captured := Capture(methodName, messageType, recipient, arguments, keywordOnly);
      CaptureCarries(methodName, messageType, recipient, arguments, keywordOnly);
      if forall mw :: mw in middleware ==> PassesThrough(mw) {
        PassThroughSends(middleware, raw, sent, captured);
      }
      hide Carries, Capture, RunFrom, RawCalls, PassesThrough;
      run := entrypoint(sent, Capture(methodName, messageType, recipient, arguments, keywordOnly));
      sent := sent + RawCalls(run.trace);
    }
  }

  // ---------------------------------------------------------------------------
  // Nesting.
  // ---------------------------------------------------------------------------

  /** Replaying a trace from depth `d` of a chain of `n`: a middleware is entered only at its own
      depth, left only when everything inside it has been left, and the raw messenger is called
      only with the whole chain entered. `None` when the trace breaks a rule. */
  function DepthAfter(trace: seq<Event>, d: nat, n: nat): Option<nat>
    decreases |trace|
  {
    if trace == [] then Some(d)
    else match trace[0]
      case Enter(level) => if level == d < n then DepthAfter(trace[1..], d + 1, n) else None
      case Exit(level) => if level + 1 == d then DepthAfter(trace[1..], level, n) else None
      case RawCall(_) => if d == n then DepthAfter(trace[1..], d, n) else None
  }

  lemma {:induction false} DepthOfConcat(a: seq<Event>, b: seq<Event>, d: nat, n: nat)
    requires DepthAfter(a, d, n).Some?
    ensures DepthAfter(a + b, d, n) == DepthAfter(b, DepthAfter(a, d, n).value, n)
    decreases |a|
  {
    if a == [] {
      assert a + b == b;
    } else {
      assert (a + b)[1..] == a[1..] + b;
      var d' := match a[0] case Enter(_) => d + 1 case Exit(level) => level case RawCall(_) => d;
      DepthOfConcat(a[1..], b, d', n);
    }
  }

  lemma {:induction false} DriveNests(mw: Middleware, inv: Invocation, heard: seq<Outcome>, past: seq<Invocation>,
          next: SendNext, d: nat, n: nat)
    requires forall q, i :: DepthAfter(next(q, i).trace, d, n) == Some(d)
    ensures DepthAfter(Drive(mw, inv, heard, past, next).trace, d, n) == Some(d)
    decreases if |heard| < mw.patience then mw.patience - |heard| else 0
  {
    var action := mw.decide(inv, heard);
    assert Patient(mw);
    if action.Await? {
      var first := next(past, action.inner);
      var past' := past + RawCalls(first.trace);
      var rest := Drive(mw, inv, heard + [first.outcome], past', next);
      DriveNests(mw, inv, heard + [first.outcome], past', next, d, n);
      DepthOfConcat(first.trace, rest.trace, d, n);
    }
  }

  lemma WrapNests(body: seq<Event>, level: nat, n: nat)
    requires level < n && DepthAfter(body, level + 1, n) == Some(level + 1)
    ensures DepthAfter([Enter(level)] + body + [Exit(level)], level, n) == Some(level)
  {
    var close := [Exit(level)];
    assert close[1..] == [];
    assert DepthAfter(close, level + 1, n) == Some(level);
    DepthOfConcat(body, close, level + 1, n);
    assert ([Enter(level)] + body + close)[1..] == body + close;
  }

  /** For any middleware whatever they do, every call is well nested: before-steps outside in,
      after-steps inside out, the raw messenger only innermost. */
  lemma {:induction false} CallsAreWellNested(chain: seq<Middleware>, level: nat, raw: Raw, past: seq<Invocation>,
          inv: Invocation)
    requires level <= |chain|
    ensures DepthAfter(RunFrom(chain, level, raw, past, inv).trace, level, |chain|) == Some(level)
    decreases |chain| - level
  {
    if level == |chain| {
      assert [RawCall(inv)][1..] == [];
    } else {
      var next: SendNext := (q: seq<Invocation>, i: Invocation) => RunFrom(chain, level + 1, raw, q, i);
      forall q, i
        ensures DepthAfter(next(q, i).trace, level + 1, |chain|) == Some(level + 1)
      {
        CallsAreWellNested(chain, level + 1, raw, q, i);
      }
      DriveNests(chain[level], inv, [], past, next, level + 1, |chain|);
      WrapNests(Drive(chain[level], inv, [], past, next).trace, level, |chain|);
    }
  }

  /** Nothing inside level `k` happens, and the raw messenger is not called. */
  predicate StaysOutside(trace: seq<Event>, k: nat)
  {
    forall i :: 0 <= i < |trace| ==> !trace[i].RawCall? && trace[i].level <= k
  }

  lemma {:induction false} DriveStaysOutside(mw: Middleware, inv: Invocation, heard: seq<Outcome>,
          past: seq<Invocation>, next: SendNext, k: nat)
    requires forall q, i :: StaysOutside(next(q, i).trace, k)
    ensures StaysOutside(Drive(mw, inv, heard, past, next).trace, k)
    decreases if |heard| < mw.patience then mw.patience - |heard| else 0
  {
    var action := mw.decide(inv, heard);
    assert Patient(mw);
    if action.Await? {
      var first := next(past, action.inner);
      DriveStaysOutside(mw, inv, heard + [first.outcome], past + RawCalls(first.trace), next, k);
    }
  }

  /** A middleware that never awaits lets nothing inside it run, however the ones around it rewrite,
      retry or catch. */
  lemma {:induction false} ShortCircuit(chain: seq<Middleware>, level: nat, k: nat, raw: Raw, past: seq<Invocation>,
          inv: Invocation)
    requires level <= k < |chain| && forall i :: chain[k].decide(i, []).Finish?
    ensures StaysOutside(RunFrom(chain, level, raw, past, inv).trace, k)
    decreases |chain| - level
  {
    if level < k {
      var next: SendNext := (q: seq<Invocation>, i: Invocation) => RunFrom(chain, level + 1, raw, q, i);
      forall q, i
        ensures StaysOutside(next(q, i).trace, k)
      {
        ShortCircuit(chain, level + 1, k, raw, q, i);
      }
      DriveStaysOutside(chain[level], inv, [], past, next, k);
    }
  }

  function Enters(level: nat, n: nat): seq<Event>
    requires level <= n
    decreases n - level
  {
    if level == n then [] else [Enter(level)] + Enters(level + 1, n)
  }

  function Exits(level: nat, n: nat): seq<Event>
    requires level <= n
    decreases n - level
  {
    if level == n then [] else Exits(level + 1, n) + [Exit(level)]
  }

  /** The middleware awaits the inner chain exactly once, with a possibly rewritten invocation. */
  ghost predicate ForwardsOnce(mw: Middleware)
  {
    (forall inv :: mw.decide(inv, []).Await?) && forall inv, o :: mw.decide(inv, [o]).Finish?
  }

  /** The invocation that reaches the raw messenger when every middleware forwards once. */
  function Rewritten(chain: seq<Middleware>, level: nat, inv: Invocation): Invocation
    requires level <= |chain|
    decreases |chain| - level
  {
    if level == |chain| || chain[level].decide(inv, []).Finish? then inv
    else Rewritten(chain, level + 1, chain[level].decide(inv, []).inner)
  }

  lemma OneAwait(chain: seq<Middleware>, level: nat, raw: Raw, past: seq<Invocation>, inv: Invocation)
    requires level < |chain| && ForwardsOnce(chain[level])
    ensures var inner := RunFrom(chain, level + 1, raw, past, chain[level].decide(inv, []).inner);
            RunFrom(chain, level, raw, past, inv)
            == Run(chain[level].decide(inv, [inner.outcome]).outcome, [Enter(level)] + inner.trace + [Exit(level)])
  {
    var mw := chain[level];
    var next: SendNext := (q: seq<Invocation>, i: Invocation) => RunFrom(chain, level + 1, raw, q, i);
    var first := next(past, mw.decide(inv, []).inner);
    var past' := past + RawCalls(first.trace);
    assert [] + [first.outcome] == [first.outcome];
    assert Drive(mw, inv, [first.outcome], past', next) == Run(mw.decide(inv, [first.outcome]).outcome, []);
    assert first.trace + [] == first.trace;
  }

  lemma Surround<T>(open: T, before: seq<T>, middle: seq<T>, after: seq<T>, close: T)
    ensures [open] + (before + middle + after) + [close] == ([open] + before) + middle + (after + [close])
  {
  }

  /** When every middleware forwards once, whatever it rewrites, the raw messenger is called exactly
      once, between all the before-steps in order and all the after-steps in reverse. */
  lemma {:induction false} ForwardingCallsRawOnce(chain: seq<Middleware>, level: nat, raw: Raw, past: seq<Invocation>,
          inv: Invocation)
    requires level <= |chain| && forall mw :: mw in chain ==> ForwardsOnce(mw)
    ensures RunFrom(chain, level, raw, past, inv).trace
         == Enters(level, |chain|) + [RawCall(Rewritten(chain, level, inv))] + Exits(level, |chain|)
    decreases |chain| - level
  {
    if level < |chain| {
      assert ForwardsOnce(chain[level]);
      var inner := chain[level].decide(inv, []).inner;
      ForwardingCallsRawOnce(chain, level + 1, raw, past, inner);
      OneAwait(chain, level, raw, past, inv);
      var n := |chain|;
      Surround(Enter(level), Enters(level + 1, n), [RawCall(Rewritten(chain, level, inv))], Exits(level + 1, n),
               Exit(level));
    }
  }

  ghost predicate PassesThrough(mw: Middleware)
  {
    (forall inv :: mw.decide(inv, []) == Await(inv)) && forall inv, o :: mw.decide(inv, [o]) == Finish(o)
  }

  /** A chain of pass-through middleware is the raw messenger. */
  lemma {:induction false} PassThroughIsRaw(chain: seq<Middleware>, level: nat, raw: Raw, past: seq<Invocation>,
          inv: Invocation)
    requires level <= |chain| && forall mw :: mw in chain ==> PassesThrough(mw)
    ensures RunFrom(chain, level, raw, past, inv).outcome == raw(past, inv) && Rewritten(chain, level, inv) == inv
    decreases |chain| - level
  {
    if level < |chain| {
      assert PassesThrough(chain[level]);
      assert ForwardsOnce(chain[level]);
      OneAwait(chain, level, raw, past, inv);
      PassThroughIsRaw(chain, level + 1, raw, past, inv);
    }
  }

  lemma {:induction false} RawCallsOfConcat(a: seq<Event>, b: seq<Event>)
    ensures RawCalls(a + b) == RawCalls(a) + RawCalls(b)
  {
    if b == [] {
      assert a + b == a;
    } else {
      RawCallsOfConcat(a, b[..|b| - 1]);
      assert (a + b)[..|a + b| - 1] == a + b[..|b| - 1];
    }
  }

  lemma {:induction false} NoRawCalls(trace: seq<Event>)
    requires forall i :: 0 <= i < |trace| ==> !trace[i].RawCall?
    ensures RawCalls(trace) == []
  {
    if trace != [] {
      NoRawCalls(trace[..|trace| - 1]);
    }
  }

  lemma {:induction false} StepsAreNotRaw(level: nat, n: nat)
    requires level <= n
    ensures forall i :: 0 <= i < |Enters(level, n)| ==> !Enters(level, n)[i].RawCall?
    ensures forall i :: 0 <= i < |Exits(level, n)| ==> !Exits(level, n)[i].RawCall?
    decreases n - level
  {
    if level < n {
      StepsAreNotRaw(level + 1, n);
    }
  }

  lemma OneRawCall(before: seq<Event>, inv: Invocation, after: seq<Event>)
    requires RawCalls(before) == [] && RawCalls(after) == []
    ensures RawCalls(before + [RawCall(inv)] + after) == [inv]
  {
    RawCallsOfConcat(before + [RawCall(inv)], after);
    RawCallsOfConcat(before, [RawCall(inv)]);
    assert RawCalls([RawCall(inv)]) == [inv];
  }

  lemma PassThroughSends(chain: seq<Middleware>, raw: Raw, past: seq<Invocation>, inv: Invocation)
    requires forall mw :: mw in chain ==> PassesThrough(mw)
    ensures var run := RunFrom(chain, 0, raw, past, inv);
            run.outcome == raw(past, inv) && RawCalls(run.trace) == [inv]
  {
    PassThroughIsRaw(chain, 0, raw, past, inv);
    ForwardingCallsRawOnce(chain, 0, raw, past, inv);
    StepsAreNotRaw(0, |chain|);
    NoRawCalls(Enters(0, |chain|));
    NoRawCalls(Exits(0, |chain|));
    hide *;
    OneRawCall(Enters(0, |chain|), inv, Exits(0, |chain|));
  }

  // ---------------------------------------------------------------------------
  // Capturing a call.
  // ---------------------------------------------------------------------------

  function Keys(named: Named): (r: seq<string>)
    ensures |r| == |named| && forall i :: 0 <= i < |r| ==> r[i] == named[i].0
  {
    seq(|named|, i requires 0 <= i < |named| => named[i].0)
  }

  function Values(named: Named): (r: seq<string>)
    ensures |r| == |named| && forall i :: 0 <= i < |r| ==> r[i] == named[i].1
  {
    seq(|named|, i requires 0 <= i < |named| => named[i].1)
  }

  function Positional(arguments: Named, kw: Named): Named
  {
    if arguments == [] then []
    else (if arguments[0].0 in Keys(kw) then [] else [arguments[0]]) + Positional(arguments[1..], kw)
  }

  /** `_invoke`: keyword-only arguments leave the positional tuple but stay among the named ones. */
  function Capture(methodName: string, messageType: string, recipient: string, arguments: Named,
          keywordOnly: Option<Named>): Invocation
  {
    var kw := if keywordOnly.Some? then keywordOnly.value else [];
    SendInvocation(methodName, messageType, recipient, Values(Positional(arguments, kw)), kw, arguments)
  }

  /** `args` are the values of `arguments` at the places `at`, in order: those not passed by keyword. */
  ghost predicate InPlace(args: seq<string>, arguments: Named, kw: Named, at: seq<nat>)
  {
    Picks(args, arguments, at) && forall p: nat :: p in at <==> p < |arguments| && !ByKeyword(arguments[p].0, kw)
  }

  ghost predicate Picks(args: seq<string>, arguments: Named, at: seq<nat>)
  {
    && |at| == |args|
    && (forall j :: 0 <= j < |at| ==> at[j] < |arguments| && args[j] == arguments[at[j]].1)
    && (forall i, j :: 0 <= i < j < |at| ==> at[i] < at[j])
  }

  ghost predicate ByKeyword(key: string, kw: Named)
  {
    exists k :: 0 <= k < |kw| && kw[k].0 == key
  }

  /** The call as given: the names and the recipient are its own, keyword-only values go by keyword and all
      others by position in their order; without keyword-only values that is every value. */
  ghost predicate Carries(i: Invocation, methodName: string, messageType: string, recipient: string,
          arguments: Named, keywordOnly: Option<Named>)
  {
    && i.methodName == methodName && i.messageType == messageType && i.recipient == recipient
    && i.arguments == arguments
    && i.kwargs == (match keywordOnly case None => [] case Some(kw) => kw)
    && (i.kwargs == [] ==> |i.args| == |arguments| && forall k :: 0 <= k < |i.args| ==> i.args[k] == arguments[k].1)
    && exists at :: InPlace(i.args, arguments, i.kwargs, at)
  }

  lemma CaptureCarries(methodName: string, messageType: string, recipient: string, arguments: Named,
          keywordOnly: Option<Named>)
    ensures Carries(Capture(methodName, messageType, recipient, arguments, keywordOnly), methodName, messageType,
                    recipient, arguments, keywordOnly)
  {
    var kw := match keywordOnly case None => [] case Some(kw) => kw;
    AllPositional(arguments);
    var at := PositionalInPlace(arguments, kw);
  }

  lemma {:induction false} PositionalInPlace(arguments: Named, kw: Named) returns (at: seq<nat>)
    ensures InPlace(Values(Positional(arguments, kw)), arguments, kw, at)
  {
    if arguments == [] {
      at := [];
    } else {
      var rest := PositionalInPlace(arguments[1..], kw);
      KeysShow(arguments[0].0, kw);
      at := ShiftPlaces(Values(Positional(arguments[1..], kw)), arguments, kw, rest);
      ValuesCons(arguments[0], Positional(arguments[1..], kw));
    }
  }

  lemma KeysShow(key: string, kw: Named)
    ensures key in Keys(kw) <==> ByKeyword(key, kw)
  {
    if ByKeyword(key, kw) {
      var k :| 0 <= k < |kw| && kw[k].0 == key;
      assert Keys(kw)[k] == key;
    }
  }

  lemma ValuesCons(item: (string, string), rest: Named)
    ensures Values([item] + rest) == [item.1] + Values(rest) && Values([] + rest) == Values(rest)
  {
  }

  /** The places one further on. */
  ghost function Shifted(rest: seq<nat>): (shifted: seq<nat>)
    ensures |shifted| == |rest| && forall j :: 0 <= j < |rest| ==> shifted[j] == rest[j] + 1
  {
    seq(|rest|, j requires 0 <= j < |rest| => rest[j] + 1)
  }

  lemma ShiftedHolds(rest: seq<nat>, p: nat)
    ensures p in Shifted(rest) <==> p > 0 && p - 1 in rest
  {
    if p > 0 && p - 1 in rest {
      var j :| 0 <= j < |rest| && rest[j] == p - 1;
      assert Shifted(rest)[j] == p;
    }
  }

  /** Places in the rest of the arguments, seen from one before it, which itself may be passed by keyword. */
  lemma ShiftPlaces(args: seq<string>, arguments: Named, kw: Named, rest: seq<nat>) returns (at: seq<nat>)
    requires arguments != [] && InPlace(args, arguments[1..], kw, rest)
    ensures InPlace((if ByKeyword(arguments[0].0, kw) then [] else [arguments[0].1]) + args, arguments, kw, at)
  {
    hide ByKeyword;
    if ByKeyword(arguments[0].0, kw) {
      at := Shifted(rest);
      assert [] + args == args;
      SkipFirst(args, arguments, kw, rest);
    } else {
      at := [0] + Shifted(rest);
      TakeFirst(args, arguments, kw, rest);
    }
  }

  lemma SkipFirst(args: seq<string>, arguments: Named, kw: Named, rest: seq<nat>)
    requires arguments != [] && ByKeyword(arguments[0].0, kw) && InPlace(args, arguments[1..], kw, rest)
    ensures InPlace(args, arguments, kw, Shifted(rest))
  {
    PicksLater(args, arguments, rest);
    hide ByKeyword, Picks;
    forall p: nat
      ensures p in Shifted(rest) <==> p < |arguments| && !ByKeyword(arguments[p].0, kw)
    {
      ShiftedHolds(rest, p);
      assert 0 < p < |arguments| ==> arguments[1..][p - 1] == arguments[p];
    }
  }

  lemma TakeFirst(args: seq<string>, arguments: Named, kw: Named, rest: seq<nat>)
    requires arguments != [] && !ByKeyword(arguments[0].0, kw) && InPlace(args, arguments[1..], kw, rest)
    ensures InPlace([arguments[0].1] + args, arguments, kw, [0] + Shifted(rest))
  {
    PicksLater(args, arguments, rest);
    PicksFirst(args, arguments, Shifted(rest));
    hide ByKeyword, Picks;
    forall p: nat
      ensures p in [0] + Shifted(rest) <==> p < |arguments| && !ByKeyword(arguments[p].0, kw)
    {
      ShiftedHolds(rest, p);
      assert 0 < p < |arguments| ==> arguments[1..][p - 1] == arguments[p];
    }
  }

  lemma PicksLater(args: seq<string>, arguments: Named, rest: seq<nat>)
    requires arguments != [] && Picks(args, arguments[1..], rest)
    ensures Picks(args, arguments, Shifted(rest)) && forall j :: 0 <= j < |rest| ==> Shifted(rest)[j] > 0
  {
  }

  lemma PicksFirst(args: seq<string>, arguments: Named, at: seq<nat>)
    requires arguments != [] && Picks(args, arguments, at) && forall j :: 0 <= j < |at| ==> at[j] > 0
    ensures Picks([arguments[0].1] + args, arguments, [0] + at)
  {
  }

  ghost predicate DistinctKeys(named: Named)
  {
    forall i, j :: 0 <= i < j < |named| ==> named[i].0 != named[j].0
  }

  lemma {:induction false} PositionalIff(arguments: Named, kw: Named, item: (string, string))
    ensures item in Positional(arguments, kw) <==> item in arguments && item.0 !in Keys(kw)
  {
    if arguments != [] {
      assert arguments == [arguments[0]] + arguments[1..];
      PositionalIff(arguments[1..], kw, item);
    }
  }

  /** What the raw messenger receives reassembles the named arguments: every one is passed exactly
      one way, positionally under its parameter or by keyword, and nothing else is passed. */
  lemma CaptureReassembles(methodName: string, messageType: string, recipient: string, arguments: Named, kw: Named,
          item: (string, string))
    requires DistinctKeys(arguments) && forall k :: k in kw ==> k in arguments
    ensures var inv := Capture(methodName, messageType, recipient, arguments, Some(kw));
            var byPosition := Positional(arguments, kw);
            inv.args == Values(byPosition) && inv.kwargs == kw && inv.arguments == arguments &&
            (item in arguments <==> item in byPosition || item in inv.kwargs) &&
            !(item in byPosition && item in inv.kwargs)
  {
    PositionalIff(arguments, kw, item);
    if item in kw {
      var i :| 0 <= i < |kw| && kw[i] == item;
      assert Keys(kw)[i] == item.0;
    }
    if item in arguments && item.0 in Keys(kw) {
      var i :| 0 <= i < |kw| && Keys(kw)[i] == item.0;
      assert kw[i] in arguments;
      var a :| 0 <= a < |arguments| && arguments[a] == item;
      var b :| 0 <= b < |arguments| && arguments[b] == kw[i];
      assert a == b;
    }
  }

  /** `with_arguments`: without explicit `args` and `kwargs` every value becomes positional. */
  function WithArguments(inv: Invocation, arguments: Named, args: Option<seq<string>>,
          kwargs: Option<Named>): (rewritten: Invocation)
    ensures rewritten.methodName == inv.methodName && rewritten.messageType == inv.messageType
    ensures rewritten.recipient == inv.recipient && rewritten.arguments == arguments
    ensures kwargs == if rewritten.kwargs == [] && kwargs.None? then None else Some(rewritten.kwargs)
    ensures args.Some? ==> rewritten.args == args.value
    ensures args.None? ==> |rewritten.args| == |arguments| &&
                           forall k :: 0 <= k < |arguments| ==> rewritten.args[k] == arguments[k].1
  {
    inv.(args := if args.Some? then args.value else Values(arguments),
         kwargs := if kwargs.Some? then kwargs.value else [],
         arguments := arguments)
  }

  lemma {:induction false} AllPositional(arguments: Named)
    ensures Positional(arguments, []) == arguments
  {
    if arguments != [] {
      AllPositional(arguments[1..]);
    }
  }

  /** Substituting a captured call's own arguments by default gives the call back exactly when it
      has no keyword-only arguments; otherwise those are turned into positional ones. */
  lemma DefaultRewriteKeepsShapeIff(methodName: string, messageType: string, recipient: string, arguments: Named,
          kw: Named)
    ensures var inv := Capture(methodName, messageType, recipient, arguments, Some(kw));
            WithArguments(inv, inv.arguments, None, None) == inv <==> kw == []
  {
    AllPositional(arguments);
  }
}

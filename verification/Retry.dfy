/** Bounded retry: one specification and the three loops that meet it. */
module Retry {
  import opened Outcomes

  /** How one attempt ends: success, a failure classified as retryable or not, or a cancellation. */
  datatype Attempt = Success | Transient | Permanent | Cancelled

  /** How the whole retry ends: with a value, with the error of its last attempt, or cut off in a
      sleep between attempts. */
  datatype End = Value | Error(last: Attempt) | CutOff

  /** `used` attempts ending in `end` is what a retry of at most `attempts` does: attempts go on while they
      fail transiently, one is left, and the sleep before it is not cut off. */
  ghost predicate Bounded(attempts: int, outcome: nat -> Attempt, cut: nat -> bool, used: nat, end: End)
  {
    && 1 <= used <= attempts
    && (forall k: nat :: k < used - 1 ==> outcome(k) == Transient && !cut(k))
    && match end
       case Value => outcome(used - 1) == Success
       case Error(last) =>
         last == outcome(used - 1) && last != Success && (last == Transient ==> used == attempts)
       case CutOff => outcome(used - 1) == Transient && used < attempts && cut(used - 1)
  }

  /** The specification leaves no choice. */
  lemma BoundedIsUnique(attempts: int, outcome: nat -> Attempt, cut: nat -> bool, u: nat, e: End, v: nat, f: End)
    requires Bounded(attempts, outcome, cut, u, e) && Bounded(attempts, outcome, cut, v, f)
    ensures u == v && e == f
  {
  }

  /** `n` sleeps of at most `max` each. */
  function Times(n: int, max: real): real
  {
    n as real * max
  }

  lemma OneMoreSleep(n: int, max: real)
    ensures Times(n + 1, max) == Times(n, max) + max && Times(0, max) == 0.0
  {
    assert (n + 1) as real * max == n as real * max + max;
  }

  function Power(base: real, exponent: nat): real
  {
    if exponent == 0 then 1.0 else base * Power(base, exponent - 1)
  }

  function Clamp(delay: real, max: real): (d: real)
    ensures d <= delay && d <= max && d in {delay, max}
  {
    if delay < max then delay else max
  }

  datatype Policy = Policy(attempts: int, initialDelay: real, maxDelay: real, multiplier: real, jitter: real)

  predicate ValidPolicy(p: Policy)
  {
    p.attempts >= 1 && p.initialDelay >= 0.0 && p.maxDelay >= 0.0 && p.multiplier >= 1.0 && 0.0 <= p.jitter <= 1.0
  }

  /** `RetryPolicy.delay_for`; `draw` is the random jitter. */
  function DelayFor(p: Policy, attempt: nat, draw: real): (d: real)
    requires ValidPolicy(p) && -p.jitter <= draw <= p.jitter
    ensures 0.0 <= d <= p.maxDelay
  {
    var delay := p.initialDelay * Power(p.multiplier, attempt);
    var jittered := if p.jitter != 0.0 then delay * (1.0 + draw) else delay;
    var capped := Clamp(jittered, p.maxDelay);
    if capped > 0.0 then capped else 0.0
  }

  /** Without jitter the delay starts at the initial one and is multiplied from attempt to attempt, capped
      at the maximum; jitter scales the start by the drawn fraction. */
  lemma DelayGrows(p: Policy, attempt: nat, draw: real)
    requires ValidPolicy(p) && -p.jitter <= draw <= p.jitter
    ensures DelayFor(p, 0, draw) == Clamp(p.initialDelay * (1.0 + draw), p.maxDelay)
    ensures DelayFor(p, attempt + 1, draw) == Clamp(DelayFor(p, attempt, draw) * p.multiplier, p.maxDelay)
  {
    hide *;
    DelayStarts(p, draw);
    DelayMultiplies(p, attempt, draw);
  }

  lemma DelayStarts(p: Policy, draw: real)
    requires ValidPolicy(p) && -p.jitter <= draw <= p.jitter
    ensures DelayFor(p, 0, draw) == Clamp(p.initialDelay * (1.0 + draw), p.maxDelay)
  {
    hide Clamp, Power;
    RawDelayGrows(p, 0, draw);
    DelayIsClamped(p, 0, draw);
  }

  lemma DelayMultiplies(p: Policy, attempt: nat, draw: real)
    requires ValidPolicy(p) && -p.jitter <= draw <= p.jitter
    ensures DelayFor(p, attempt + 1, draw) == Clamp(DelayFor(p, attempt, draw) * p.multiplier, p.maxDelay)
  {
    hide Clamp, Power, RawDelay, DelayFor;
    RawDelayGrows(p, attempt, draw);
    DelayIsClamped(p, attempt, draw);
    DelayIsClamped(p, attempt + 1, draw);
    ClampGrows(RawDelay(p, attempt, draw), p.maxDelay, p.multiplier);
  }

  lemma DelayIsClamped(p: Policy, attempt: nat, draw: real)
    requires ValidPolicy(p) && -p.jitter <= draw <= p.jitter && RawDelay(p, attempt, draw) >= 0.0
    ensures DelayFor(p, attempt, draw) == Clamp(RawDelay(p, attempt, draw), p.maxDelay)
  {
    hide Power;
    assert p.jitter == 0.0 ==> draw == 0.0;
  }

  function RawDelay(p: Policy, attempt: nat, draw: real): real
  {
    p.initialDelay * Power(p.multiplier, attempt) * (1.0 + draw)
  }

  lemma RawDelayGrows(p: Policy, attempt: nat, draw: real)
    requires ValidPolicy(p) && -p.jitter <= draw <= p.jitter
    ensures RawDelay(p, 0, draw) == p.initialDelay * (1.0 + draw) >= 0.0
    ensures RawDelay(p, attempt + 1, draw) == RawDelay(p, attempt, draw) * p.multiplier >= 0.0
    ensures RawDelay(p, attempt, draw) >= 0.0
  {
    PowerPositive(p.multiplier, attempt);
    var (start, power) := (p.initialDelay, Power(p.multiplier, attempt));
    assert Power(p.multiplier, 0) == 1.0 && Power(p.multiplier, attempt + 1) == p.multiplier * power;
    hide Power;
    ProductIsNotNegative(start, 1.0 + draw);
    ProductIsNotNegative(start, power);
    ProductIsNotNegative(start * power, 1.0 + draw);
    ProductIsNotNegative(start * power * (1.0 + draw), p.multiplier);
    Reorder(start, power, p.multiplier, 1.0 + draw);
  }

  lemma ProductIsNotNegative(a: real, b: real)
    requires a >= 0.0 && b >= 0.0
    ensures a * b >= 0.0
  {
  }

  lemma Reorder(a: real, b: real, c: real, d: real)
    ensures a * (c * b) * d == a * b * d * c
  {
    assert a * (c * b) == a * b * c;
    assert a * b * c * d == a * b * d * c;
  }

  /** Capping before a growing step or only after it gives the same. */
  lemma ClampGrows(delay: real, max: real, factor: real)
    requires delay >= 0.0 && max >= 0.0 && factor >= 1.0
    ensures Clamp(delay * factor, max) == Clamp(Clamp(delay, max) * factor, max) >= 0.0
  {
    assert delay * factor >= delay && max * factor >= max;
  }

  lemma {:induction false} PowerPositive(base: real, n: nat)
    requires base >= 1.0
    ensures Power(base, n) > 0.0
  {
    if n > 0 {
      PowerPositive(base, n - 1);
    }
  }

  /** The sleeps after the first `n` attempts. */
  function Delays(p: Policy, draw: nat -> real, n: nat): (slept: real)
    requires ValidPolicy(p) && forall k: nat :: -p.jitter <= draw(k) <= p.jitter
    ensures 0.0 <= slept <= Times(n, p.maxDelay)
  {
    hide Times;
    OneMoreSleep(if n == 0 then 0 else n - 1, p.maxDelay);
    if n == 0 then 0.0 else Delays(p, draw, n - 1) + DelayFor(p, n - 1, draw(n - 1))
  }

  /** `retry_async`: every attempt but the last is followed by its delay. A zero delay does not sleep, so
      it cannot be cut off. */
  method RetryAsync(p: Policy, outcome: nat -> Attempt, draw: nat -> real, cancels: nat -> bool)
    returns (used: nat, end: End, slept: real)
    requires ValidPolicy(p) && forall k: nat :: -p.jitter <= draw(k) <= p.jitter
    ensures Bounded(p.attempts, outcome, SleepCuts(p, draw, cancels), used, end)
    ensures slept == Delays(p, draw, used - 1) <= Times(used - 1, p.maxDelay)
  {
    ghost var cut := SleepCuts(p, draw, cancels);
    hide DelayFor, Times;
    var attempt: nat := 0;
    slept := 0.0;
    while attempt < p.attempts
      invariant attempt < p.attempts
      invariant forall k: nat :: k < attempt ==> outcome(k) == Transient && !cut(k)
      invariant slept == Delays(p, draw, attempt)
      decreases p.attempts - attempt
    {
      if outcome(attempt) == Success {
        return attempt + 1, Value, slept;
      }
      if outcome(attempt) == Cancelled {
        return attempt + 1, Error(Cancelled), slept;
      }
      if attempt == p.attempts - 1 || outcome(attempt) != Transient {
        return attempt + 1, Error(outcome(attempt)), slept;
      }
      var delay := DelayFor(p, attempt, draw(attempt));
      if delay != 0.0 {
        if cancels(attempt) {
          return attempt + 1, CutOff, slept;
        }
        slept := slept + delay;
      }
      attempt := attempt + 1;
    }
    assert false;
  }

  function SleepCuts(p: Policy, draw: nat -> real, cancels: nat -> bool): nat -> bool
  {
    (k: nat) => cancels(k) && DelayCuts(p, k, draw(k))
  }

  predicate DelayCuts(p: Policy, attempt: nat, draw: real)
  {
    ValidPolicy(p) && -p.jitter <= draw <= p.jitter && DelayFor(p, attempt, draw) != 0.0
  }

  /** `_calculate_backoff`: exponential, jittered between half and one and a half, capped. */
  function Backoff(baseDelay: real, maxDelay: real, attempt: nat, jitter: real): (d: real)
    ensures d <= maxDelay
  {
    Clamp(RawBackoff(baseDelay, attempt, jitter), maxDelay)
  }

  function RawBackoff(baseDelay: real, attempt: nat, jitter: real): real
  {
    baseDelay * Power(2.0, attempt) * jitter
  }

  /** The delay starts at the base one, scaled by the jitter, and doubles from attempt to attempt, capped
      at the maximum. */
  lemma BackoffGrows(baseDelay: real, maxDelay: real, attempt: nat, jitter: real)
    requires baseDelay >= 0.0 && maxDelay >= 0.0 && 0.5 <= jitter < 1.5
    ensures Backoff(baseDelay, maxDelay, 0, jitter) == Clamp(baseDelay * jitter, maxDelay)
    ensures Backoff(baseDelay, maxDelay, attempt + 1, jitter)
         == Clamp(Backoff(baseDelay, maxDelay, attempt, jitter) * 2.0, maxDelay)
  {
    RawBackoffGrows(baseDelay, attempt, jitter);
    ClampGrows(RawBackoff(baseDelay, attempt, jitter), maxDelay, 2.0);
    hide RawBackoff, Clamp;
  }

  lemma RawBackoffGrows(baseDelay: real, attempt: nat, jitter: real)
    requires baseDelay >= 0.0 && 0.5 <= jitter < 1.5
    ensures RawBackoff(baseDelay, 0, jitter) == baseDelay * jitter
    ensures RawBackoff(baseDelay, attempt + 1, jitter) == RawBackoff(baseDelay, attempt, jitter) * 2.0 >= 0.0
  {
    PowerPositive(2.0, attempt);
    var power := Power(2.0, attempt);
    assert Power(2.0, 0) == 1.0 && Power(2.0, attempt + 1) == 2.0 * power;
    hide Power;
    ProductIsNotNegative(baseDelay, power);
    ProductIsNotNegative(baseDelay * power, jitter);
    Reorder(baseDelay, power, 2.0, jitter);
  }

  lemma BackoffIsNotNegative(baseDelay: real, maxDelay: real, attempt: nat, jitter: real)
    requires baseDelay >= 0.0 && maxDelay >= 0.0 && 0.5 <= jitter < 1.5
    ensures Backoff(baseDelay, maxDelay, attempt, jitter) >= 0.0
  {
    hide RawBackoff;
    RawBackoffGrows(baseDelay, attempt, jitter);
  }

  datatype Settings = Settings(maxRetries: int, connectMaxRetries: int, baseDelay: real, maxDelay: real)

  predicate ValidSettings(s: Settings)
  {
    s.baseDelay >= 0.0 && s.maxDelay >= 0.0
  }

  /** The sleeps after the first `n` attempts. */
  function Backoffs(s: Settings, jitter: nat -> real, n: nat): (slept: real)
    requires ValidSettings(s) && forall k: nat :: 0.5 <= jitter(k) < 1.5
    ensures 0.0 <= slept <= Times(n, s.maxDelay)
  {
    hide Times;
    OneMoreSleep(if n == 0 then 0 else n - 1, s.maxDelay);
    if n == 0 then 0.0
    else
      BackoffIsNotNegative(s.baseDelay, s.maxDelay, n - 1, jitter(n - 1));
      Backoffs(s, jitter, n - 1) + Backoff(s.baseDelay, s.maxDelay, n - 1, jitter(n - 1))
  }

  /** A health check may also answer something unexpected, which is treated as transient. */
  datatype Health = Healthy | Unexpected | FailsTransiently | FailsPermanently | IsCancelled

  function HealthAttempt(h: Health): Attempt
  {
    match h
    case Healthy => Success
    case Unexpected => Transient
    case FailsTransiently => Transient
    case FailsPermanently => Permanent
    case IsCancelled => Cancelled
  }

  function HealthOutcome(health: nat -> Health): nat -> Attempt
  {
    (k: nat) => HealthAttempt(health(k))
  }

  /** `_initialize_with_retry`: true on the first healthy answer, false on the first permanent failure
      or after the last attempt; a cancellation propagates. */
  method InitializeWithRetry(s: Settings, health: nat -> Health, jitter: nat -> real, cancels: nat -> bool)
    returns (used: nat, end: End, healthy: bool, slept: real)
    requires ValidSettings(s) && forall k: nat :: 0.5 <= jitter(k) < 1.5
    ensures s.maxRetries >= 1 ==> Bounded(s.maxRetries, HealthOutcome(health), cancels, used, end)
    ensures s.maxRetries < 1 ==> used == 0 && slept == 0.0 && !healthy
    ensures s.maxRetries >= 1 ==>
      && slept == Backoffs(s, jitter, used - 1) <= Times(used - 1, s.maxDelay)
      && (healthy <==> end == Value) && (healthy <==> health(used - 1) == Healthy)
      && (end == Error(Permanent) <==> health(used - 1) == FailsPermanently)
      && (end == Error(Cancelled) <==> health(used - 1) == IsCancelled)
      && forall k: nat :: k < used - 1 ==> health(k) in {Unexpected, FailsTransiently}
  {
    hide Times, Backoff;
    var attempt: nat := 0;
    ghost var outcome := HealthOutcome(health);
    used, end, healthy, slept := 0, Error(Transient), false, 0.0;
    while attempt < s.maxRetries
      invariant attempt <= s.maxRetries || (attempt == 0 && s.maxRetries < 1)
      invariant used == attempt && !healthy && end == Error(Transient)
      invariant forall k: nat :: k < attempt ==> outcome(k) == Transient && health(k) in {Unexpected, FailsTransiently}
      invariant forall k: nat :: k < attempt && k < s.maxRetries - 1 ==> !cancels(k)
      invariant slept == Backoffs(s, jitter, Slept(s, attempt))
      decreases s.maxRetries - attempt
    {
      used := attempt + 1;
      match health(attempt) {
        case Healthy => return used, Value, true, slept;
        case IsCancelled => return used, Error(Cancelled), false, slept;
        case FailsPermanently => return used, Error(Permanent), false, slept;
        case _ =>
      }
      if attempt < s.maxRetries - 1 {
        var delay := Backoff(s.baseDelay, s.maxDelay, attempt, jitter(attempt));
        if cancels(attempt) {
          return used, CutOff, false, slept;
        }
        slept := slept + delay;
      }
      attempt := attempt + 1;
    }
  }

  /** After the last attempt nothing is slept. */
  function Slept(s: Settings, attempt: nat): nat
  {
    if attempt == 0 || attempt < s.maxRetries then attempt else attempt - 1
  }
}

/** Sessions of the database manager: acquisition with connect retries, use, and teardown. */
module SessionManager {
  import opened Outcomes
  import opened Retry

  /** What is done with the sessions, each named by the attempt that created it. */
  datatype Event =
    | Created(id: nat)
    | Connect(id: nat)
    | Body(id: nat)
    | Commit(id: nat)
    | Rollback(id: nat)
    | Close(id: nat)

  /** How a shielded teardown step ends: done, or failed or timed out and ignored, or interrupted by
      something that is not an `Exception`. */
  datatype Teardown = Done | Ignored | Interrupted

  datatype BodyExit = Normal | Raises(error: string)

  /** How the managed block ends for its caller; `NotAcquired` raises what the acquisition ended with. */
  datatype Exit = Completed | Propagates(error: string) | Cut | NotAcquired(end: End)

  /** The events of one failed connection attempt. */
  function FailedAttempt(id: nat): seq<Event>
  {
    [Created(id), Connect(id), Close(id)]
  }

  /** The events of the first `n` failed connection attempts: each session is closed before the next. */
  function FailedAttempts(n: nat): seq<Event>
  {
    if n == 0 then [] else FailedAttempts(n - 1) + FailedAttempt(n - 1)
  }

  /** A failed connect whose closing is interrupted counts as cancelled. */
  function ConnectAttempt(connect: nat -> Attempt, closing: nat -> Teardown): nat -> Attempt
  {
    (k: nat) => if connect(k) != Success && closing(k) == Interrupted then Cancelled else connect(k)
  }

  /** `_acquire_session`: with retries, a session is returned only connected; every other session made
      has been closed once, and nothing was done after its close. */
  method AcquireSession(s: Settings, connect: nat -> Attempt, closing: nat -> Teardown, jitter: nat -> real,
          cancels: nat -> bool)
    returns (session: Option<nat>, used: nat, end: End, log: seq<Event>, slept: real)
    requires ValidSettings(s) && forall k: nat :: 0.5 <= jitter(k) < 1.5
    ensures s.connectMaxRetries <= 0 ==>
              session == Some(0) && used == 1 && log == [Created(0)] && end == Value && slept == 0.0
    ensures s.connectMaxRetries > 0 ==>
              Bounded(s.connectMaxRetries + 1, ConnectAttempt(connect, closing), cancels, used, end)
    ensures s.connectMaxRetries > 0 ==>
      && slept == Backoffs(s, jitter, used - 1) <= Times(used - 1, s.maxDelay)
      && (session.Some? <==> connect(used - 1) == Success)
      && (end.Error? ==> end.last == if closing(used - 1).Interrupted? then Cancelled else connect(used - 1))
      && forall k: nat :: k < used - 1 ==> connect(k) == Transient && !closing(k).Interrupted? && !cancels(k)
    ensures s.connectMaxRetries > 0 && end == Value ==>
      session == Some(used - 1) && log == FailedAttempts(used - 1) + [Created(used - 1), Connect(used - 1)]
    ensures s.connectMaxRetries > 0 && end != Value ==> session == None && log == FailedAttempts(used)
  {
    if s.connectMaxRetries <= 0 {
      return Some(0), 1, Value, [Created(0)], 0.0;
    }
    var attempt: nat := 0;
    ghost var attempts, outcome := s.connectMaxRetries + 1, ConnectAttempt(connect, closing);
    hide Times, Backoff;
    log, slept := [], 0.0;
    while true
      invariant attempt <= s.connectMaxRetries && log == FailedAttempts(attempt)
      invariant forall k: nat :: k < attempt ==>
        connect(k) == Transient && !closing(k).Interrupted? && !cancels(k)
      invariant slept == Backoffs(s, jitter, attempt)
      decreases s.connectMaxRetries - attempt
    {
      log := log + [Created(attempt), Connect(attempt)];
      if connect(attempt) == Success {
        return Some(attempt), attempt + 1, Value, log, slept;
      }
      log := log + [Close(attempt)];
      assert log == FailedAttempts(attempt + 1);
      if closing(attempt) == Interrupted {
        return None, attempt + 1, Error(Cancelled), log, slept;
      }
      if connect(attempt) != Transient || attempt >= s.connectMaxRetries {
        return None, attempt + 1, Error(connect(attempt)), log, slept;
      }
      var delay := Backoff(s.baseDelay, s.maxDelay, attempt, jitter(attempt));
      if cancels(attempt) {
        return None, attempt + 1, CutOff, log, slept;
      }
      slept := slept + delay;
      attempt := attempt + 1;
    }
  }

  /** What the caller sees of one managed block. */
  datatype Script = Script(autoCommit: bool, body: BodyExit, commit: Teardown, rollback: Teardown, close: Teardown)

  /** The commit is attempted, and is itself interrupted. */
  predicate CommitCut(x: Script)
  {
    x.body.Normal? && x.autoCommit && x.commit.Interrupted?
  }

  predicate RollsBack(x: Script)
  {
    x.body.Raises? || CommitCut(x)
  }

  /** `_managed_session` after acquisition: commit, rollback and close, each shielded. */
  method UseSession(id: nat, x: Script) returns (log: seq<Event>, exit: Exit)
    ensures log == UseLog(id, x) && InTurn(log)
    ensures exit == UseExit(x) && ExitOf(x, exit)
  {
    log, exit := [Body(id)], Completed;
    if x.body.Raises? {
      exit := Propagates(x.body.error);
    } else if x.autoCommit {
      log := log + [Commit(id)];
      if x.commit.Interrupted? {
        exit := Cut;
      }
    }
    if exit != Completed {
      log := log + [Rollback(id)];
      if x.rollback.Interrupted? {
        exit := Cut;
      }
    }
    log := log + [Close(id)];
    if x.close.Interrupted? {
      exit := Cut;
    }
    UseInTurn(id, x);
  }

  function UseLog(id: nat, x: Script): seq<Event>
  {
    [Body(id)]
    + (if x.body.Normal? && x.autoCommit then [Commit(id)] else [])
    + (if RollsBack(x) then [Rollback(id)] else [])
    + [Close(id)]
  }

  function UseExit(x: Script): Exit
  {
    if x.close.Interrupted? || CommitCut(x) || (RollsBack(x) && x.rollback.Interrupted?) then Cut
    else match x.body
      case Normal => Completed
      case Raises(e) => Propagates(e)
  }

  /** The exit over what the caller sees: a normal block completes exactly if neither an attempted commit nor
      the close is interrupted; the body's error gets out exactly if no teardown step is interrupted. */
  ghost predicate ExitOf(x: Script, exit: Exit)
  {
    match x.body
    case Normal =>
      exit == if x.close == Interrupted || (x.autoCommit && x.commit == Interrupted) then Cut else Completed
    case Raises(e) => exit == if x.rollback == Interrupted || x.close == Interrupted then Cut else Propagates(e)
  }

  /** Where an event stands in the life of its session. */
  function Stage(e: Event): nat
  {
    match e
    case Created(_) => 0
    case Connect(_) => 1
    case Body(_) => 2
    case Commit(_) => 3
    case Rollback(_) => 4
    case Close(_) => 5
  }

  predicate Earlier(a: Event, b: Event)
  {
    a.id < b.id || (a.id == b.id && Stage(a) < Stage(b))
  }

  /** One session after the other, and each in the order created, connected, body, commit, rollback, close;
      no event occurs twice. */
  ghost predicate InTurn(log: seq<Event>)
  {
    forall i, j :: 0 <= i < j < |log| ==> Earlier(log[i], log[j])
  }

  /** Everything in `a` is earlier than everything in `b`. */
  ghost predicate AllEarlier(a: seq<Event>, b: seq<Event>)
  {
    forall d, e :: d in a && e in b ==> Earlier(d, e)
  }

  lemma InTurnConcat(a: seq<Event>, b: seq<Event>)
    requires InTurn(a) && InTurn(b) && AllEarlier(a, b)
    ensures InTurn(a + b)
  {
    hide Earlier;
  }

  /** What a failed attempt does. */
  predicate Attempted(e: Event, id: nat)
  {
    e.id == id && (e.Created? || e.Connect? || e.Close?)
  }

  /** The log of the first `n` failed attempts: one after the other, each created, connected and closed. */
  ghost predicate OnlyAttempts(log: seq<Event>, n: nat)
  {
    InTurn(log) && forall e :: e in log <==> Attempted(e, e.id) && e.id < n
  }

  lemma {:induction false} AttemptsInTurn(n: nat)
    ensures OnlyAttempts(FailedAttempts(n), n)
  {
    hide *;
    if n == 0 {
      NoneAttempted();
    } else {
      AttemptsInTurn(n - 1);
      AttemptFollows(FailedAttempts(n - 1), n - 1);
      OneMoreAttempt(n);
    }
  }

  lemma NoneAttempted()
    ensures OnlyAttempts(FailedAttempts(0), 0)
  {
  }

  lemma AttemptFollows(log: seq<Event>, n: nat)
    requires OnlyAttempts(log, n)
    ensures OnlyAttempts(log + FailedAttempt(n), n + 1)
  {
    AttemptInTurn(n);
    var own := FailedAttempt(n);
    assert AllEarlier(log, own);
    hide FailedAttempt, InTurn, AllEarlier;
    InTurnConcat(log, own);
    InEither(log, own);
  }

  lemma InEither(a: seq<Event>, b: seq<Event>)
    ensures forall e :: e in a + b <==> e in a || e in b
  {
  }

  lemma AttemptInTurn(id: nat)
    ensures InTurn(FailedAttempt(id)) && forall e :: e in FailedAttempt(id) <==> Attempted(e, id)
  {
  }

  lemma UseInTurn(id: nat, x: Script)
    ensures InTurn(UseLog(id, x)) && forall e :: e in UseLog(id, x) ==> e.id == id && Stage(e) >= 2
  {
  }

  /** The events of an acquisition that gives a session, after `used` attempts. */
  function Acquired(s: Settings, used: nat): seq<Event>
    requires used >= 1
  {
    if s.connectMaxRetries <= 0 then [Created(0)]
    else FailedAttempts(used - 1) + [Created(used - 1), Connect(used - 1)]
  }

  /** The whole managed block: acquire, then use. The block is entered exactly when the acquisition, run by
      the retry specification, ends in a session; the log is exact either way. */
  method ManagedSession(s: Settings, connect: nat -> Attempt, closing: nat -> Teardown, jitter: nat -> real,
          cancels: nat -> bool, x: Script)
    returns (log: seq<Event>, entered: bool, exit: Exit, ghost used: nat, ghost end: End)
    requires ValidSettings(s) && forall k: nat :: 0.5 <= jitter(k) < 1.5
    ensures Accounted(log)
    ensures s.connectMaxRetries > 0 ==>
              Bounded(s.connectMaxRetries + 1, ConnectAttempt(connect, closing), cancels, used, end)
    ensures s.connectMaxRetries <= 0 ==> used == 1 && end == Value
    ensures entered <==> end == Value
    ensures entered ==> used >= 1 && log == Acquired(s, used) + UseLog(used - 1, x) && exit == UseExit(x)
    ensures !entered ==> log == FailedAttempts(used) && exit == NotAcquired(end)
    ensures Manages(log, s, used, entered, x)
    ensures entered ==> ExitOf(x, exit)
  {
    hide Accounted, Manages, Bounded, UseLog, UseExit, FailedAttempts;
    var session, attempts, ended, acquired, slept := AcquireSession(s, connect, closing, jitter, cancels);
    used, end := attempts, ended;
    if session.None? {
      FailedAccounted(attempts);
      FailedManages(s, attempts, x);
      return acquired, false, NotAcquired(ended), attempts, ended;
    }
    var id := session.value;
    var use, left := UseSession(id, x);
    log := acquired + use;
    SuccessAccounted(acquired, id, x);
    OneTransactionAtMost(s, attempts, x);
    return log, true, left, attempts, ended;
  }

  /** The events of one session, in order. */
  function Of(log: seq<Event>, id: nat): seq<Event>
  {
    if log == [] then [] else Of(log[..|log| - 1], id) + if log[|log| - 1].id == id then [log[|log| - 1]] else []
  }

  /** A session that was created is closed exactly once, and nothing is done with it afterwards. */
  ghost predicate ClosedOnceAndLast(events: seq<Event>)
  {
    events != [] ==>
      events[0].Created? && events[|events| - 1].Close? && forall i :: 0 <= i < |events| - 1 ==> !events[i].Close?
  }

  ghost predicate Accounted(log: seq<Event>)
  {
    forall id :: ClosedOnceAndLast(Of(log, id))
  }

  lemma {:induction false} OfConcat(a: seq<Event>, b: seq<Event>, id: nat)
    ensures Of(a + b, id) == Of(a, id) + Of(b, id)
  {
    if b == [] {
      assert a + b == a;
    } else {
      OfConcat(a, b[..|b| - 1], id);
      assert (a + b)[..|a + b| - 1] == a + b[..|b| - 1];
    }
  }

  lemma OfAttempt(k: nat, id: nat)
    ensures Of(FailedAttempt(k), id) == if id == k then FailedAttempt(k) else []
  {
    OfOnly(FailedAttempt(k), k, id);
  }

  lemma NoAttempts(id: nat)
    ensures FailedAttempts(0) == Of(FailedAttempts(0), id) == []
  {
  }

  lemma OneMoreAttempt(n: nat)
    requires n > 0
    ensures FailedAttempts(n) == FailedAttempts(n - 1) + FailedAttempt(n - 1)
  {
  }

  lemma {:induction false} OfFailedAttempts(n: nat, id: nat)
    ensures Of(FailedAttempts(n), id) == if id < n then FailedAttempt(id) else []
  {
    hide *;
    if n == 0 {
      NoAttempts(id);
    } else {
      OneMoreAttempt(n);
      OfFailedAttempts(n - 1, id);
      OfConcat(FailedAttempts(n - 1), FailedAttempt(n - 1), id);
      OfAttempt(n - 1, id);
      OneSide(Of(FailedAttempts(n - 1), id), Of(FailedAttempt(n - 1), id));
    }
  }

  lemma OneSide(a: seq<Event>, b: seq<Event>)
    ensures (a == [] ==> a + b == b) && (b == [] ==> a + b == a)
  {
  }

  lemma FailedAccounted(n: nat)
    ensures Accounted(FailedAttempts(n))
  {
    forall id
      ensures ClosedOnceAndLast(Of(FailedAttempts(n), id))
    {
      OfFailedAttempts(n, id);
    }
  }

  /** A log of one session's events alone. */
  lemma {:induction false} OfOnly(log: seq<Event>, id: nat, other: nat)
    requires forall i :: 0 <= i < |log| ==> log[i].id == id
    ensures Of(log, other) == if other == id then log else []
  {
    if log != [] {
      OfOnly(log[..|log| - 1], id, other);
      assert log == log[..|log| - 1] + [log[|log| - 1]];
    }
  }

  lemma UseEndsInClose(id: nat, x: Script)
    ensures var log := UseLog(id, x);
            |log| > 0 && log[|log| - 1] == Close(id) && (forall i :: 0 <= i < |log| - 1 ==> !log[i].Close?) &&
            forall i :: 0 <= i < |log| ==> log[i].id == id
  {
  }

  lemma ClosedAfterPrefix(prefix: seq<Event>, use: seq<Event>)
    requires prefix != [] && prefix[0].Created? && forall i :: 0 <= i < |prefix| ==> !prefix[i].Close?
    requires use != [] && use[|use| - 1].Close? && forall i :: 0 <= i < |use| - 1 ==> !use[i].Close?
    ensures ClosedOnceAndLast(prefix + use)
  {
  }

  /** Every exit from acquiring and using a session leaves it closed exactly once, last of all. */
  lemma SuccessAccounted(acquired: seq<Event>, id: nat, x: Script)
    requires (acquired == [Created(0)] && id == 0) || acquired == FailedAttempts(id) + [Created(id), Connect(id)]
    ensures Accounted(acquired + UseLog(id, x))
  {
    hide UseLog, Of;
    UseEndsInClose(id, x);
    forall other
      ensures ClosedOnceAndLast(Of(acquired + UseLog(id, x), other))
    {
      OfConcat(acquired, UseLog(id, x), other);
      OfOnly(UseLog(id, x), id, other);
      var own: seq<Event> := if acquired == [Created(0)] && id == 0 then [Created(0)] else [Created(id), Connect(id)];
      OfOnly(own, id, other);
      OfConcat(FailedAttempts(id), [Created(id), Connect(id)], other);
      OfFailedAttempts(id, other);
      if other == id {
        ClosedAfterPrefix(own, UseLog(id, x));
      }
    }
  }

  /** What is done with a session in use. */
  predicate InUse(e: Event, x: Script)
  {
    match e
    case Created(_) => false
    case Connect(_) => false
    case Body(_) => true
    case Commit(_) => x.body == Normal && x.autoCommit
    case Rollback(_) => x.body.Raises? || (x.autoCommit && x.commit == Interrupted)
    case Close(_) => true
  }

  /** The body runs; rollback is attempted on exactly the exceptional exits from the body or its commit, and a
      commit exactly after a normal body with auto-commit; never both unless the commit was interrupted. */
  lemma CommitAndRollback(id: nat, x: Script)
    ensures forall e :: e in UseLog(id, x) <==> e.id == id && InUse(e, x)
  {
    var log := UseLog(id, x);
    assert log[0] == Body(id) && log[|log| - 1] == Close(id);
    if RollsBack(x) {
      assert log[|log| - 2] == Rollback(id);
    }
    if x.body.Normal? && x.autoCommit {
      assert log[1] == Commit(id);
    }
  }

  /** The log of a managed block whose acquisition took `used` attempts: everything in turn, each session
      created and closed, connected only with retries, and only the last one used, if the block is entered. */
  ghost predicate Manages(log: seq<Event>, s: Settings, used: nat, entered: bool, x: Script)
  {
    && InTurn(log)
    && forall e :: e in log <==>
         match e
         case Created(id) => id < used
         case Connect(id) => id < used && s.connectMaxRetries > 0
         case Body(id) => entered && id == used - 1
         case Commit(id) => entered && id == used - 1 && x.body == Normal && x.autoCommit
         case Rollback(id) =>
           entered && id == used - 1 && (x.body.Raises? || (x.autoCommit && x.commit == Interrupted))
         case Close(id) => id < used
  }

  /** What an acquisition that gives a session does. */
  predicate Acquires(e: Event, s: Settings, used: nat)
  {
    match e
    case Created(id) => id < used
    case Connect(id) => id < used && s.connectMaxRetries > 0
    case Close(id) => id < used - 1
    case _ => false
  }

  lemma AcquiredInTurn(s: Settings, used: nat)
    requires used >= 1 && (s.connectMaxRetries <= 0 ==> used == 1)
    ensures Acquisition(Acquired(s, used), s, used)
  {
    if s.connectMaxRetries <= 0 {
      assert Acquired(s, used) == [Created(0)];
    } else {
      AttemptsInTurn(used - 1);
      assert Acquired(s, used) == FailedAttempts(used - 1) + [Created(used - 1), Connect(used - 1)];
      hide *;
      LastAttemptFollows(FailedAttempts(used - 1), s, used);
    }
  }

  /** The log of an acquisition that gives a session after `used` attempts. */
  ghost predicate Acquisition(log: seq<Event>, s: Settings, used: nat)
  {
    InTurn(log) && forall e :: e in log <==> Acquires(e, s, used)
  }

  lemma LastAttemptFollows(log: seq<Event>, s: Settings, used: nat)
    requires used >= 1 && s.connectMaxRetries > 0 && OnlyAttempts(log, used - 1)
    ensures Acquisition(log + [Created(used - 1), Connect(used - 1)], s, used)
  {
    var own := [Created(used - 1), Connect(used - 1)];
    assert InTurn(own);
    assert AllEarlier(log, own);
    hide InTurn, AllEarlier;
    InTurnConcat(log, own);
    InEither(log, own);
    assert forall e :: e in own <==> e.id == used - 1 && (e.Created? || e.Connect?);
  }

  lemma FailedManages(s: Settings, used: nat, x: Script)
    requires s.connectMaxRetries > 0
    ensures Manages(FailedAttempts(used), s, used, false, x)
  {
    AttemptsInTurn(used);
    hide FailedAttempts, InTurn;
  }

  /** Over the whole managed block, retries included: the only rollback is the used session's, on exactly the
      exceptional exits from its body or commit, and the only commit follows its normal body. */
  lemma OneTransactionAtMost(s: Settings, used: nat, x: Script)
    requires used >= 1 && (s.connectMaxRetries <= 0 ==> used == 1)
    ensures Manages(Acquired(s, used) + UseLog(used - 1, x), s, used, true, x)
  {
    AcquiredInTurn(s, used);
    UseInTurn(used - 1, x);
    CommitAndRollback(used - 1, x);
    hide *;
    UseFollows(Acquired(s, used), UseLog(used - 1, x), s, used, x);
  }

  lemma UseFollows(acquired: seq<Event>, use: seq<Event>, s: Settings, used: nat, x: Script)
    requires used >= 1 && Acquisition(acquired, s, used) && InTurn(use)
    requires forall e :: e in use <==> e.id == used - 1 && InUse(e, x)
    ensures Manages(acquired + use, s, used, true, x)
  {
    assert AllEarlier(acquired, use);
    hide InTurn, AllEarlier;
    InTurnConcat(acquired, use);
    InEither(acquired, use);
  }

  /** The body's error reaches the caller unchanged exactly when no teardown step is interrupted. */
  lemma BodyErrorPropagatesIff(x: Script)
    requires x.body.Raises?
    ensures UseExit(x) == Propagates(x.body.error) <==> !x.rollback.Interrupted? && !x.close.Interrupted?
  {
  }

  /** A normal exit does not show a durable commit: a commit that fails and is ignored looks the same. */
  lemma NormalExitHidesCommitFailure(x: Script)
    requires UseExit(x) == Completed
    ensures UseExit(x.(commit := Ignored)) == Completed
    ensures forall id :: UseLog(id, x.(commit := Ignored)) == UseLog(id, x)
  {
  }
}

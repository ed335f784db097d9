/** The shared HTTP session: acquisition, serialized recreation, draining and closing. */
module SessionLifecycle {
  import opened Outcomes

  datatype SessionError = RuntimeDraining | SessionClosed

  class Client {
    var closed: bool

    constructor ()
      ensures !closed
    {
      closed := false;
    }

    method Close()
      modifies this
      ensures closed
    {
      closed := true;
    }
  }

  class Lifecycle {
    var session: Client?
    var mediaClient: Client?
    var draining: bool

    constructor (client: Client)
      ensures session == client && mediaClient == null && !draining
    {
      session, mediaClient, draining := client, null, false;
    }

    method GetSession() returns (r: Result<Client, SessionError>)
      ensures draining ==> r == Err(RuntimeDraining)
      ensures !draining ==> r == if session != null && !session.closed then Ok(session) else Err(SessionClosed)
    {
      if draining {
        return Err(RuntimeDraining);
      }
      if session == null || session.closed {
        return Err(SessionClosed);
      }
      return Ok(session);
    }

    /** One caller's recreation, from acquiring the lock on: an open session is handed out as it is. */
    method Recreate() returns (r: Result<Client, SessionError>)
      modifies this`session
      ensures draining ==> r == Err(RuntimeDraining) && session == old(session)
      ensures !draining && old(session) != null && !old(session).closed ==>
                r == Ok(old(session)) && session == old(session)
      ensures !draining && (old(session) == null || old(session).closed) ==>
                r.Ok? && fresh(r.value) && session == r.value && !r.value.closed
    {
      if draining {
        return Err(RuntimeDraining);
      }
      if session != null && !session.closed {
        return Ok(session);
      }
      session := new Client();
      return Ok(session);
    }

    method MarkDraining()
      modifies this`draining
      ensures draining
    {
      draining := true;
    }

    /** The media client, made on first use and again once closed. */
    method GetMediaDownloadClient() returns (r: Result<Client, SessionError>)
      modifies this`mediaClient
      ensures draining ==> r == Err(RuntimeDraining) && mediaClient == old(mediaClient)
      ensures !draining && old(mediaClient) != null && !old(mediaClient).closed ==>
                r == Ok(old(mediaClient)) && mediaClient == old(mediaClient)
      ensures !draining && (old(mediaClient) == null || old(mediaClient).closed) ==>
                r.Ok? && fresh(r.value) && mediaClient == r.value && !r.value.closed
    {
      if draining {
        return Err(RuntimeDraining);
      }
      if mediaClient == null || mediaClient.closed {
        mediaClient := new Client();
      }
      return Ok(mediaClient);
    }

    method CloseAll()
      modifies this`session, this`mediaClient, session, mediaClient
      ensures session == null && (old(session) != null ==> old(session).closed)
      ensures mediaClient == null && (old(mediaClient) != null ==> old(mediaClient).closed)
    {
      if mediaClient != null && !mediaClient.closed {
        mediaClient.Close();
      }
      mediaClient := null;
      if session != null && !session.closed {
        session.Close();
      }
      session := null;
    }
  }

  // ---------------------------------------------------------------------------
  // Concurrent callers, closings and the start of draining, interleaved at every suspension point.
  // ---------------------------------------------------------------------------

  datatype Caller = WaitingForLock | Granted(client: nat) | Refused

  /** `open` are the clients not yet closed; `closers` counts `close()` calls suspended between
      closing the client and forgetting it; `closings` and `dropped` count how often the current
      session stopped being usable: its client was closed, or `close()` forgot an open one. */
  datatype State = State(
    session: Option<nat>, open: set<nat>, created: nat, draining: bool, callers: map<nat, Caller>,
    closers: nat, factoryCalls: nat, closings: nat, dropped: nat)

  datatype Step = Call(c: nat) | Enter(c: nat) | ClientCloses | BeginDrain | CloseStart | CloseFinish

  predicate Usable(s: State)
  {
    s.session.Some? && s.session.value in s.open
  }

  predicate Enabled(s: State, step: Step)
  {
    match step
    case Call(c) => c !in s.callers
    case Enter(c) => c in s.callers && s.callers[c].WaitingForLock?
    case ClientCloses => Usable(s)
    case CloseFinish => s.closers > 0
    case _ => true
  }

  function CloseCurrent(s: State): State
    requires Usable(s)
  {
    s.(open := s.open - {s.session.value}, closings := s.closings + 1)
  }

  function Forget(s: State): State
  {
    s.(session := None, dropped := s.dropped + if Usable(s) then 1 else 0)
  }

  function Next(s: State, step: Step): State
    requires Enabled(s, step)
  {
    match step
    case Call(c) => s.(callers := s.callers[c := if s.draining then Refused else WaitingForLock])
    case Enter(c) =>
      if s.draining then s.(callers := s.callers[c := Refused])
      else if Usable(s) then s.(callers := s.callers[c := Granted(s.session.value)])
      else s.(session := Some(s.created), open := s.open + {s.created}, created := s.created + 1,
              callers := s.callers[c := Granted(s.created)], factoryCalls := s.factoryCalls + 1)
    case ClientCloses => CloseCurrent(s)
    case BeginDrain => s.(draining := true)
    case CloseStart => if Usable(s) then CloseCurrent(s).(closers := s.closers + 1) else Forget(s)
    case CloseFinish => Forget(s).(closers := s.closers - 1)
  }

  ghost predicate Runs(s: State, steps: seq<Step>)
    decreases |steps|
  {
    steps == [] || (Enabled(s, steps[0]) && Runs(Next(s, steps[0]), steps[1..]))
  }

  ghost function After(s: State, steps: seq<Step>): State
    requires Runs(s, steps)
    decreases |steps|
  {
    if steps == [] then s else After(Next(s, steps[0]), steps[1..])
  }

  function Bit(b: bool): int { if b then 1 else 0 }

  /** Every factory call is paid for by a closing: the counts balance exactly over every run. */
  lemma {:induction false} FactoryCallsBalance(s: State, steps: seq<Step>)
    requires Runs(s, steps)
    ensures var u := After(s, steps);
            u.factoryCalls - s.factoryCalls
              == (u.closings - s.closings) + (u.dropped - s.dropped) + Bit(Usable(u)) - Bit(Usable(s))
    ensures var u := After(s, steps); u.closings >= s.closings && u.dropped >= s.dropped
    decreases |steps|
  {
    if steps != [] {
      FactoryCallsBalance(Next(s, steps[0]), steps[1..]);
    }
  }

  /** While nothing is closed, a usable session stays the same client. */
  lemma {:induction false} UsableSessionStays(s: State, steps: seq<Step>)
    requires Runs(s, steps) && Usable(s)
    requires var u := After(s, steps); u.closings == s.closings && u.dropped == s.dropped
    ensures var u := After(s, steps); Usable(u) && u.session == s.session && u.factoryCalls == s.factoryCalls
    decreases |steps|
  {
    if steps != [] {
      FactoryCallsBalance(Next(s, steps[0]), steps[1..]);
      UsableSessionStays(Next(s, steps[0]), steps[1..]);
    }
  }

  /** Two callers admitted with no closing between them are handed the same client, and the second
      does not call the factory. */
  lemma SameClientBetweenClosings(s: State, c: nat, steps: seq<Step>, d: nat)
    requires Enabled(s, Enter(c)) && !s.draining && Runs(Next(s, Enter(c)), steps)
    requires var u := After(Next(s, Enter(c)), steps);
             !u.draining && Enabled(u, Enter(d)) && u.closings == s.closings && u.dropped == s.dropped
    ensures var s1 := Next(s, Enter(c));
            var u := After(s1, steps);
            Next(u, Enter(d)).callers[d] == s1.callers[c] && s1.callers[c].Granted? &&
            Next(u, Enter(d)).factoryCalls == s1.factoryCalls
  {
    UsableSessionStays(Next(s, Enter(c)), steps);
  }

  ghost predicate Holds(s: State, c: nat)
  {
    c in s.callers && s.callers[c].Granted?
  }

  /** Once draining has begun nobody is granted a session any more. */
  lemma {:induction false} NoGrantWhileDraining(s: State, steps: seq<Step>, c: nat)
    requires s.draining && Runs(s, steps)
    ensures var u := After(s, steps); u.draining && (Holds(u, c) ==> Holds(s, c)) && u.factoryCalls == s.factoryCalls
    decreases |steps|
  {
    if steps != [] {
      NoGrantWhileDraining(Next(s, steps[0]), steps[1..], c);
    }
  }

  lemma {:induction false} NothingDroppedWhileDraining(s: State, steps: seq<Step>)
    requires s.draining && !Usable(s) && Runs(s, steps)
    ensures After(s, steps).dropped == s.dropped
    decreases |steps|
  {
    if steps != [] {
      NothingDroppedWhileDraining(Next(s, steps[0]), steps[1..]);
    }
  }

  /** Some continuation of a `close()` begun in `s` forgets an open client. */
  ghost predicate CloseCanLeak(s: State)
  {
    exists steps :: Runs(Next(s, CloseStart), steps) && After(Next(s, CloseStart), steps).dropped > s.dropped
  }

  lemma LeakWitness(s: State, c: nat)
    requires Usable(s) && !s.draining && c !in s.callers && s.created !in s.open
    ensures CloseCanLeak(s)
  {
    var s1 := Next(s, CloseStart);
    var s2 := Next(s1, Call(c));
    var s3 := Next(s2, Enter(c));
    var steps := [Call(c), Enter(c), CloseFinish];
    assert steps[1..] == [Enter(c), CloseFinish] && steps[1..][1..] == [CloseFinish] && steps[1..][1..][1..] == [];
    assert Runs(s3, [CloseFinish]) && After(s3, [CloseFinish]).dropped == s.dropped + 1;
    assert Runs(s2, [Enter(c), CloseFinish]);
    assert Runs(s1, steps) && After(s1, steps).dropped == s.dropped + 1;
  }

  /** Closing a usable session can leak a client recreated meanwhile exactly when draining has not
      begun: the shutdown order (drain, then close) is what makes closing safe. */
  lemma CloseLeaksExactlyWithoutDraining(s: State, c: nat)
    requires Usable(s) && c !in s.callers && s.created !in s.open
    ensures CloseCanLeak(s) <==> !s.draining
  {
    if s.draining {
      forall steps | Runs(Next(s, CloseStart), steps)
        ensures After(Next(s, CloseStart), steps).dropped == s.dropped
      {
        NothingDroppedWhileDraining(Next(s, CloseStart), steps);
      }
    } else {
      LeakWitness(s, c);
    }
  }
}

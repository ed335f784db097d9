/** `LocalRateLimiter`: a fixed window per profile and derived key. */
module RateLimiter {
  import opened Outcomes
  import Text

  datatype KeyBy = ClientIp | InboxId | InboxIdAndClientIp

  datatype Profile = Profile(name: string, limit: int, windowSeconds: int, keyBy: KeyBy)

  /** All that admission depends on: the name only has to be there. */
  predicate Positive(p: Profile)
  {
    p.limit >= 1 && p.windowSeconds >= 1
  }

  predicate ValidProfile(p: Profile)
  {
    Positive(p) && !Text.IsBlank(p.name)
  }

  datatype Window = Window(start: real, count: nat)

  datatype Verdict = Admitted(window: Window) | Rejected(retryAfter: int)

  function Ceiling(x: real): int
  {
    -((-x).Floor)
  }

  /** One check against a key's window at time `now`. */
  function CheckWindow(p: Profile, found: Option<Window>, now: real): Verdict
  {
    var w := if found.Some? then found.value else Window(now, 0);
    var elapsed := now - w.start;
    var current := if elapsed >= p.windowSeconds as real then Window(now, 0) else w;
    if current.count >= p.limit then
      var wait := Ceiling(p.windowSeconds as real - elapsed);
      Rejected(if wait > 1 then wait else 1)
    else
      Admitted(Window(current.start, current.count + 1))
  }

  /** The window has elapsed `seconds` from now. */
  predicate ElapsedIn(p: Profile, w: Window, now: real, seconds: int)
  {
    now + seconds as real - w.start >= p.windowSeconds as real
  }

  /** Retry-After lies in [1, window] and is the least whole number of seconds after which the
      rejecting window has elapsed. */
  lemma RetryAfterIsLeast(p: Profile, w: Window, now: real)
    requires Positive(p) && w.start <= now && CheckWindow(p, Some(w), now).Rejected?
    ensures var r := CheckWindow(p, Some(w), now).retryAfter;
            1 <= r <= p.windowSeconds && ElapsedIn(p, w, now, r) && forall s :: ElapsedIn(p, w, now, s) ==> r <= s
  {
    var left := p.windowSeconds as real - (now - w.start);
    assert 0.0 < left <= p.windowSeconds as real;
    forall s | ElapsedIn(p, w, now, s)
      ensures Ceiling(left) <= s
    {
      assert -(s as real) <= -left;
    }
  }

  // ---------------------------------------------------------------------------
  // The whole history of one key.
  // ---------------------------------------------------------------------------

  /** An admission and the start of the window that admitted it. */
  datatype Admission = Admission(at: real, start: real)

  datatype History = History(window: Option<Window>, admissions: seq<Admission>)

  /** All checks of one key, at the given times. */
  function Checks(p: Profile, times: seq<real>): History
  {
    if times == [] then History(None, []) else
      var h := Checks(p, times[..|times| - 1]);
      var now := times[|times| - 1];
      match CheckWindow(p, h.window, now)
      case Admitted(w) => History(Some(w), h.admissions + [Admission(now, w.start)])
      case Rejected(_) => h
  }

  ghost predicate Nondecreasing(times: seq<real>)
  {
    forall i, j :: 0 <= i < j < |times| ==> times[i] <= times[j]
  }

  /** How many admissions a window that started at `start` made. */
  function InWindow(a: seq<Admission>, start: real): nat
  {
    if a == [] then 0 else InWindow(a[..|a| - 1], start) + if a[|a| - 1].start == start then 1 else 0
  }

  /** How many admissions fell into the closed interval. */
  function InInterval(a: seq<Admission>, from: real, to: real): nat
  {
    if a == [] then 0 else InInterval(a[..|a| - 1], from, to) + if from <= a[|a| - 1].at <= to then 1 else 0
  }

  /** Every admission lies in its window, and later windows start at least a window length later. */
  ghost predicate Spaced(a: seq<Admission>, length: real)
  {
    && (forall i :: 0 <= i < |a| ==> a[i].start <= a[i].at < a[i].start + length)
    && (forall i, j :: 0 <= i < j < |a| ==> a[i].start == a[j].start || a[i].start + length <= a[j].start)
  }

  ghost predicate WindowHolds(p: Profile, h: History, now: real)
  {
    match h.window
    case None => h.admissions == []
    case Some(w) =>
      && 1 <= w.count <= p.limit && w.start <= now
      && h.admissions != [] && h.admissions[|h.admissions| - 1].start == w.start
      && InWindow(h.admissions, w.start) == w.count
  }

  lemma {:induction false} NoneInLaterWindow(a: seq<Admission>, length: real, start: real)
    requires forall i :: 0 <= i < |a| ==> a[i].start != start
    ensures InWindow(a, start) == 0
  {
    if a != [] {
      NoneInLaterWindow(a[..|a| - 1], length, start);
    }
  }

  /** Windows are spaced, and none holds more than the limit. */
  ghost predicate Sound(p: Profile, a: seq<Admission>)
  {
    Spaced(a, p.windowSeconds as real) && forall s :: InWindow(a, s) <= p.limit
  }

  lemma AdmissionKeeps(p: Profile, h: History, now: real, w: Window)
    requires Positive(p) && Sound(p, h.admissions) && WindowHolds(p, h, now)
    requires CheckWindow(p, h.window, now) == Admitted(w)
    ensures var h' := History(Some(w), h.admissions + [Admission(now, w.start)]);
            Sound(p, h'.admissions) && WindowHolds(p, h', now)
  {
    var a, next := h.admissions, Admission(now, w.start);
    assert Spaced(a, p.windowSeconds as real);
    LaterWindow(p, h, now, w);
    hide CheckWindow, Spaced, InWindow;
    SpacedGrows(a, p.windowSeconds as real, next);
    InWindowGrows(a, next);
    assert (a + [next])[|a|] == next;
  }

  /** The admitting window either is the current one or starts a window length after all earlier ones. */
  lemma LaterWindow(p: Profile, h: History, now: real, w: Window)
    requires Positive(p) && Spaced(h.admissions, p.windowSeconds as real) && WindowHolds(p, h, now)
    requires CheckWindow(p, h.window, now) == Admitted(w)
    ensures w.start <= now < w.start + p.windowSeconds as real && 1 <= w.count <= p.limit
    ensures InWindow(h.admissions, w.start) == w.count - 1
    ensures forall i :: 0 <= i < |h.admissions| ==>
              h.admissions[i].start == w.start || h.admissions[i].start + p.windowSeconds as real <= w.start
  {
    var a := h.admissions;
    var length := p.windowSeconds as real;
    assert length >= 1.0;
    match h.window {
      case None =>
        assert w == Window(now, 1);
        hide *;
        NoneInLaterWindow([], length, now);
      case Some(w0) =>
        EarlierThanLast(a, length);
        if now - w0.start >= length {
          assert w == Window(now, 1) && a[|a| - 1].start == w0.start;
          hide *;
          NoneInLaterWindow(a, length, now);
        } else {
          assert w == Window(w0.start, w0.count + 1);
          hide InWindow, Spaced;
        }
    }
  }

  lemma EarlierThanLast(a: seq<Admission>, length: real)
    requires Spaced(a, length) && a != []
    ensures forall i :: 0 <= i < |a| ==> a[i].start == a[|a| - 1].start || a[i].start + length <= a[|a| - 1].start
  {
  }

  lemma SpacedGrows(a: seq<Admission>, length: real, next: Admission)
    requires Spaced(a, length) && next.start <= next.at < next.start + length
    requires forall i :: 0 <= i < |a| ==> a[i].start == next.start || a[i].start + length <= next.start
    ensures Spaced(a + [next], length)
  {
  }

  lemma InWindowGrows(a: seq<Admission>, next: Admission)
    ensures forall s :: InWindow(a + [next], s) == InWindow(a, s) + if next.start == s then 1 else 0
  {
    assert (a + [next])[..|a|] == a;
  }

  /** On a nondecreasing clock every window admits at most the limit. */
  lemma {:induction false} WindowsKeepLimit(p: Profile, times: seq<real>)
    requires Positive(p) && Nondecreasing(times)
    ensures Sound(p, Checks(p, times).admissions)
    ensures if times == [] then Checks(p, times) == History(None, [])
            else WindowHolds(p, Checks(p, times), times[|times| - 1])
  {
    if times == [] {
      NothingAdmitted(p);
    } else {
      var before, now := times[..|times| - 1], times[|times| - 1];
      CutTimes(times);
      hide *;
      WindowsKeepLimit(p, before);
      if before == [] {
        HoldsAtFirst(p, now);
      } else {
        HoldsLater(p, Checks(p, before), before[|before| - 1], now);
      }
      CheckKeeps(p, before, now);
    }
  }

  lemma CutTimes(times: seq<real>)
    requires Nondecreasing(times) && times != []
    ensures var before, now := times[..|times| - 1], times[|times| - 1];
            times == before + [now] && Nondecreasing(before) && (before != [] ==> before[|before| - 1] <= now)
  {
  }

  lemma NothingAdmitted(p: Profile)
    requires Positive(p)
    ensures Checks(p, []) == History(None, []) && Sound(p, [])
  {
  }

  lemma HoldsAtFirst(p: Profile, now: real)
    ensures WindowHolds(p, History(None, []), now)
  {
  }

  lemma HoldsLater(p: Profile, h: History, earlier: real, now: real)
    requires WindowHolds(p, h, earlier) && earlier <= now
    ensures WindowHolds(p, h, now)
  {
    hide InWindow;
  }

  lemma CheckKeeps(p: Profile, before: seq<real>, now: real)
    requires Positive(p) && Sound(p, Checks(p, before).admissions) && WindowHolds(p, Checks(p, before), now)
    ensures Sound(p, Checks(p, before + [now]).admissions) && WindowHolds(p, Checks(p, before + [now]), now)
  {
    hide *;
    var h := Checks(p, before);
    OneMoreCheck(p, before, now);
    match CheckWindow(p, h.window, now) {
      case Admitted(w) => AdmissionKeeps(p, h, now, w);
      case Rejected(_) =>
    }
  }

  lemma {:induction false} TwoWindowsCover(a: seq<Admission>, from: real, to: real, s1: real, s2: real)
    requires forall i :: 0 <= i < |a| && from <= a[i].at <= to ==> a[i].start == s1 || a[i].start == s2
    ensures InInterval(a, from, to) <= InWindow(a, s1) + InWindow(a, s2)
  {
    if a != [] {
      TwoWindowsCover(a[..|a| - 1], from, to, s1, s2);
    }
  }

  lemma {:induction false} FirstInInterval(a: seq<Admission>, from: real, to: real) returns (i: nat)
    requires InInterval(a, from, to) > 0
    ensures i < |a| && from <= a[i].at <= to && forall k :: 0 <= k < i ==> !(from <= a[k].at <= to)
  {
    if InInterval(a[..|a| - 1], from, to) > 0 {
      i := FirstInInterval(a[..|a| - 1], from, to);
      assert forall k :: 0 <= k < i ==> a[k] == a[..|a| - 1][k];
    } else {
      i := |a| - 1;
      NoneInInterval(a[..i], from, to);
      assert forall k :: 0 <= k < i ==> a[k] == a[..i][k];
    }
  }

  lemma {:induction false} NoneInInterval(a: seq<Admission>, from: real, to: real)
    requires InInterval(a, from, to) == 0
    ensures forall k :: 0 <= k < |a| ==> !(from <= a[k].at <= to)
  {
    if a != [] {
      NoneInInterval(a[..|a| - 1], from, to);
      assert forall k :: 0 <= k < |a| - 1 ==> a[k] == a[..|a| - 1][k];
    }
  }

  lemma {:induction false} LastInInterval(a: seq<Admission>, from: real, to: real) returns (i: nat)
    requires InInterval(a, from, to) > 0
    ensures i < |a| && from <= a[i].at <= to && forall k :: i < k < |a| ==> !(from <= a[k].at <= to)
  {
    if from <= a[|a| - 1].at <= to {
      i := |a| - 1;
    } else {
      i := LastInInterval(a[..|a| - 1], from, to);
      assert forall k :: i < k < |a| - 1 ==> a[k] == a[..|a| - 1][k];
    }
  }

  /** Whatever the checks of a key, no closed interval of one window length holds more than twice the limit. */
  lemma SlidingBound(p: Profile, times: seq<real>, from: real)
    requires Positive(p) && Nondecreasing(times)
    ensures InInterval(Checks(p, times).admissions, from, from + p.windowSeconds as real) <= 2 * p.limit
  {
    var a := Checks(p, times).admissions;
    WindowsKeepLimit(p, times);
    assert p.limit >= 0 && Spaced(a, p.windowSeconds as real) && forall s :: InWindow(a, s) <= p.limit;
    hide *;
    IntervalBound(a, p.limit, p.windowSeconds as real, from);
  }

  lemma IntervalBound(a: seq<Admission>, limit: int, length: real, from: real)
    requires Spaced(a, length) && limit >= 0 && forall s :: InWindow(a, s) <= limit
    ensures InInterval(a, from, from + length) <= 2 * limit
  {
    hide *;
    var to := from + length;
    if InInterval(a, from, to) > 0 {
      var i := FirstInInterval(a, from, to);
      var j := LastInInterval(a, from, to);
      forall k | 0 <= k < |a| && from <= a[k].at <= to
        ensures a[k].start == a[i].start || a[k].start == a[j].start
      {
        OnlyTwoWindows(a, length, from, i, k, j);
      }
      TwoWindowsCover(a, from, to, a[i].start, a[j].start);
    }
  }

  lemma OnlyTwoWindows(a: seq<Admission>, length: real, from: real, i: nat, k: nat, j: nat)
    requires Spaced(a, length) && i <= k <= j < |a|
    requires from <= a[i].at && a[j].at <= from + length
    ensures a[k].start == a[i].start || a[k].start == a[j].start
  {
  }

  /** The first `n` checks of as many as the limit at time zero and as many one window length later. */
  function Bursts(p: Profile, n: nat): (times: seq<real>)
    ensures |times| == n && forall i :: 0 <= i < n ==> times[i] == if i < p.limit then 0.0 else p.windowSeconds as real
  {
    if n == 0 then [] else Bursts(p, n - 1) + [if n - 1 < p.limit then 0.0 else p.windowSeconds as real]
  }

  /** The bound is reached: a full window at one moment and the next exactly one length later. */
  lemma BoundIsReached(p: Profile)
    requires Positive(p)
    ensures var times := Bursts(p, 2 * p.limit);
            Nondecreasing(times) && InInterval(Checks(p, times).admissions, 0.0, p.windowSeconds as real) == 2 * p.limit
  {
    FullWindows(p, 2 * p.limit);
    hide Checks, InInterval;
  }

  /** The window after the first `n` of the two bursts. */
  function Filled(p: Profile, n: nat): Option<Window>
  {
    if n == 0 then None
    else if n <= p.limit then Some(Window(0.0, n))
    else Some(Window(p.windowSeconds as real, n - p.limit))
  }

  lemma {:induction false} FullWindows(p: Profile, n: nat)
    requires Positive(p) && n <= 2 * p.limit
    ensures var h := Checks(p, Bursts(p, n));
            InInterval(h.admissions, 0.0, p.windowSeconds as real) == n && h.window == Filled(p, n)
  {
    assert p.windowSeconds >= 1;
    hide *;
    if n == 0 {
      NoBursts(p);
    } else {
      var before := Bursts(p, n - 1);
      var now := if n <= p.limit then 0.0 else p.windowSeconds as real;
      OneMoreBurst(p, n);
      FullWindows(p, n - 1);
      var h := Checks(p, before);
      NextIsAdmitted(p, h.window, now, n);
      OneMoreCheck(p, before, now);
      InIntervalGrows(h.admissions, Admission(now, now), 0.0, p.windowSeconds as real);
    }
  }

  lemma NoBursts(p: Profile)
    ensures Checks(p, Bursts(p, 0)) == History(Filled(p, 0), []) && InInterval([], 0.0, p.windowSeconds as real) == 0
  {
  }

  lemma OneMoreBurst(p: Profile, n: nat)
    requires n > 0
    ensures Bursts(p, n) == Bursts(p, n - 1) + [if n <= p.limit then 0.0 else p.windowSeconds as real]
  {
  }

  lemma OneMoreCheck(p: Profile, before: seq<real>, now: real)
    ensures var (h, h') := (Checks(p, before), Checks(p, before + [now]));
            h' == match CheckWindow(p, h.window, now)
                  case Admitted(w) => History(Some(w), h.admissions + [Admission(now, w.start)])
                  case Rejected(_) => h
  {
    assert (before + [now])[..|before|] == before;
  }

  lemma InIntervalGrows(a: seq<Admission>, next: Admission, from: real, to: real)
    ensures InInterval(a + [next], from, to) == InInterval(a, from, to) + if from <= next.at <= to then 1 else 0
  {
    assert (a + [next])[..|a|] == a;
  }

  lemma FreshKeyIsAdmitted(p: Profile, now: real)
    requires Positive(p)
    ensures CheckWindow(p, None, now) == Admitted(Window(now, 1))
  {
    hide Ceiling;
  }

  lemma OpenWindowAdmits(p: Profile, w: Window, now: real)
    requires now - w.start < p.windowSeconds as real && w.count < p.limit
    ensures CheckWindow(p, Some(w), now) == Admitted(Window(w.start, w.count + 1))
  {
    hide Ceiling;
  }

  lemma ElapsedWindowAdmits(p: Profile, w: Window, now: real)
    requires Positive(p) && now - w.start >= p.windowSeconds as real
    ensures CheckWindow(p, Some(w), now) == Admitted(Window(now, 1))
  {
    hide Ceiling;
  }

  lemma NextIsAdmitted(p: Profile, found: Option<Window>, now: real, n: nat)
    requires Positive(p) && 0 < n <= 2 * p.limit
    requires now == if n <= p.limit then 0.0 else p.windowSeconds as real
    requires found == Filled(p, n - 1)
    ensures Filled(p, n).Some? && Filled(p, n).value.start == now
    ensures CheckWindow(p, found, now) == Admitted(Filled(p, n).value)
  {
    assert p.limit >= 1 && p.windowSeconds >= 1;
    assert Filled(p, n) == Some(Window(now, if n <= p.limit then n else n - p.limit));
    assert found == if n == 1 then None else if n - 1 <= p.limit then Some(Window(0.0, n - 1))
                    else Some(Window(p.windowSeconds as real, n - 1 - p.limit));
    hide *;
    if n == 1 {
      FreshKeyIsAdmitted(p, now);
    } else if n == p.limit + 1 {
      ElapsedWindowAdmits(p, found.value, now);
    } else {
      OpenWindowAdmits(p, found.value, now);
    }
  }

  // ---------------------------------------------------------------------------
  // The class of the source.
  // ---------------------------------------------------------------------------

  datatype Request = Request(clientHost: Option<string>, inboxId: Option<string>)

  datatype LimiterError = UnknownProfile | InboxRequired

  function ClientIpOf(request: Request): string
  {
    if request.clientHost.Some? then request.clientHost.value else "unknown"
  }

  function DeriveKey(p: Profile, request: Request): Result<string, LimiterError>
  {
    if p.keyBy.ClientIp? then Ok(ClientIpOf(request))
    else if request.inboxId.None? || request.inboxId.value == "" then Err(InboxRequired)
    else if p.keyBy.InboxId? then Ok(request.inboxId.value)
    else Ok(request.inboxId.value + ":" + ClientIpOf(request))
  }

  /** The longer inbox spells the shorter one, a colon and what the other client address starts with. */
  predicate Overlaps(longInbox: string, longClient: string, shortInbox: string, shortClient: string)
  {
    var n := |shortInbox|;
    n < |longInbox| && longInbox[..n] == shortInbox && longInbox[n] == ':' &&
    shortClient == longInbox[n + 1..] + ":" + longClient
  }

  lemma JoinedEqualIff(a: string, x: string, b: string, y: string)
    requires |a| >= |b|
    ensures a + ":" + x == b + ":" + y <==> (a == b && x == y) || Overlaps(a, x, b, y)
  {
    var s, t := a + ":" + x, b + ":" + y;
    assert s[..|a|] == a && s[|a|] == ':' && s[|a| + 1..] == x;
    assert t[..|b|] == b && t[|b|] == ':' && t[|b| + 1..] == y;
    if |a| == |b| {
      assert s == t ==> s[..|a|] == t[..|b|] && s[|a| + 1..] == t[|b| + 1..];
    } else {
      var m := a[|b| + 1..];
      assert s[|b|] == a[|b|] && s[..|b|] == a[..|b|];
      assert s[|b| + 1..] == m + ":" + x;
      assert Overlaps(a, x, b, y) ==> a == b + ":" + m;
    }
  }

  /** The same client, a request without one counting as from "unknown". */
  ghost predicate SameClient(a: Request, b: Request)
  {
    || a.clientHost == b.clientHost
    || (a.clientHost == None && b.clientHost == Some("unknown"))
    || (a.clientHost == Some("unknown") && b.clientHost == None)
  }

  /** No key can be derived exactly if the profile needs an inbox and the request has none or an empty one. */
  lemma KeyErrorIff(p: Profile, request: Request)
    ensures DeriveKey(p, request) == Err(InboxRequired)
       <==> p.keyBy != ClientIp && (request.inboxId == None || request.inboxId == Some(""))
    ensures DeriveKey(p, request).Err? ==> DeriveKey(p, request).error == InboxRequired
  {
  }

  /** By client or by inbox, two requests share a key exactly if those agree; whatever else they hold. */
  lemma SimpleKeysShareIff(p: Profile, a: Request, b: Request)
    requires DeriveKey(p, a).Ok? && DeriveKey(p, b).Ok?
    ensures p.keyBy == ClientIp ==> (DeriveKey(p, a) == DeriveKey(p, b) <==> SameClient(a, b))
    ensures p.keyBy == InboxId ==> (DeriveKey(p, a) == DeriveKey(p, b) <==> a.inboxId == b.inboxId)
  {
  }

  /** Exactly when two requests share a composite key: the same inbox and client, or inboxes with colons that
      overlap. */
  lemma CompositeKeysShareIff(p: Profile, a: Request, b: Request)
    requires p.keyBy.InboxIdAndClientIp? && DeriveKey(p, a).Ok? && DeriveKey(p, b).Ok?
    ensures var x := if a.clientHost.Some? then a.clientHost.value else "unknown";
            var y := if b.clientHost.Some? then b.clientHost.value else "unknown";
            var same := a.inboxId == b.inboxId && SameClient(a, b);
            var overlap := Overlaps(a.inboxId.value, x, b.inboxId.value, y)
                        || Overlaps(b.inboxId.value, y, a.inboxId.value, x);
            DeriveKey(p, a) == DeriveKey(p, b) <==> same || overlap
  {
    if |a.inboxId.value| >= |b.inboxId.value| {
      JoinedEqualIff(a.inboxId.value, ClientIpOf(a), b.inboxId.value, ClientIpOf(b));
    } else {
      JoinedEqualIff(b.inboxId.value, ClientIpOf(b), a.inboxId.value, ClientIpOf(a));
    }
  }

  /** So inboxes without colons never mix, whatever the client addresses are. */
  lemma CompositeKeysSeparate(p: Profile, a: Request, b: Request)
    requires p.keyBy.InboxIdAndClientIp? && DeriveKey(p, a).Ok? && DeriveKey(p, b).Ok?
    requires ':' !in a.inboxId.value && ':' !in b.inboxId.value
    ensures DeriveKey(p, a) == DeriveKey(p, b) <==> a.inboxId == b.inboxId && SameClient(a, b)
  {
    CompositeKeysShareIff(p, a, b);
  }

  /** The profile table of a limiter; a repeated name keeps its last profile. */
  function ByName(profiles: seq<Profile>): (r: map<string, Profile>)
    ensures forall name :: name in r ==> r[name] in profiles && r[name].name == name
    ensures forall i :: 0 <= i < |profiles| ==> profiles[i].name in r
  {
    if profiles == [] then map[] else
      var n := |profiles| - 1;
      assert profiles == profiles[..n] + [profiles[n]];
      ByName(profiles[..n])[profiles[n].name := profiles[n]]
  }

  ghost predicate UniqueNames(profiles: seq<Profile>)
  {
    forall i, j :: 0 <= i < j < |profiles| ==> profiles[i].name != profiles[j].name
  }

  lemma UniqueNamesSnoc(profiles: seq<Profile>)
    requires profiles != []
    ensures var (before, last) := (profiles[..|profiles| - 1], profiles[|profiles| - 1]);
            UniqueNames(profiles) <==> UniqueNames(before) && !exists p :: p in before && p.name == last.name
  {
    var n := |profiles| - 1;
    var (before, last) := (profiles[..n], profiles[n]);
    if p :| p in before && p.name == last.name {
      var i :| 0 <= i < n && before[i] == p;
      assert profiles[i].name == profiles[n].name;
    } else {
      forall i | 0 <= i < n
        ensures profiles[i].name != last.name
      {
        assert before[i] in before;
      }
    }
  }

  /** The constructor's size comparison accepts exactly the lists without a repeated name. */
  lemma {:induction false} SizeShowsUnique(profiles: seq<Profile>)
    ensures |ByName(profiles)| <= |profiles|
    ensures |ByName(profiles)| == |profiles| <==> UniqueNames(profiles)
  {
    if profiles != [] {
      SizeShowsUnique(profiles[..|profiles| - 1]);
      UniqueNamesSnoc(profiles);
      NameKnown(profiles);
      hide ByName, UniqueNames;
    }
  }

  lemma NameKnown(profiles: seq<Profile>)
    requires profiles != []
    ensures var (before, name) := (profiles[..|profiles| - 1], profiles[|profiles| - 1].name);
            |ByName(profiles)| == |ByName(before)| + (if name in ByName(before) then 0 else 1) &&
            (name in ByName(before) <==> exists p :: p in before && p.name == name)
  {
    var (before, last) := (profiles[..|profiles| - 1], profiles[|profiles| - 1]);
    assert ByName(profiles).Keys == ByName(before).Keys + {last.name};
    assert |ByName(profiles).Keys| == |ByName(profiles)| && |ByName(before).Keys| == |ByName(before)|;
    if last.name in ByName(before) {
      assert ByName(before).Keys + {last.name} == ByName(before).Keys;
      assert ByName(before)[last.name] in before;
    }
  }

  type Key = (string, string)

  /** The window is what the checks so far, none later than `clock`, make it. */
  ghost predicate KeyHistory(p: Profile, times: seq<real>, window: Option<Window>, clock: real)
  {
    Nondecreasing(times) && (times != [] ==> times[|times| - 1] <= clock) && Checks(p, times).window == window
  }

  lemma HistoryGrows(p: Profile, times: seq<real>, window: Option<Window>, clock: real, now: real)
    requires KeyHistory(p, times, window, clock) && clock <= now
    ensures KeyHistory(p, times, window, now)
    ensures var verdict := CheckWindow(p, window, now);
            KeyHistory(p, times + [now], if verdict.Admitted? then Some(verdict.window) else window, now)
  {
    assert (times + [now])[..|times|] == times;
  }

  lemma NoHistory(p: Profile, clock: real)
    ensures KeyHistory(p, [], None, clock)
  {
  }

  class LocalRateLimiter {
    const profiles: map<string, Profile>
    var windows: map<Key, Window>
    ghost var times: map<Key, seq<real>>
    ghost var clock: real

    ghost function TimesOf(key: Key): seq<real>
      reads this`times
    {
      if key in times then times[key] else []
    }

    /** Each key's window is what its whole history of checks makes it. */
    ghost predicate Valid()
      reads this
    {
      && (forall name :: name in profiles ==> profiles[name].name == name && ValidProfile(profiles[name]))
      && (forall key: Key :: key in windows ==> key.0 in profiles)
      && (forall key: Key :: key.0 in profiles ==>
            KeyHistory(profiles[key.0], TimesOf(key), WindowOf(windows, key), clock))
    }

    /** The source's constructor: profiles in a list, whose names must be unique (ValueError). */
    static method Create(profiles: seq<Profile>, now: real) returns (r: Option<LocalRateLimiter>)
      requires forall i :: 0 <= i < |profiles| ==> ValidProfile(profiles[i])
      ensures r.Some? <==> UniqueNames(profiles)
      ensures r.Some? ==> fresh(r.value) && r.value.Valid() && r.value.windows == map[] && r.value.times == map[]
      ensures r.Some? ==> r.value.profiles == ByName(profiles) && r.value.clock == now
    {
      SizeShowsUnique(profiles);
      var table := ByName(profiles);
      if |table| != |profiles| {
        return None;
      }
      hide ByName, ValidProfile;
      var made := new LocalRateLimiter(table, now);
      return Some(made);
    }

    constructor (profiles: map<string, Profile>, now: real)
      requires forall name :: name in profiles ==> profiles[name].name == name && ValidProfile(profiles[name])
      ensures Valid() && times == map[] && windows == map[] && this.profiles == profiles && clock == now
    {
      hide KeyHistory, ValidProfile;
      this.profiles := profiles;
      windows, times, clock := map[], map[], now;
      new;
      forall key: Key | key.0 in profiles
        ensures KeyHistory(profiles[key.0], [], None, now)
      {
        NoHistory(profiles[key.0], now);
      }
    }

    /** Check one request at monotonic time `now`: `None` admits it, a number rejects it for as long. */
    method Check(profileName: string, request: Request, now: real) returns (r: Result<Option<int>, LimiterError>)
      requires Valid() && clock <= now
      modifies this
      ensures Valid() && clock == now
      ensures profileName !in profiles ==> r == Err(UnknownProfile)
      ensures profileName in profiles ==>
        var bare := request.inboxId == None || request.inboxId == Some("");
        (r == Err(InboxRequired) <==> profiles[profileName].keyBy != ClientIp && bare) &&
        (r.Err? ==> r.error == InboxRequired) && r.Ok? == DeriveKey(profiles[profileName], request).Ok?
      ensures r.Err? ==> windows == old(windows) && times == old(times)
      ensures r.Ok? ==>
        var p := profiles[profileName];
        var key := (profileName, DeriveKey(p, request).value);
        var verdict := CheckWindow(p, WindowOf(old(windows), key), now);
        times == old(times)[key := old(TimesOf(key)) + [now]]
        && (verdict.Admitted? ==> r == Ok(None) && windows == old(windows)[key := verdict.window])
        && (verdict.Rejected? ==> r == Ok(Some(verdict.retryAfter)) && windows == old(windows))
    {
      hide KeyHistory, CheckWindow, DeriveKey, ValidProfile;
      if profileName !in profiles {
        Later(now);
        return Err(UnknownProfile);
      }
      var p := profiles[profileName];
      var derived := DeriveKey(p, request);
      KeyErrorIff(p, request);
      if derived.Err? {
        Later(now);
        return Err(derived.error);
      }
      var key := (profileName, derived.value);
      var verdict := CheckWindow(p, WindowOf(windows, key), now);
      if verdict.Admitted? {
        Record(key, verdict.window, now);
        return Ok(None);
      }
      Later(now);
      Keep(key, now);
      return Ok(Some(verdict.retryAfter));
    }

    /** Time passes: nothing else changes. */
    ghost method Later(now: real)
      requires Valid() && clock <= now
      modifies this`clock
      ensures Valid() && clock == now
    {
      hide KeyHistory, ValidProfile;
      forall k: Key | k.0 in profiles
        ensures KeyHistory(profiles[k.0], TimesOf(k), WindowOf(windows, k), now)
      {
        HistoryGrows(profiles[k.0], TimesOf(k), WindowOf(windows, k), clock, now);
      }
      clock := now;
    }

    /** A rejected check enters the history and leaves every window alone. */
    ghost method Keep(key: Key, now: real)
      requires Valid() && clock == now && key.0 in profiles
      requires CheckWindow(profiles[key.0], WindowOf(windows, key), now).Rejected?
      modifies this`times
      ensures Valid() && times == old(times)[key := old(TimesOf(key)) + [now]]
    {
      hide KeyHistory, ValidProfile, CheckWindow;
      HistoryGrows(profiles[key.0], TimesOf(key), WindowOf(windows, key), now, now);
      times := times[key := TimesOf(key) + [now]];
    }

    /** An admitted check enters the history and replaces its key's window. */
    method Record(key: Key, w: Window, now: real)
      requires Valid() && clock <= now && key.0 in profiles
      requires CheckWindow(profiles[key.0], WindowOf(windows, key), now) == Admitted(w)
      modifies this
      ensures Valid() && times == old(times)[key := old(TimesOf(key)) + [now]] && windows == old(windows)[key := w]
      ensures clock == now
    {
      hide KeyHistory, ValidProfile, CheckWindow;
      Later(now);
      HistoryGrows(profiles[key.0], TimesOf(key), WindowOf(windows, key), now, now);
      times := times[key := TimesOf(key) + [now]];
      windows := windows[key := w];
    }
  }

  function WindowOf(windows: map<Key, Window>, key: Key): Option<Window>
  {
    if key in windows then Some(windows[key]) else None
  }
}

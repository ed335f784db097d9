/** Error handling with escalation over a sliding window, and the tallies of the default handlers. */
module Escalation {
  import opened Outcomes
  import opened Text

  /** One error webhook: the two clock readings of its handling (`seen` for the last error, `time` for the
      window), its primary error's code, and how many errors it carries. */
  datatype Report = Report(seen: real, time: real, code: int, errors: nat)

  datatype LogStrategy = All | CriticalOnly | ErrorsOnly | SummaryOnly

  predicate Critical(code: int)
  {
    code in {100, 102, 131, 132, 133}
  }

  function Cutoff(now: real, windowMinutes: int): real
  {
    now - windowMinutes as real * 60.0
  }

  /** The reports newer than a cutoff, in order. */
  function Newer(reports: seq<Report>, cutoff: real): (r: seq<Report>)
    ensures |r| <= |reports| && forall k :: 0 <= k < |r| ==> r[k].time > cutoff && r[k] in reports
  {
    if reports == [] then []
    else
      var last := reports[|reports| - 1];
      Newer(reports[..|reports| - 1], cutoff) + if last.time > cutoff then [last] else []
  }

  function Criticals(reports: seq<Report>): (n: nat)
    ensures n <= |reports|
  {
    if reports == [] then 0
    else Criticals(reports[..|reports| - 1]) + if Critical(reports[|reports| - 1].code) then 1 else 0
  }

  predicate ShouldEscalate(recent: seq<Report>, threshold: int)
  {
    |recent| >= threshold || Criticals(recent) >= 2
  }

  // ---------------------------------------------------------------------------
  // The window against the whole history.
  // ---------------------------------------------------------------------------

  /** The list the handler keeps: after every report, what is newer than that report's cutoff. */
  function Recent(history: seq<Report>, window: int): seq<Report>
  {
    if history == [] then []
    else
      var last := history[|history| - 1];
      Newer(Recent(history[..|history| - 1], window) + [last], Cutoff(last.time, window))
  }

  ghost predicate Ordered(history: seq<Report>)
  {
    forall i, j :: 0 <= i <= j < |history| ==> history[i].time <= history[j].time
  }

  lemma {:induction false} NewerTwice(reports: seq<Report>, early: real, late: real)
    requires early <= late
    ensures Newer(Newer(reports, early), late) == Newer(reports, late)
  {
    if reports != [] {
      var front, last := reports[..|reports| - 1], reports[|reports| - 1];
      NewerTwice(front, early, late);
      if last.time > early {
        NewerSnoc(Newer(front, early), last, late);
      } else {
        assert Newer(front, early) + [] == Newer(front, early);
        assert Newer(front, late) + [] == Newer(front, late);
      }
    }
  }

  lemma NewerSnoc(reports: seq<Report>, last: Report, cutoff: real)
    ensures Newer(reports + [last], cutoff) == Newer(reports, cutoff) + if last.time > cutoff then [last] else []
  {
    assert (reports + [last])[..|reports|] == reports;
  }

  lemma RecentUnfolds(front: seq<Report>, last: Report, window: int)
    ensures Recent(front + [last], window) == Newer(Recent(front, window) + [last], Cutoff(last.time, window))
  {
    assert (front + [last])[..|front|] == front;
  }

  lemma OrderedFront(front: seq<Report>, last: Report)
    requires Ordered(front + [last])
    ensures Ordered(front) && (front != [] ==> front[|front| - 1].time <= last.time)
  {
    var all := front + [last];
    assert forall i :: 0 <= i < |front| ==> all[i] == front[i];
    assert all[|front|] == last;
  }

  /** On a clock that never goes back, the list is exactly what the whole history holds newer than the
      last cutoff: pruning as it goes loses nothing. */
  lemma {:induction false} RecentIsFilter(history: seq<Report>, window: int)
    requires Ordered(history) && history != []
    ensures Recent(history, window) == Newer(history, Cutoff(history[|history| - 1].time, window))
  {
    var n := |history| - 1;
    var front, last := history[..n], history[n];
    var cutoff := Cutoff(last.time, window);
    assert Recent([], window) == [];
    Unsnoc(history);
    OrderedFront(front, last);
    RecentUnfolds(front, last, window);
    NewerSnoc(front, last, cutoff);
    if front == [] {
      assert [] + [last] == [last];
    } else {
      var early := Cutoff(front[n - 1].time, window);
      RecentIsFilter(front, window);
      assert early <= cutoff;
      hide *;
      NewerSnoc(Newer(front, early), last, cutoff);
      NewerTwice(front, early, cutoff);
    }
  }

  /** The report stands at `i`, and is newer than every cutoff from then on. */
  ghost predicate OutlivesFrom(history: seq<Report>, window: int, report: Report, i: int)
  {
    0 <= i < |history| && history[i] == report &&
    forall j :: i <= j < |history| ==> report.time > Cutoff(history[j].time, window)
  }

  lemma OutlivesSnoc(front: seq<Report>, last: Report, window: int, report: Report, i: int)
    ensures OutlivesFrom(front + [last], window, report, i)
            <==> ((i == |front| && report == last) || OutlivesFrom(front, window, report, i)) &&
                 report.time > Cutoff(last.time, window)
  {
    var all := front + [last];
    assert all[|front|] == last;
    assert forall j :: 0 <= j < |front| ==> all[j] == front[j];
  }

  /** On any clock: a report is kept exactly while its own and every later report's cutoff let it be. */
  lemma {:induction false} KeptIff(history: seq<Report>, window: int, report: Report)
    ensures report in Recent(history, window) <==> exists i :: OutlivesFrom(history, window, report, i)
  {
    if history != [] {
      var n := |history| - 1;
      var front, last := history[..n], history[n];
      KeptIff(front, window, report);
      Unsnoc(history);
      RecentUnfolds(front, last, window);
      NewerMembers(Recent(front, window) + [last], Cutoff(last.time, window), report);
      hide *;
      forall i
        ensures OutlivesFrom(history, window, report, i)
                <==> ((i == n && report == last) || OutlivesFrom(front, window, report, i)) &&
                     report.time > Cutoff(last.time, window)
      {
        OutlivesSnoc(front, last, window, report, i);
      }
      if report == last && report.time > Cutoff(last.time, window) {
        assert OutlivesFrom(history, window, report, n);
      }
    }
  }

  lemma {:induction false} NewerMembers(reports: seq<Report>, cutoff: real, report: Report)
    ensures report in Newer(reports, cutoff) <==> report in reports && report.time > cutoff
  {
    if reports != [] {
      var front, last := reports[..|reports| - 1], reports[|reports| - 1];
      assert reports == front + [last];
      NewerMembers(front, cutoff, report);
    }
  }

  lemma {:induction false} NewerIsSuffix(history: seq<Report>, cutoff: real) returns (k: nat)
    requires Ordered(history)
    ensures k <= |history| && Newer(history, cutoff) == history[k..]
    ensures k > 0 ==> history[k - 1].time <= cutoff
  {
    if history == [] {
      k := 0;
    } else {
      var n := |history| - 1;
      var front, last := history[..n], history[n];
      Unsnoc(history);
      OrderedFront(front, last);
      k := NewerIsSuffix(front, cutoff);
      SuffixStep(front, last, k, cutoff);
      hide Newer, Ordered;
      if last.time <= cutoff {
        k := n + 1;
      } else {
        assert k > 0 ==> history[k - 1] == front[k - 1];
      }
    }
  }

  lemma SuffixStep(front: seq<Report>, last: Report, k: nat, cutoff: real)
    requires Ordered(front + [last]) && k <= |front| && Newer(front, cutoff) == front[k..]
    ensures last.time > cutoff ==> Newer(front + [last], cutoff) == (front + [last])[k..]
    ensures last.time <= cutoff ==> Newer(front + [last], cutoff) == []
  {
    NewerSnoc(front, last, cutoff);
    SuffixSnoc(front, last, k);
    if k < |front| {
      assert front[k..][0] == front[k] == (front + [last])[k];
      assert (front + [last])[|front|] == last;
      assert front[k].time > cutoff && front[k].time <= last.time;
    }
    hide *;
  }

  lemma SuffixSnoc(front: seq<Report>, last: Report, k: nat)
    requires k <= |front|
    ensures front[k..] + [last] == (front + [last])[k..]
  {
  }

  /** On a clock that never goes back the list is the newest part of the history, without gaps. */
  lemma SuffixIsNewest(history: seq<Report>, window: int) returns (k: nat)
    requires Ordered(history) && history != []
    ensures k <= |history| && Recent(history, window) == history[k..]
    ensures k > 0 ==> history[k - 1].time <= Cutoff(history[|history| - 1].time, window)
  {
    RecentIsFilter(history, window);
    k := NewerIsSuffix(history, Cutoff(history[|history| - 1].time, window));
  }

  // ---------------------------------------------------------------------------
  // Escalation read off the whole history.
  // ---------------------------------------------------------------------------

  /** The places of the reports still counted: each newer than `window` minutes before itself and before
      every later report. */
  ghost function InWindow(history: seq<Report>, window: int): set<int>
  {
    set i | 0 <= i < |history| && StaysNew(history, window, i)
  }

  ghost predicate StaysNew(history: seq<Report>, window: int, i: int)
    requires 0 <= i < |history|
  {
    forall j :: i <= j < |history| ==> history[i].time > history[j].time - 60.0 * window as real
  }

  /** At least `threshold` reports are counted, or two with a critical code. */
  ghost predicate Escalates(history: seq<Report>, threshold: int, window: int)
  {
    var counted := InWindow(history, window);
    |counted| >= threshold || |CriticalAmong(history, counted)| >= 2
  }

  ghost function CriticalAmong(history: seq<Report>, places: set<int>): (critical: set<int>)
    ensures forall i :: i in critical <==>
      i in places && 0 <= i < |history| && history[i].code in {100, 102, 131, 132, 133}
  {
    set i | i in places && 0 <= i < |history| && history[i].code in {100, 102, 131, 132, 133}
  }

  /** The reports at the places `keep` selects. */
  ghost function Selected(history: seq<Report>, keep: int -> bool): seq<Report>
  {
    if history == [] then []
    else
      var n := |history| - 1;
      Selected(history[..n], keep) + if keep(n) then [history[n]] else []
  }

  lemma {:induction false} SelectedAlike(history: seq<Report>, f: int -> bool, g: int -> bool)
    requires forall i :: 0 <= i < |history| ==> f(i) == g(i)
    ensures Selected(history, f) == Selected(history, g)
  {
    if history != [] {
      SelectedAlike(history[..|history| - 1], f, g);
    }
  }

  lemma SelectedSnoc(front: seq<Report>, last: Report, keep: int -> bool)
    ensures Selected(front + [last], keep) == Selected(front, keep) + if keep(|front|) then [last] else []
  {
    Snoc(front, last);
  }

  /** Dropping the old ones among the selected reports is selecting the newer ones. */
  lemma {:induction false} NewerSelected(history: seq<Report>, keep: int -> bool, both: int -> bool, cutoff: real)
    requires forall i :: 0 <= i < |history| ==> (both(i) <==> keep(i) && history[i].time > cutoff)
    ensures Newer(Selected(history, keep), cutoff) == Selected(history, both)
  {
    if history != [] {
      var n := |history| - 1;
      var (front, last) := (history[..n], history[n]);
      NewerSelected(front, keep, both, cutoff);
      NewerSnoc(Selected(front, keep), last, cutoff);
      hide Newer;
      assert Selected(front, keep) + [] == Selected(front, keep);
      assert Selected(front, both) + [] == Selected(front, both);
    }
  }

  ghost function Counted(history: seq<Report>, window: int): int -> bool
  {
    i => i in InWindow(history, window)
  }

  lemma InWindowGrows(front: seq<Report>, last: Report, window: int, i: int)
    ensures i in InWindow(front + [last], window)
       <==> (i in InWindow(front, window) || i == |front|) &&
            (front + [last])[i].time > Cutoff(last.time, window)
  {
    var all := front + [last];
    assert all[|front|] == last;
    if 0 <= i < |front| {
      assert all[i] == front[i];
      assert forall j :: i <= j < |front| ==> all[j] == front[j];
    }
  }

  /** The kept list is the counted reports, on any clock. */
  lemma {:induction false} RecentIsSelected(history: seq<Report>, window: int)
    ensures Recent(history, window) == Selected(history, Counted(history, window))
  {
    if history != [] {
      var n := |history| - 1;
      var (front, last) := (history[..n], history[n]);
      var (before, after) := (Counted(front, window), Counted(history, window));
      var keep: int -> bool := i => i == n || before(i);
      Unsnoc(history);
      RecentIsSelected(front, window);
      RecentUnfolds(front, last, window);
      SelectedAlike(front, before, keep);
      SelectedSnoc(front, last, keep);
      forall i | 0 <= i < |history|
        ensures after(i) <==> keep(i) && history[i].time > Cutoff(last.time, window)
      {
        InWindowGrows(front, last, window, i);
      }
      hide Recent, Newer, Selected, InWindow, Cutoff;
      NewerSelected(history, keep, after, Cutoff(last.time, window));
    }
  }

  ghost function Places(history: seq<Report>, keep: int -> bool): (places: set<int>)
    ensures forall i :: i in places <==> 0 <= i < |history| && keep(i)
  {
    set i | 0 <= i < |history| && keep(i)
  }

  lemma PlacesSnoc(front: seq<Report>, last: Report, keep: int -> bool)
    ensures Places(front + [last], keep) == Places(front, keep) + if keep(|front|) then {|front|} else {}
    ensures CriticalAmong(front + [last], Places(front + [last], keep))
         == CriticalAmong(front, Places(front, keep)) + if keep(|front|) && Critical(last.code) then {|front|} else {}
  {
    var all := front + [last];
    assert all[|front|] == last;
    assert forall i :: 0 <= i < |front| ==> all[i] == front[i];
  }

  /** Counting the selected reports, and the critical ones among them. */
  lemma {:induction false} CountSelected(history: seq<Report>, keep: int -> bool)
    ensures |Selected(history, keep)| == |Places(history, keep)|
    ensures Criticals(Selected(history, keep)) == |CriticalAmong(history, Places(history, keep))|
  {
    if history == [] {
      NothingSelected(keep);
    } else {
      var n := |history| - 1;
      var (front, last) := (history[..n], history[n]);
      hide *;
      Unsnoc(history);
      CountSelected(front, keep);
      OneMoreSelected(front, last, keep);
    }
  }

  lemma NothingSelected(keep: int -> bool)
    ensures Selected([], keep) == [] && Criticals([]) == 0
    ensures Places([], keep) == {} && CriticalAmong([], {}) == {}
  {
  }

  lemma OneMoreSelected(front: seq<Report>, last: Report, keep: int -> bool)
    requires |Selected(front, keep)| == |Places(front, keep)|
    requires Criticals(Selected(front, keep)) == |CriticalAmong(front, Places(front, keep))|
    ensures |Selected(front + [last], keep)| == |Places(front + [last], keep)|
    ensures Criticals(Selected(front + [last], keep))
         == |CriticalAmong(front + [last], Places(front + [last], keep))|
  {
    SelectedSnoc(front, last, keep);
    PlacesSnoc(front, last, keep);
    assert |front| !in Places(front, keep) && |front| !in CriticalAmong(front, Places(front, keep));
    hide *;
    CountsGrow(Selected(front, keep), Places(front, keep), CriticalAmong(front, Places(front, keep)), |front|, last,
               keep(|front|));
  }

  lemma CountsGrow(selected: seq<Report>, places: set<int>, critical: set<int>, next: int, last: Report, chosen: bool)
    requires |selected| == |places| && Criticals(selected) == |critical| && next !in places && next !in critical
    ensures |selected + if chosen then [last] else []| == |places + if chosen then {next} else {}|
    ensures Criticals(selected + if chosen then [last] else [])
         == |critical + if chosen && Critical(last.code) then {next} else {}|
  {
    CriticalsSnoc(selected, last);
    hide *;
    if chosen {
      assert |places + {next}| == |places| + 1 && |critical + {next}| == |critical| + 1;
    } else {
      assert selected + [] == selected;
    }
    assert places + {} == places && critical + {} == critical;
  }

  lemma CriticalsSnoc(reports: seq<Report>, last: Report)
    ensures Criticals(reports + [last]) == Criticals(reports) + if Critical(last.code) then 1 else 0
  {
    Snoc(reports, last);
  }

  /** Escalation read off the whole history, whatever the clock does. */
  lemma EscalatesIff(history: seq<Report>, threshold: int, window: int)
    ensures ShouldEscalate(Recent(history, window), threshold) <==> Escalates(history, threshold, window)
    ensures |Recent(history, window)| == |InWindow(history, window)|
  {
    RecentIsSelected(history, window);
    CountSelected(history, Counted(history, window));
    assert Places(history, Counted(history, window)) == InWindow(history, window);
    hide Recent, Selected, InWindow, Places, CriticalAmong, Criticals;
  }

  /** On a clock that never goes back the counted reports are those newer than `window` minutes before the
      last one. */
  lemma InWindowIff(history: seq<Report>, window: int, i: nat)
    requires Ordered(history) && i < |history|
    ensures i in InWindow(history, window)
       <==> history[i].time > history[|history| - 1].time - 60.0 * window as real
  {
  }

  // ---------------------------------------------------------------------------
  // Tallies.
  // ---------------------------------------------------------------------------

  function Bump<K>(tally: map<K, nat>, key: K): (bumped: map<K, nat>)
    ensures bumped.Keys == tally.Keys + {key}
    ensures bumped[key] == if key in tally then tally[key] + 1 else 1
    ensures forall k :: k in tally && k != key ==> bumped[k] == tally[k]
  {
    tally[key := (if key in tally then tally[key] else 0) + 1]
  }

  ghost function Total<K>(tally: map<K, nat>): nat
  {
    if tally == map[] then 0
    else
      var k :| k in tally;
      tally[k] + Total(tally - {k})
  }

  lemma {:induction false} TotalWithout<K>(tally: map<K, nat>, key: K)
    requires key in tally
    ensures Total(tally) == tally[key] + Total(tally - {key})
    decreases |tally|
  {
    var k :| k in tally && Total(tally) == tally[k] + Total(tally - {k});
    if k != key {
      TotalWithout(tally - {k}, key);
      TotalWithout(tally - {key}, k);
      assert tally - {k} - {key} == tally - {key} - {k};
    }
  }

  /** Counting one more key adds exactly one to the total, whether the key is new or not. */
  lemma BumpAddsOne<K>(tally: map<K, nat>, key: K)
    ensures Total(Bump(tally, key)) == Total(tally) + 1
  {
    var bumped := Bump(tally, key);
    TotalWithout(bumped, key);
    assert bumped - {key} == tally - {key};
    if key in tally {
      TotalWithout(tally, key);
    } else {
      assert tally - {key} == tally;
    }
  }

  // ---------------------------------------------------------------------------
  // The handlers.
  // ---------------------------------------------------------------------------

  /** How many reports' handling escalated. */
  ghost function Escalations(history: seq<Report>, threshold: int, window: int): nat
  {
    if history == [] then 0
    else Escalations(history[..|history| - 1], threshold, window)
         + if ShouldEscalate(Recent(history, window), threshold) then 1 else 0
  }

  ghost function Errors(history: seq<Report>): nat
  {
    if history == [] then 0 else Errors(history[..|history| - 1]) + history[|history| - 1].errors
  }

  ghost function Times(history: seq<Report>, code: int): nat
  {
    if history == [] then 0
    else Times(history[..|history| - 1], code) + if history[|history| - 1].code == code then 1 else 0
  }

  datatype Summary = Summary(totalErrors: nat, criticalErrors: nat, escalatedErrors: nat, recentCount: nat)

  datatype Handled = Handled(errors: nat, code: int, critical: bool, escalated: bool, logged: bool, stats: Summary)

  class DefaultErrorHandler {
    const strategy: LogStrategy
    const threshold: int
    const window: int
    var totalErrors: nat
    var criticalErrors: nat
    var escalatedErrors: nat
    var lastError: Option<real>
    var errorTypes: map<int, nat>
    var recent: seq<Report>
    /** Every report since construction or the last reset. */
    ghost var history: seq<Report>

    ghost predicate Valid()
      reads this
    {
      && recent == Recent(history, window)
      && totalErrors == Errors(history)
      && criticalErrors == Criticals(history)
      && escalatedErrors == Escalations(history, threshold, window)
      && Total(errorTypes) == |history|
      && (forall code :: (if code in errorTypes then errorTypes[code] else 0) == Times(history, code))
      && lastError == if history == [] then None else Some(history[|history| - 1].seen)
    }

    constructor (strategy: LogStrategy, threshold: int, window: int)
      ensures Valid() && history == []
      ensures this.strategy == strategy && this.threshold == threshold && this.window == window
    {
      this.strategy, this.threshold, this.window := strategy, threshold, window;
      totalErrors, criticalErrors, escalatedErrors := 0, 0, 0;
      lastError, errorTypes, recent, history := None, map[], [], [];
    }

    predicate ShouldLog(report: Report)
    {
      match strategy
      case CriticalOnly => Critical(report.code)
      case SummaryOnly => report.errors > 1
      case _ => true
    }

    method HandleError(report: Report) returns (result: Handled)
      requires Valid()
      modifies this
      ensures Valid() && history == old(history) + [report]
      ensures result == Handled(report.errors, report.code, Critical(report.code),
                                ShouldEscalate(Recent(history, window), threshold), ShouldLog(report),
                                Summary(Errors(history), Criticals(history), Escalations(history, threshold, window),
                                        |Recent(history, window)|))
      ensures result.critical <==> report.code in {100, 102, 131, 132, 133}
      ensures result.escalated <==> Escalates(history, threshold, window)
      ensures result.logged <==>
        match strategy
        case CriticalOnly => report.code in {100, 102, 131, 132, 133}
        case SummaryOnly => report.errors > 1
        case _ => true
      ensures totalErrors == old(totalErrors) + report.errors && errorTypes == Bump(old(errorTypes), report.code)
      ensures criticalErrors == old(criticalErrors) + (if result.critical then 1 else 0)
      ensures escalatedErrors == old(escalatedErrors) + (if result.escalated then 1 else 0)
      ensures lastError == Some(report.seen) && |recent| == |InWindow(history, window)|
      ensures result.stats == Summary(totalErrors, criticalErrors, escalatedErrors, |recent|)
    {
      ghost var after := history + [report];
      HistoryGrows(history, report, threshold, window);
      BumpAddsOne(errorTypes, report.code);
      EscalatesIff(after, threshold, window);
      hide Bump, Escalates, InWindow, Recent, Errors, Criticals, Escalations, Total, Times, Newer;
      totalErrors := totalErrors + report.errors;
      lastError := Some(report.seen);
      errorTypes := Bump(errorTypes, report.code);
      var critical := Critical(report.code);
      if critical {
        criticalErrors := criticalErrors + 1;
      }
      recent := Newer(recent + [report], Cutoff(report.time, window));
      var escalated := ShouldEscalate(recent, threshold);
      if escalated {
        escalatedErrors := escalatedErrors + 1;
      }
      history := after;
      var stats := Summary(totalErrors, criticalErrors, escalatedErrors, |recent|);
      result := Handled(report.errors, report.code, critical, escalated, ShouldLog(report), stats);
    }

    method ResetStats()
      modifies this
      ensures Valid() && history == []
    {
      totalErrors, criticalErrors, escalatedErrors := 0, 0, 0;
      lastError, errorTypes, recent, history := None, map[], [], [];
    }
  }

  lemma HistoryGrows(history: seq<Report>, report: Report, threshold: int, window: int)
    ensures var after := history + [report];
            && Recent(after, window) == Newer(Recent(history, window) + [report], Cutoff(report.time, window))
            && Errors(after) == Errors(history) + report.errors
            && Criticals(after) == Criticals(history) + (if Critical(report.code) then 1 else 0)
            && Escalations(after, threshold, window)
               == Escalations(history, threshold, window)
                  + (if ShouldEscalate(Recent(after, window), threshold) then 1 else 0)
            && forall code :: Times(after, code) == Times(history, code) + (if report.code == code then 1 else 0)
  {
    assert (history + [report])[..|history|] == history;
  }

  /** The message handler's statistics: three tallies of the same messages. */
  class DefaultMessageHandler {
    const maskSensitiveData: bool
    var totalMessages: nat
    var byType: map<string, nat>
    var byUser: map<string, nat>
    var byInbox: map<string, nat>
    var sensitiveDetected: nat

    ghost predicate Valid()
      reads this
    {
      && Total(byType) == Total(byUser) == Total(byInbox) == totalMessages
      && sensitiveDetected <= totalMessages && (!maskSensitiveData ==> sensitiveDetected == 0)
    }

    constructor (maskSensitiveData: bool)
      ensures Valid() && totalMessages == 0 && this.maskSensitiveData == maskSensitiveData
    {
      this.maskSensitiveData := maskSensitiveData;
      totalMessages, byType, byUser, byInbox, sensitiveDetected := 0, map[], map[], map[], 0;
    }

    /** `sensitive` says whether the message text matches one of the masking patterns. */
    method UpdateStats(kind: string, user: Option<string>, inbox: Option<string>, sensitive: bool)
      requires Valid()
      modifies this
      ensures Valid() && totalMessages == old(totalMessages) + 1
      ensures byType == Bump(old(byType), kind)
      ensures byUser == Bump(old(byUser), if user.Some? then user.value else "unknown")
      ensures byInbox == Bump(old(byInbox), if inbox.Some? then inbox.value else "unknown")
      ensures sensitiveDetected == old(sensitiveDetected) + if maskSensitiveData && sensitive then 1 else 0
    {
      hide Total, Bump;
      var userId := if user.Some? then user.value else "unknown";
      var inboxId := if inbox.Some? then inbox.value else "unknown";
      BumpAddsOne(byType, kind);
      BumpAddsOne(byUser, userId);
      BumpAddsOne(byInbox, inboxId);
      totalMessages := totalMessages + 1;
      byType := Bump(byType, kind);
      byUser := Bump(byUser, userId);
      byInbox := Bump(byInbox, inboxId);
      if maskSensitiveData && sensitive {
        sensitiveDetected := sensitiveDetected + 1;
      }
    }
  }
}

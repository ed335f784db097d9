/** `ExternalEventRegistry`: handlers subscribed to event types by exact name, by prefix or to all. */
module EventRouting {
  import opened Outcomes
  import opened Text

  const WILDCARD := "*"

  datatype Registration = Registration(source: string, pattern: string, handler: nat)

  /** A pattern matches its own event type, everything, or every type under its prefix. */
  ghost predicate Matches(pattern: string, t: string)
  {
    pattern == t || pattern == WILDCARD || exists p :: pattern == p + ".*" && p + "." <= t
  }

  ghost predicate Subscribed(r: Registration, source: string, t: string)
  {
    r.source == source && Matches(r.pattern, t)
  }

  /** How specific a matching pattern is: the exact type most, then longer prefixes, `*` least. */
  function Specificity(pattern: string, t: string): int
  {
    if pattern == t then |t| + 2 else if pattern == WILDCARD then 0 else |pattern| - 1
  }

  /** Registration `x` is dispatched before registration `y`: more specific, or as specific and earlier. */
  ghost predicate Before(regs: seq<Registration>, t: string, x: nat, y: nat)
    requires x < |regs| && y < |regs|
  {
    var (a, b) := (Specificity(regs[x].pattern, t), Specificity(regs[y].pattern, t));
    a > b || (a == b && x < y)
  }

  // ---------------------------------------------------------------------------
  // The generated patterns are exactly the matching ones, in order of specificity.
  // ---------------------------------------------------------------------------

  function PrefixPattern(segments: seq<string>, cut: nat): string
    requires cut <= |segments|
  {
    Join(segments[..cut], ".") + ".*"
  }

  /** The patterns looked up for an event type: itself, its prefixes longest first, and `*`. */
  function Patterns(t: string): (r: seq<string>)
    ensures |r| == |Split(t, '.')| + 1
  {
    var segments := Split(t, '.');
    var n := |segments|;
    [t] + seq(n - 1, i requires 0 <= i < n - 1 => PrefixPattern(segments, n - 1 - i)) + [WILDCARD]
  }

  lemma CutIsPrefix(t: string, cut: nat)
    requires 0 < cut < |Split(t, '.')|
    ensures var p := Join(Split(t, '.')[..cut], "."); p + "." <= t && |PrefixPattern(Split(t, '.'), cut)| == |p| + 2
  {
    hide Split, Join;
    var p := Join(Split(t, '.')[..cut], ['.']);
    assert p + ['.'] <= t by {
      LeadingSegmentsArePrefixes(t, '.', cut);
    }
  }

  lemma PatternsMatch(t: string, k: nat)
    requires k < |Patterns(t)|
    ensures Matches(Patterns(t)[k], t)
  {
    hide Split, Join;
    var n := |Split(t, '.')|;
    if 0 < k < n {
      CutIsPrefix(t, n - k);
      assert Patterns(t)[k] == PrefixPattern(Split(t, '.'), n - k);
    }
  }

  lemma MatchingIsGenerated(t: string, pattern: string)
    requires Matches(pattern, t)
    ensures pattern in Patterns(t)
  {
    hide Split, Join;
    var n := |Split(t, '.')|;
    if pattern == t {
      assert Patterns(t)[0] == t;
    } else if pattern == WILDCARD {
      assert Patterns(t)[n] == WILDCARD;
    } else {
      var p :| pattern == p + ".*" && p + "." <= t;
      var cut := PrefixIsLeadingSegments(t, '.', p);
      assert Patterns(t)[n - cut] == PrefixPattern(Split(t, '.'), cut) == pattern;
    }
  }

  lemma ExactOutranks(t: string, p: string)
    requires p + "." <= t
    ensures Specificity(p + ".*", t) == (if p + ".*" == t then |t| + 2 else |p| + 1) && |p| + 1 <= |t|
  {
  }

  lemma LongerPrefixOutranks(t: string, p: string, q: string)
    requires p + "." <= t && q + "." <= t && |q| < |p|
    ensures Specificity(p + ".*", t) > Specificity(q + ".*", t)
  {
    ExactOutranks(t, p);
    ExactOutranks(t, q);
    assert t[|p|] == (p + ".")[|p|] == '.';
    assert (q + ".*")[|q| + 1] == '*';
  }

  /** Of two generated patterns the earlier one is more specific, unless they are the same. */
  lemma PatternsDescend(t: string, j: nat, k: nat)
    requires j < k < |Patterns(t)|
    ensures Patterns(t)[j] == Patterns(t)[k] || Specificity(Patterns(t)[j], t) > Specificity(Patterns(t)[k], t)
  {
    hide Join;
    var segments := Split(t, '.');
    var n := |segments|;
    if 0 < k < n {
      CutIsPrefix(t, n - k);
      var q := Join(segments[..n - k], ".");
      assert Patterns(t)[k] == q + ".*";
      ExactOutranks(t, q);
      if 0 < j {
        CutIsPrefix(t, n - j);
        var p := Join(segments[..n - j], ".");
        assert Patterns(t)[j] == p + ".*";
        JoinGrows(segments, n - k, n - j, ".");
        LongerPrefixOutranks(t, p, q);
      }
    } else if 0 < j {
      CutIsPrefix(t, n - j);
      var p := Join(segments[..n - j], ".");
      assert Patterns(t)[j] == p + ".*";
      ExactOutranks(t, p);
      assert t == WILDCARD ==> p + "." == WILDCARD;
    }
  }

  // ---------------------------------------------------------------------------
  // Candidate registrations, in lookup order, and the first per handler.
  // ---------------------------------------------------------------------------

  /** The registrations stored under one key, in registration order. */
  function Block(regs: seq<Registration>, source: string, pattern: string): (r: seq<nat>)
    ensures forall i :: 0 <= i < |r| ==> r[i] < |regs| && regs[r[i]].source == source && regs[r[i]].pattern == pattern
    ensures forall i, j :: 0 <= i < j < |r| ==> r[i] < r[j]
    ensures forall x: nat :: x < |regs| && regs[x].source == source && regs[x].pattern == pattern ==> x in r
  {
    if regs == [] then [] else
      var n := |regs| - 1;
      var r := Block(regs[..n], source, pattern);
      if regs[n].source == source && regs[n].pattern == pattern then r + [n] else r
  }

  /** The registrations looked up under the first `k` patterns, in order. */
  function Candidates(regs: seq<Registration>, source: string, patterns: seq<string>): (r: seq<nat>)
    ensures forall i :: 0 <= i < |r| ==> r[i] < |regs|
  {
    if patterns == [] then [] else
      var k := |patterns| - 1;
      Candidates(regs, source, patterns[..k]) + Block(regs, source, patterns[k])
  }

  lemma {:induction false} CandidateIff(regs: seq<Registration>, source: string, patterns: seq<string>, x: nat)
    ensures x in Candidates(regs, source, patterns)
       <==> x < |regs| && regs[x].source == source && regs[x].pattern in patterns
  {
    if patterns != [] {
      CandidateIff(regs, source, patterns[..|patterns| - 1], x);
    }
  }

  /** Every candidate is a repeat, or comes after all candidates before it. */
  ghost predicate Orderly(regs: seq<Registration>, t: string, c: seq<nat>)
    requires forall i :: 0 <= i < |c| ==> c[i] < |regs|
  {
    forall j :: 0 <= j < |c| ==> c[j] in c[..j] || forall i :: 0 <= i < j ==> Before(regs, t, c[i], c[j])
  }

  ghost predicate Descending(patterns: seq<string>, t: string)
  {
    forall j, k :: 0 <= j < k < |patterns| ==>
      patterns[j] == patterns[k] || Specificity(patterns[j], t) > Specificity(patterns[k], t)
  }

  /** The candidate is a repeat of an earlier one, or comes after everything in `head` and before it in its block. */
  ghost predicate Follows(regs: seq<Registration>, t: string, head: seq<nat>, block: seq<nat>, j: nat)
    requires (forall i :: 0 <= i < |head| ==> head[i] < |regs|) && forall i :: 0 <= i < |block| ==> block[i] < |regs|
    requires j < |block|
  {
    || block[j] in head
    || ((forall i :: 0 <= i < |head| ==> Before(regs, t, head[i], block[j])) &&
        (forall i :: 0 <= i < j ==> Before(regs, t, block[i], block[j])))
  }

  lemma OrderlyConcat(regs: seq<Registration>, t: string, head: seq<nat>, block: seq<nat>)
    requires (forall i :: 0 <= i < |head| ==> head[i] < |regs|) && forall i :: 0 <= i < |block| ==> block[i] < |regs|
    requires Orderly(regs, t, head) && forall j :: 0 <= j < |block| ==> Follows(regs, t, head, block, j)
    ensures Orderly(regs, t, head + block)
  {
    hide Before;
    var all := head + block;
    forall j | 0 <= j < |all|
      ensures all[j] in all[..j] || forall i :: 0 <= i < j ==> Before(regs, t, all[i], all[j])
    {
      if j < |head| {
        assert all[..j] == head[..j] && all[j] == head[j];
      } else {
        var m := j - |head|;
        assert Follows(regs, t, head, block, m);
        assert all[..j] == head + block[..m];
      }
    }
  }

  lemma BlockFollows(regs: seq<Registration>, source: string, t: string, patterns: seq<string>, j: nat)
    requires patterns != [] && Descending(patterns, t)
    requires j < |Block(regs, source, patterns[|patterns| - 1])|
    ensures var (front, last) := (patterns[..|patterns| - 1], patterns[|patterns| - 1]);
            Follows(regs, t, Candidates(regs, source, front), Block(regs, source, last), j)
  {
    var (front, last) := (patterns[..|patterns| - 1], patterns[|patterns| - 1]);
    var (head, block) := (Candidates(regs, source, front), Block(regs, source, last));
    hide Candidates, Block, Specificity;
    CandidateIff(regs, source, front, block[j]);
    if last !in front {
      forall i | 0 <= i < |head|
        ensures Before(regs, t, head[i], block[j])
      {
        CandidateIff(regs, source, front, head[i]);
      }
    }
  }

  lemma {:induction false} CandidatesOrderly(regs: seq<Registration>, source: string, t: string, patterns: seq<string>)
    requires Descending(patterns, t)
    ensures Orderly(regs, t, Candidates(regs, source, patterns))
  {
    if patterns != [] {
      var (front, last) := (patterns[..|patterns| - 1], patterns[|patterns| - 1]);
      assert Candidates(regs, source, patterns) == Candidates(regs, source, front) + Block(regs, source, last);
      assert forall j :: 0 <= j < |front| ==> front[j] == patterns[j];
      CandidatesOrderly(regs, source, t, front);
      hide Candidates, Block, Orderly, Follows, Descending;
      forall j | 0 <= j < |Block(regs, source, last)|
        ensures Follows(regs, t, Candidates(regs, source, front), Block(regs, source, last), j)
      {
        BlockFollows(regs, source, t, patterns, j);
      }
      OrderlyConcat(regs, t, Candidates(regs, source, front), Block(regs, source, last));
    }
  }

  function HandlersOf(regs: seq<Registration>, c: seq<nat>): (r: seq<nat>)
    requires forall i :: 0 <= i < |c| ==> c[i] < |regs|
    ensures |r| == |c| && forall i :: 0 <= i < |r| ==> r[i] == regs[c[i]].handler
  {
    seq(|c|, i requires 0 <= i < |c| => regs[c[i]].handler)
  }

  /** Keep the first occurrence of every handler. */
  function Dedup(s: seq<nat>): (r: seq<nat>)
    ensures forall h :: h in r <==> h in s
    ensures forall i, j :: 0 <= i < j < |r| ==> r[i] != r[j]
  {
    if s == [] then [] else
      var r := Dedup(s[..|s| - 1]);
      assert s == s[..|s| - 1] + [s[|s| - 1]];
      if s[|s| - 1] in r then r else r + [s[|s| - 1]]
  }

  /** The candidates that are the first of their handler. */
  ghost function Firsts(regs: seq<Registration>, c: seq<nat>): (r: seq<nat>)
    requires forall i :: 0 <= i < |c| ==> c[i] < |regs|
    ensures forall i :: 0 <= i < |r| ==> r[i] in c && r[i] < |regs|
  {
    if c == [] then [] else
      var n := |c| - 1;
      Firsts(regs, c[..n]) + if regs[c[n]].handler in HandlersOf(regs, c[..n]) then [] else [c[n]]
  }

  lemma HandlersSnoc(regs: seq<Registration>, d: seq<nat>, last: nat)
    requires (forall i :: 0 <= i < |d| ==> d[i] < |regs|) && last < |regs|
    ensures HandlersOf(regs, d + [last]) == HandlersOf(regs, d) + [regs[last].handler]
  {
  }

  lemma DedupOne(s: seq<nat>, h: nat)
    ensures Dedup(s + [h]) == if h in s then Dedup(s) else Dedup(s) + [h]
  {
    Snoc(s, h);
  }

  /** The handlers of the firsts are the handlers of all candidates without repeats. */
  lemma {:induction false} FirstsAreDedup(regs: seq<Registration>, c: seq<nat>)
    requires forall i :: 0 <= i < |c| ==> c[i] < |regs|
    ensures HandlersOf(regs, Firsts(regs, c)) == Dedup(HandlersOf(regs, c))
  {
    if c != [] {
      var d, last := c[..|c| - 1], c[|c| - 1];
      FirstsAreDedup(regs, d);
      FirstsSnoc(regs, d, last);
      Unsnoc(c);
      HandlersSnoc(regs, d, last);
      HandlersSnoc(regs, Firsts(regs, d), last);
      DedupOne(HandlersOf(regs, d), regs[last].handler);
      hide Firsts, Dedup, HandlersOf;
      assert c == d + [last];
    }
  }

  ghost predicate InDispatchOrder(regs: seq<Registration>, t: string, f: seq<nat>)
    requires forall i :: 0 <= i < |f| ==> f[i] < |regs|
  {
    forall i, j :: 0 <= i < j < |f| ==> Before(regs, t, f[i], f[j])
  }

  /** `x` is no later than any candidate with its handler. */
  ghost predicate BestOf(regs: seq<Registration>, t: string, c: seq<nat>, x: nat)
    requires x < |regs| && forall i :: 0 <= i < |c| ==> c[i] < |regs|
  {
    forall k :: 0 <= k < |c| && regs[c[k]].handler == regs[x].handler ==> x == c[k] || Before(regs, t, x, c[k])
  }

  lemma OldFirstStaysBest(regs: seq<Registration>, t: string, d: seq<nat>, last: nat, x: nat)
    requires (forall i :: 0 <= i < |d| ==> d[i] < |regs|) && last < |regs| && Orderly(regs, t, d + [last])
    requires x in d && BestOf(regs, t, d, x)
    ensures BestOf(regs, t, d + [last], x) && (last !in d ==> Before(regs, t, x, last))
  {
    hide Before;
    var c := d + [last];
    assert c[|d|] == last && c[..|d|] == d;
    assert forall j :: 0 <= j < |d| ==> c[j] == d[j];
    if last !in d {
      var k :| 0 <= k < |d| && d[k] == x;
      assert Before(regs, t, c[k], c[|d|]);
    }
  }

  lemma NewFirstIsBest(regs: seq<Registration>, t: string, d: seq<nat>, last: nat)
    requires (forall i :: 0 <= i < |d| ==> d[i] < |regs|) && last < |regs|
    requires regs[last].handler !in HandlersOf(regs, d)
    ensures BestOf(regs, t, d + [last], last)
  {
    hide Before;
    forall k | 0 <= k < |d|
      ensures regs[d[k]].handler != regs[last].handler
    {
      assert HandlersOf(regs, d)[k] == regs[d[k]].handler;
    }
  }

  /** The firsts come in dispatch order, and no candidate of a handler comes before its first. */
  lemma {:induction false} FirstsAreBest(regs: seq<Registration>, t: string, c: seq<nat>)
    requires (forall i :: 0 <= i < |c| ==> c[i] < |regs|) && Orderly(regs, t, c)
    ensures FirstsBest(regs, t, c)
  {
    if c != [] {
      OrderlyPrefix(regs, t, c);
      Unsnoc(c);
      hide *;
      FirstsAreBest(regs, t, c[..|c| - 1]);
      FirstsStep(regs, t, c[..|c| - 1], c[|c| - 1]);
    }
  }

  ghost predicate FirstsBest(regs: seq<Registration>, t: string, c: seq<nat>)
    requires forall i :: 0 <= i < |c| ==> c[i] < |regs|
  {
    var f := Firsts(regs, c);
    InDispatchOrder(regs, t, f) && forall j :: 0 <= j < |f| ==> BestOf(regs, t, c, f[j])
  }

  lemma FirstsStep(regs: seq<Registration>, t: string, d: seq<nat>, last: nat)
    requires (forall i :: 0 <= i < |d| ==> d[i] < |regs|) && last < |regs|
    requires Orderly(regs, t, d + [last]) && FirstsBest(regs, t, d)
    ensures FirstsBest(regs, t, d + [last])
  {
    hide Before, BestOf, Orderly, Firsts, HandlersOf, InDispatchOrder;
    FirstsSnoc(regs, d, last);
    var f := Firsts(regs, d);
    forall j | 0 <= j < |f|
      ensures BestOf(regs, t, d + [last], f[j]) && (last !in d ==> Before(regs, t, f[j], last))
    {
      OldFirstStaysBest(regs, t, d, last, f[j]);
    }
    if regs[last].handler !in HandlersOf(regs, d) {
      NewHandlerNewCandidate(regs, d, last);
      NewFirstIsBest(regs, t, d, last);
      DispatchGrows(regs, t, f, last);
    }
  }

  lemma DispatchGrows(regs: seq<Registration>, t: string, f: seq<nat>, last: nat)
    requires (forall i :: 0 <= i < |f| ==> f[i] < |regs|) && last < |regs|
    requires InDispatchOrder(regs, t, f) && forall j :: 0 <= j < |f| ==> Before(regs, t, f[j], last)
    ensures InDispatchOrder(regs, t, f + [last])
  {
    hide Before;
  }

  lemma OrderlyPrefix(regs: seq<Registration>, t: string, c: seq<nat>)
    requires c != [] && (forall i :: 0 <= i < |c| ==> c[i] < |regs|) && Orderly(regs, t, c)
    ensures Orderly(regs, t, c[..|c| - 1])
  {
    hide Before;
    var d := c[..|c| - 1];
    forall j | 0 <= j < |d|
      ensures d[j] in d[..j] || forall i :: 0 <= i < j ==> Before(regs, t, d[i], d[j])
    {
      assert d[..j] == c[..j] && d[j] == c[j];
    }
  }

  lemma NewHandlerNewCandidate(regs: seq<Registration>, d: seq<nat>, last: nat)
    requires (forall i :: 0 <= i < |d| ==> d[i] < |regs|) && last < |regs|
    requires regs[last].handler !in HandlersOf(regs, d)
    ensures last !in d
  {
    forall k | 0 <= k < |d|
      ensures d[k] != last
    {
      assert HandlersOf(regs, d)[k] == regs[d[k]].handler;
    }
  }

  lemma FirstsSnoc(regs: seq<Registration>, d: seq<nat>, last: nat)
    requires (forall i :: 0 <= i < |d| ==> d[i] < |regs|) && last < |regs|
    ensures var f := Firsts(regs, d);
            Firsts(regs, d + [last]) == if regs[last].handler in HandlersOf(regs, d) then f else f + [last]
  {
    hide HandlersOf;
    Snoc(d, last);
  }

  // ---------------------------------------------------------------------------
  // The registry's answer, and what it means.
  // ---------------------------------------------------------------------------

  function HandlersFor(regs: seq<Registration>, source: string, t: string): seq<nat>
  {
    Dedup(HandlersOf(regs, Candidates(regs, source, Patterns(t))))
  }

  /** A handler is returned exactly when it is subscribed under some matching pattern, and only once. */
  lemma RoutingIsSoundAndComplete(regs: seq<Registration>, source: string, t: string, h: nat)
    ensures h in HandlersFor(regs, source, t)
       <==> exists x: nat :: x < |regs| && Subscribed(regs[x], source, t) && regs[x].handler == h
    ensures var r := HandlersFor(regs, source, t); forall i, j :: 0 <= i < j < |r| ==> r[i] != r[j]
  {
    hide Patterns, Matches;
    var c := Candidates(regs, source, Patterns(t));
    forall x: nat | x < |regs|
      ensures x in c <==> Subscribed(regs[x], source, t)
    {
      CandidateIff(regs, source, Patterns(t), x);
      if regs[x].pattern in Patterns(t) {
        var k :| 0 <= k < |Patterns(t)| && Patterns(t)[k] == regs[x].pattern;
        PatternsMatch(t, k);
      }
      if Matches(regs[x].pattern, t) {
        MatchingIsGenerated(t, regs[x].pattern);
      }
    }
    var hs := HandlersOf(regs, c);
    if h in hs {
      var i :| 0 <= i < |hs| && hs[i] == h;
      assert c[i] in c;
    }
    if x: nat :| x < |regs| && Subscribed(regs[x], source, t) && regs[x].handler == h {
      var i :| 0 <= i < |c| && c[i] == x;
      assert hs[i] == h;
    }
  }

  /** Handlers run in the order of their best registrations: the most specific pattern first, and
      registration order among equally specific ones. */
  lemma RoutingOrder(regs: seq<Registration>, source: string, t: string, i: nat, j: nat) returns (best: nat)
    requires i < j < |HandlersFor(regs, source, t)|
    ensures best < |regs| && Subscribed(regs[best], source, t)
    ensures regs[best].handler == HandlersFor(regs, source, t)[i]
    ensures forall y: nat ::
      y < |regs| && Subscribed(regs[y], source, t) && regs[y].handler == HandlersFor(regs, source, t)[j] ==>
        Before(regs, t, best, y)
  {
    hide Patterns, Matches, Before, BestOf, InDispatchOrder, Firsts;
    var c := Candidates(regs, source, Patterns(t));
    PatternsDescending(t);
    CandidatesOrderly(regs, source, t, Patterns(t));
    FirstsAreBest(regs, t, c);
    FirstsAreDedup(regs, c);
    var f := Firsts(regs, c);
    best := f[i];
    CandidateMatches(regs, source, t, best);
    assert HandlersOf(regs, f)[i] == regs[f[i]].handler && HandlersOf(regs, f)[j] == regs[f[j]].handler;
    forall y: nat | y < |regs| && Subscribed(regs[y], source, t) && regs[y].handler == HandlersFor(regs, source, t)[j]
      ensures Before(regs, t, best, y)
    {
      MatchingIsGenerated(t, regs[y].pattern);
      CandidateIff(regs, source, Patterns(t), y);
      BestComesFirst(regs, t, c, f, i, j, y);
    }
  }

  lemma PatternsDescending(t: string)
    ensures Descending(Patterns(t), t)
  {
    hide Patterns;
    forall a, b | 0 <= a < b < |Patterns(t)|
      ensures Patterns(t)[a] == Patterns(t)[b] || Specificity(Patterns(t)[a], t) > Specificity(Patterns(t)[b], t)
    {
      PatternsDescend(t, a, b);
    }
  }

  lemma CandidateMatches(regs: seq<Registration>, source: string, t: string, x: nat)
    requires x in Candidates(regs, source, Patterns(t))
    ensures x < |regs| && Subscribed(regs[x], source, t)
  {
    hide Patterns, Matches;
    CandidateIff(regs, source, Patterns(t), x);
    var k :| 0 <= k < |Patterns(t)| && Patterns(t)[k] == regs[x].pattern;
    PatternsMatch(t, k);
  }

  lemma BestComesFirst(regs: seq<Registration>, t: string, c: seq<nat>, f: seq<nat>, i: nat, j: nat, y: nat)
    requires (forall k :: 0 <= k < |c| ==> c[k] < |regs|) && (forall k :: 0 <= k < |f| ==> f[k] < |regs|)
    requires i < j < |f| && InDispatchOrder(regs, t, f) && BestOf(regs, t, c, f[j])
    requires y in c && regs[y].handler == regs[f[j]].handler
    ensures Before(regs, t, f[i], y)
  {
    assert Before(regs, t, f[i], f[j]);
    var k :| 0 <= k < |c| && c[k] == y;
  }

  // ---------------------------------------------------------------------------
  // The class of the source.
  // ---------------------------------------------------------------------------

  datatype RegistryError = BlankSource | BlankEventType | NotCallable | NotAsync

  datatype DispatchReport = DispatchReport(matched: nat, succeeded: nat, errors: seq<nat>)

  class ExternalEventRegistry {
    var subscriptions: map<(string, string), seq<nat>>
    ghost var regs: seq<Registration>

    /** The table holds, under each key, the handlers registered for it in order. */
    ghost predicate Valid()
      reads this
    {
      forall key: (string, string) :: Under(subscriptions, key) == HandlersOf(regs, Block(regs, key.0, key.1))
    }

    constructor ()
      ensures Valid() && regs == []
    {
      subscriptions, regs := map[], [];
    }

    method Register(source: string, eventType: string, handler: nat, callable: bool, isAsync: bool)
      returns (error: Option<RegistryError>)
      requires Valid()
      modifies this
      ensures Valid()
      ensures error == if IsBlank(source) then Some(BlankSource) else if IsBlank(eventType) then Some(BlankEventType)
                       else if !callable then Some(NotCallable) else if !isAsync then Some(NotAsync) else None
      ensures regs == if error.Some? then old(regs) else old(regs) + [Registration(source, eventType, handler)]
    {
      hide IsBlank, HandlersOf, Block;
      if IsBlank(source) {
        return Some(BlankSource);
      }
      if IsBlank(eventType) {
        return Some(BlankEventType);
      }
      if !callable {
        return Some(NotCallable);
      }
      if !isAsync {
        return Some(NotAsync);
      }
      Subscribe(source, eventType, handler);
      return None;
    }

    method Subscribe(source: string, eventType: string, handler: nat)
      requires Valid()
      modifies this
      ensures Valid() && regs == old(regs) + [Registration(source, eventType, handler)]
    {
      hide HandlersOf, Block;
      var key := (source, eventType);
      ghost var r := Registration(source, eventType, handler);
      forall k: (string, string)
        ensures HandlersOf(regs + [r], Block(regs + [r], k.0, k.1))
             == HandlersOf(regs, Block(regs, k.0, k.1)) + if k == key then [handler] else []
      {
        BlockGrows(regs, r, k.0, k.1);
      }
      subscriptions := subscriptions[key := Under(subscriptions, key) + [handler]];
      regs := regs + [r];
    }

    method MatchingKeys(source: string, t: string) returns (keys: seq<(string, string)>)
      ensures |keys| == |Patterns(t)| && forall k :: 0 <= k < |keys| ==> keys[k] == (source, Patterns(t)[k])
    {
      hide Join;
      keys := [(source, t)];
      var segments := Split(t, '.');
      var cut := |segments| - 1;
      while cut > 0
        invariant 0 <= cut < |segments| && |keys| == |segments| - cut
        invariant forall k :: 0 <= k < |keys| ==> keys[k] == (source, Patterns(t)[k])
      {
        assert Patterns(t)[|keys|] == PrefixPattern(segments, cut);
        keys := keys + [(source, Join(segments[..cut], ".") + ".*")];
        cut := cut - 1;
      }
      keys := keys + [(source, WILDCARD)];
    }

    method Lookup(source: string, t: string) returns (unique: seq<nat>)
      requires Valid()
      ensures unique == HandlersFor(regs, source, t)
    {
      assert HandlersOf(regs, Candidates(regs, source, Patterns(t)[..0])) == [] && Dedup([]) == [];
      hide *;
      var keys := MatchingKeys(source, t);
      var ordered: seq<nat> := [];
      for k := 0 to |keys|
        invariant ordered == HandlersOf(regs, Candidates(regs, source, Patterns(t)[..k]))
      {
        CandidatesGrow(regs, source, Patterns(t), k);
        Holds(keys[k]);
        ordered := ordered + Under(subscriptions, keys[k]);
      }
      assert Patterns(t)[..|keys|] == Patterns(t);
      unique := DedupInOrder(ordered);
      HandlersForIs(regs, source, t);
    }

    lemma Holds(key: (string, string))
      requires Valid()
      ensures Under(subscriptions, key) == HandlersOf(regs, Block(regs, key.0, key.1))
    {
    }

    /** Run every matching handler; `fails(i)` says whether the i-th raises. The report names exactly the
        raising ones, in their order. */
    method Dispatch(source: string, t: string, fails: nat -> bool) returns (report: DispatchReport)
      requires Valid()
      ensures var handlers := HandlersFor(regs, source, t);
              report.matched == |handlers| == report.succeeded + |report.errors| &&
              exists at :: Raised(at, report.errors, handlers, fails)
    {
      hide HandlersFor;
      var handlers := Lookup(source, t);
      ghost var at: seq<nat> := [];
      if handlers == [] {
        assert Raised(at, [], handlers, fails);
        return DispatchReport(0, 0, []);
      }
      var succeeded, errors := 0, [];
      for i := 0 to |handlers|
        invariant succeeded + |errors| == i
        invariant Raised(at, errors, handlers[..i], fails)
      {
        RaisedGrows(at, errors, handlers[..i], handlers[i], fails);
        assert handlers[..i] + [handlers[i]] == handlers[..i + 1];
        if fails(i) {
          errors, at := errors + [handlers[i]], at + [i];
        } else {
          succeeded := succeeded + 1;
        }
      }
      assert handlers[..|handlers|] == handlers;
      report := DispatchReport(|handlers|, succeeded, errors);
    }
  }

  /** `errors` are the handlers at the places `at`, which are exactly those that raise, in order. */
  ghost predicate Raised(at: seq<nat>, errors: seq<nat>, handlers: seq<nat>, fails: nat -> bool)
  {
    && |at| == |errors|
    && (forall j :: 0 <= j < |at| ==> at[j] < |handlers| && errors[j] == handlers[at[j]])
    && (forall i, j :: 0 <= i < j < |at| ==> at[i] < at[j])
    && (forall p: nat :: p in at <==> p < |handlers| && fails(p))
  }

  lemma RaisedGrows(at: seq<nat>, errors: seq<nat>, handlers: seq<nat>, next: nat, fails: nat -> bool)
    requires Raised(at, errors, handlers, fails)
    ensures fails(|handlers|) ==> Raised(at + [|handlers|], errors + [next], handlers + [next], fails)
    ensures !fails(|handlers|) ==> Raised(at, errors, handlers + [next], fails)
  {
  }

  lemma HandlersForIs(regs: seq<Registration>, source: string, t: string)
    ensures HandlersFor(regs, source, t) == Dedup(HandlersOf(regs, Candidates(regs, source, Patterns(t))))
  {
  }

  lemma DedupSnoc(s: seq<nat>, i: nat)
    requires i < |s|
    ensures Dedup(s[..i + 1]) == if s[i] in Dedup(s[..i]) then Dedup(s[..i]) else Dedup(s[..i]) + [s[i]]
  {
    assert s[..i + 1][..i] == s[..i];
  }

  method DedupInOrder(ordered: seq<nat>) returns (unique: seq<nat>)
    ensures unique == Dedup(ordered)
  {
    unique := [];
    for i := 0 to |ordered|
      invariant unique == Dedup(ordered[..i])
    {
      DedupSnoc(ordered, i);
      if ordered[i] !in unique {
        unique := unique + [ordered[i]];
      }
    }
    assert ordered[..|ordered|] == ordered;
  }

  function Under(subscriptions: map<(string, string), seq<nat>>, key: (string, string)): seq<nat>
  {
    if key in subscriptions then subscriptions[key] else []
  }

  lemma BlockGrows(regs: seq<Registration>, r: Registration, source: string, pattern: string)
    ensures HandlersOf(regs + [r], Block(regs + [r], source, pattern))
         == HandlersOf(regs, Block(regs, source, pattern)) +
            if r.source == source && r.pattern == pattern then [r.handler] else []
  {
    assert (regs + [r])[..|regs|] == regs;
  }

  lemma CandidatesGrow(regs: seq<Registration>, source: string, patterns: seq<string>, k: nat)
    requires k < |patterns|
    ensures HandlersOf(regs, Candidates(regs, source, patterns[..k + 1]))
         == HandlersOf(regs, Candidates(regs, source, patterns[..k]))
            + HandlersOf(regs, Block(regs, source, patterns[k]))
  {
    assert patterns[..k + 1][..k] == patterns[..k];
  }
}

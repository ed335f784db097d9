/** Expiry triggers: keys `{inbox}:EXPTRIGGER:{action}:{identifier}`, the registry that finds the handler
    of an expired key by substring search, and the parser that takes the key apart again. */
module Expiry {
  import opened Outcomes
  import opened Text

  const MARKER := "EXPTRIGGER"

  /** What a handler is registered under, and searched for in a key. */
  function Prefix(action: string): string
  {
    MARKER + ":" + (action + ":")
  }

  /** A key with everything behind the marker as one piece. */
  function KeyOf(inbox: string, tail: string): string
  {
    inbox + ":" + (MARKER + ":" + tail)
  }

  function Tail(action: string, ident: string): string
  {
    action + ":" + ident
  }

  function Key(inbox: string, action: string, ident: string): string
  {
    KeyOf(inbox, Tail(action, ident))
  }

  // ---------------------------------------------------------------------------
  // Substring search.
  // ---------------------------------------------------------------------------

  /** What follows the first occurrence of `needle`, if there is one: `needle in s`, `s.find` and the slice
      behind it. */
  function After(s: string, needle: string): Option<string>
  {
    if needle <= s then Some(s[|needle|..])
    else if s == "" then None
    else After(s[1..], needle)
  }

  lemma OccursShifted(needle: string, s: string, i: nat)
    requires s != ""
    ensures OccursAt(needle, s, i + 1) <==> OccursAt(needle, s[1..], i)
  {
    if i + 1 <= |s| - |needle| {
      assert s[i + 1..i + 1 + |needle|] == s[1..][i..i + |needle|];
    }
  }

  lemma {:induction false} FoundIffContained(s: string, needle: string)
    ensures After(s, needle).Some? <==> Contains(s, needle)
  {
    if needle <= s {
      assert OccursAt(needle, s, 0);
    } else if s != "" {
      FoundIffContained(s[1..], needle);
      hide After;
      if i :| OccursAt(needle, s, i) {
        OccursShifted(needle, s, i - 1);
      }
      if i :| OccursAt(needle, s[1..], i) {
        OccursShifted(needle, s, i);
      }
    }
  }

  lemma {:induction false} AfterIsFirstOccurrence(s: string, needle: string, i: nat)
    requires OccursAt(needle, s, i)
    ensures exists j :: 0 <= j <= i && OccursAt(needle, s, j) && After(s, needle) == Some(s[j + |needle|..])
  {
    if needle <= s {
      assert OccursAt(needle, s, 0);
    } else {
      OccursShifted(needle, s, i - 1);
      AfterIsFirstOccurrence(s[1..], needle, i - 1);
      var j :| 0 <= j <= i - 1 && OccursAt(needle, s[1..], j) && After(s[1..], needle) == Some(s[1..][j + |needle|..]);
      OccursShifted(needle, s, j);
      assert s[1..][j + |needle|..] == s[j + 1 + |needle|..];
    }
  }

  /** What occurs in a string brings its characters along. */
  lemma OccurrenceBrings(s: string, needle: string, c: char)
    requires c in needle
    ensures Contains(s, needle) ==> c in s
    ensures needle <= s ==> c in s
  {
    var k :| 0 <= k < |needle| && needle[k] == c;
    if i :| OccursAt(needle, s, i) {
      assert s[i..i + |needle|][k] == s[i + k];
    }
    if needle <= s {
      assert s[..|needle|][k] == s[k];
    }
  }

  predicate EndsWith(s: string, suffix: string)
  {
    |suffix| <= |s| && s[|s| - |suffix|..] == suffix
  }

  lemma {:induction false} PrefixIndex(p: string, s: string, c: char)
    requires p <= s && c in p
    ensures IndexOf(p, c) == IndexOf(s, c)
  {
    if p[0] != c {
      assert p == [p[0]] + p[1..] && s[..|p|][1..] == s[1..][..|p| - 1];
      PrefixIndex(p[1..], s[1..], c);
    }
  }

  /** Prefixes align at the first colon. */
  lemma AlignAtColon(a: string, x: string, b: string, y: string)
    requires ':' !in a && ':' !in b
    ensures a + ":" + x <= b + ":" + y <==> a == b && x <= y
  {
    var p, s := a + [':'] + x, b + [':'] + y;
    assert p[|a|] == ':';
    if p <= s {
      IndexOfAfter(a, ':', x);
      IndexOfAfter(b, ':', y);
      PrefixIndex(p, s, ':');
      hide IndexOf;
      assert p[..|a|] == a && s[..|p|][..|a|] == b;
      assert p[|a| + 1..] == x && s[..|p|][|a| + 1..] == y[..|x|];
    }
    if a == b && x <= y {
      assert s[..|p|] == a + [':'] + y[..|x|];
    }
  }

  /** The marker can start only at the end of a segment, with the rest of the needle right behind it. */
  lemma {:induction false} AfterPeel(left: string, right: string, rest: string)
    requires ':' !in left
    ensures After(left + ":" + right, MARKER + ":" + rest)
            == if EndsWith(left, MARKER) && rest <= right then Some(right[|rest|..])
               else After(right, MARKER + ":" + rest)
  {
    var s, needle := left + ":" + right, MARKER + ":" + rest;
    AlignAtColon(MARKER, rest, left, right);
    if left == "" {
      assert s[1..] == right;
    } else if !(left == MARKER && rest <= right) {
      assert s[1..] == left[1..] + ":" + right;
      AfterPeel(left[1..], right, rest);
      hide After;
      if left != MARKER {
        SuffixOfRest(left);
      }
    } else {
      assert s[|needle|..] == right[|rest|..];
    }
  }

  lemma SuffixOfRest(s: string)
    requires s != "" && s != MARKER
    ensures EndsWith(s, MARKER) <==> EndsWith(s[1..], MARKER)
  {
    if |s| > |MARKER| {
      assert s[|s| - |MARKER|..] == s[1..][|s| - 1 - |MARKER|..];
    } else if |s| == |MARKER| {
      assert s[0..] == s;
    }
  }

  /** Where a prefix is found in a key: as part of the inbox, in its place, or further inside. */
  lemma AfterInKey(inbox: string, tail: string, rest: string)
    requires ':' !in inbox
    ensures After(KeyOf(inbox, tail), MARKER + ":" + rest)
            == if EndsWith(inbox, MARKER) && rest <= MARKER + ":" + tail then Some((MARKER + ":" + tail)[|rest|..])
               else if rest <= tail then Some(tail[|rest|..])
               else After(tail, MARKER + ":" + rest)
  {
    assert MARKER[0..] == MARKER;
    assert EndsWith(MARKER, MARKER) && ':' !in MARKER;
    assert KeyOf(inbox, tail) == inbox + ":" + (MARKER + ":" + tail);
    hide *;
    AfterPeel(inbox, MARKER + ":" + tail, rest);
    AfterPeel(MARKER, tail, rest);
  }

  // ---------------------------------------------------------------------------
  // The registry.
  // ---------------------------------------------------------------------------

  /** A handler stands for the function registered. */
  datatype Entry = Entry(action: string, handler: nat)

  datatype Resolved = Resolved(handler: nat, ident: string)

  ghost predicate Distinct(entries: seq<Entry>)
  {
    forall i, j :: 0 <= i < j < |entries| ==> entries[i].action != entries[j].action
  }

  function PositionOf(entries: seq<Entry>, action: string): (i: nat)
    ensures i <= |entries| && (i < |entries| ==> entries[i].action == action)
    ensures forall k :: 0 <= k < i ==> entries[k].action != action
  {
    if entries == [] || entries[0].action == action then 0 else 1 + PositionOf(entries[1..], action)
  }

  /** Registering again replaces the handler and keeps its place, as a dictionary does. */
  function Registered(entries: seq<Entry>, action: string, handler: nat): (r: seq<Entry>)
    ensures |entries| <= |r| <= |entries| + 1
    ensures forall k :: 0 <= k < |entries| ==> r[k].action == entries[k].action
    ensures forall k :: 0 <= k < |entries| && entries[k].action != action ==> r[k] == entries[k]
    ensures Entry(action, handler) in r
    ensures Distinct(entries) ==> Distinct(r)
  {
    var i := PositionOf(entries, action);
    if i < |entries| then
      var r := entries[i := Entry(action, handler)];
      assert r[i] == Entry(action, handler);
      r
    else
      var r := entries + [Entry(action, handler)];
      assert r[i] == Entry(action, handler);
      r
  }

  predicate Found(entries: seq<Entry>, k: int, key: string)
  {
    0 <= k < |entries| && After(key, Prefix(entries[k].action)).Some?
  }

  /** `max` over the prefixes found in the key: the longest, and the first registered among those. */
  function BestMatch(entries: seq<Entry>, key: string): (best: Option<nat>)
    ensures best.Some? ==> Found(entries, best.value, key)
  {
    if entries == [] then None
    else
      var last := |entries| - 1;
      var best := BestMatch(entries[..last], key);
      if After(key, Prefix(entries[last].action)).None? then best
      else if best.Some? && |entries[best.value].action| >= |entries[last].action| then best
      else Some(last)
  }

  function Resolve(entries: seq<Entry>, key: string): Option<Resolved>
  {
    match BestMatch(entries, key)
    case None => None
    case Some(k) => Some(Resolved(entries[k].handler, After(key, Prefix(entries[k].action)).value))
  }

  /** An entry found in a key is preferred over another: longer, or as long and registered first. */
  predicate Beats(entries: seq<Entry>, k: nat, i: nat)
    requires k < |entries| && i < |entries|
  {
    |entries[k].action| > |entries[i].action| || (|entries[k].action| == |entries[i].action| && k < i)
  }

  /** The winner is the one entry found in the key that no other entry found there beats. */
  lemma {:induction false} BestMatchIs(entries: seq<Entry>, key: string, i: nat)
    requires i < |entries|
    ensures BestMatch(entries, key) == Some(i)
            <==> Found(entries, i, key) && forall k :: Found(entries, k, key) && k != i ==> !Beats(entries, k, i)
    ensures Found(entries, i, key) ==> BestMatch(entries, key).Some?
  {
    var last := |entries| - 1;
    var front := entries[..last];
    var best := BestMatch(front, key);
    assert forall k :: 0 <= k < last ==> Found(front, k, key) == Found(entries, k, key);
    hide After;
    if best.Some? {
      BestMatchIs(front, key, best.value);
    }
    if i < last {
      BestMatchIs(front, key, i);
      assert forall k :: Found(front, k, key) ==> Beats(front, k, i) == Beats(entries, k, i);
    }
    if best.None? {
      forall k | 0 <= k < last
        ensures !Found(entries, k, key)
      {
        BestMatchIs(front, key, k);
      }
    }
  }

  class ExpirationHandlerRegistry {
    var handlers: seq<Entry>

    ghost predicate Valid()
      reads this
    {
      Distinct(handlers)
    }

    constructor ()
      ensures Valid() && handlers == []
    {
      handlers := [];
    }

    /** A handler that is not a coroutine function is rejected (TypeError) without effect. */
    method OnExpireAction(action: string, handler: nat, isAsync: bool) returns (accepted: bool)
      requires Valid()
      modifies this
      ensures Valid() && accepted == isAsync
      ensures handlers == if isAsync then Registered(old(handlers), action, handler) else old(handlers)
    {
      if !isAsync {
        return false;
      }
      var i := PositionOf(handlers, action);
      if i < |handlers| {
        handlers := handlers[i := Entry(action, handler)];
      } else {
        handlers := handlers + [Entry(action, handler)];
      }
      return true;
    }
  }

  // ---------------------------------------------------------------------------
  // The parser.
  // ---------------------------------------------------------------------------

  datatype Message = Message(kind: string, data: string)

  datatype ExpiryEvent = ExpiryEvent(key: string, handler: nat, ident: string, action: string)

  function ExtractAction(key: string): string
  {
    var parts := Split(key, ':');
    if |parts| >= 3 then parts[2] else "unknown"
  }

  function InboxOf(key: string): string
  {
    if ':' in key then Split(key, ':')[0] else "wappa"
  }

  function Parse(entries: seq<Entry>, message: Option<Message>): Option<ExpiryEvent>
  {
    if message.None? || message.value.kind != "message" || message.value.data == "" then None
    else
      var key := message.value.data;
      match Resolve(entries, key)
      case None => None
      case Some(found) => Some(ExpiryEvent(key, found.handler, found.ident, ExtractAction(key)))
  }

  /** Splitting reads inbox and action back from any key, whatever the identifier is. */
  lemma SegmentsReadBack(inbox: string, action: string, ident: string)
    requires ':' !in inbox && ':' !in action
    ensures InboxOf(Key(inbox, action, ident)) == inbox && ExtractAction(Key(inbox, action, ident)) == action
  {
    var key := Key(inbox, action, ident);
    SplitFirst(inbox, ':', MARKER + ":" + Tail(action, ident));
    SplitFirst(MARKER, ':', Tail(action, ident));
    SplitFirst(action, ':', ident);
    assert key[|inbox|] == ':';
  }

  /** The action is the third of the key's segments, the inbox the first; a key without as many gives a
      default. */
  lemma SegmentsOfKey(first: string, second: string, third: string, rest: string)
    requires ':' !in first && ':' !in second && ':' !in third
    ensures ExtractAction(first) == "unknown" && InboxOf(first) == "wappa"
    ensures ExtractAction(first + ":" + second) == "unknown" && InboxOf(first + ":" + second) == first
    ensures var key := first + ":" + (second + ":" + third); ExtractAction(key) == third && InboxOf(key) == first
    ensures var key := first + ":" + (second + ":" + (third + ":" + rest));
            ExtractAction(key) == third && InboxOf(key) == first
  {
    hide *;
    OneSegment(first);
    SplitPair(first, ':', second);
    SegmentsShow(first, second, [first, second]);
    ThreeSegments(first, second, third);
    SegmentsShow(first, second + ":" + third, [first, second, third]);
    MoreSegments(first, second, third, rest);
    SegmentsShow(first, second + ":" + (third + ":" + rest), [first, second, third] + Split(rest, ':'));
  }

  lemma OneSegment(key: string)
    requires ':' !in key
    ensures ExtractAction(key) == "unknown" && InboxOf(key) == "wappa"
  {
    SplitNone(key, ':');
  }

  lemma SegmentsShow(first: string, tail: string, parts: seq<string>)
    requires Split(first + ":" + tail, ':') == parts && parts != [] && parts[0] == first
    ensures InboxOf(first + ":" + tail) == first
    ensures ExtractAction(first + ":" + tail) == if |parts| >= 3 then parts[2] else "unknown"
  {
    hide Split;
    assert (first + ":" + tail)[|first|] == ':';
  }

  lemma ThreeSegments(first: string, second: string, third: string)
    requires ':' !in first && ':' !in second && ':' !in third
    ensures Split(first + ":" + (second + ":" + third), ':') == [first, second, third]
  {
    hide Split;
    SplitPair(second, ':', third);
    SplitFirst(first, ':', second + ":" + third);
  }

  lemma MoreSegments(first: string, second: string, third: string, rest: string)
    requires ':' !in first && ':' !in second && ':' !in third
    ensures Split(first + ":" + (second + ":" + (third + ":" + rest)), ':') == [first, second, third] + Split(rest, ':')
  {
    hide Split;
    SplitFirst(third, ':', rest);
    SplitFirst(second, ':', third + ":" + rest);
    SplitFirst(first, ':', second + ":" + (third + ":" + rest));
    assert [first] + ([second] + ([third] + Split(rest, ':'))) == [first, second, third] + Split(rest, ':');
  }

  /** The registered action stands in the key behind the marker, from `j` on. */
  ghost predicate Spelled(key: string, action: string, j: int)
  {
    OccursAt("EXPTRIGGER:" + action + ":", key, j)
  }

  lemma PrefixIs(action: string)
    ensures Prefix(action) == "EXPTRIGGER:" + action + ":"
  {
    Regroup("EXPTRIGGER:", action, ":");
    assert MARKER + ":" == "EXPTRIGGER:";
    Regroup(MARKER, ":", action + ":");
  }

  lemma FoundIff(entries: seq<Entry>, k: nat, key: string)
    requires k < |entries|
    ensures Found(entries, k, key) <==> exists j :: Spelled(key, entries[k].action, j)
    ensures Found(entries, k, key) ==>
      exists j :: Spelled(key, entries[k].action, j) &&
                  After(key, Prefix(entries[k].action)) == Some(key[j + |entries[k].action| + 12..])
  {
    hide After, Prefix, OccursAt;
    var action := entries[k].action;
    PrefixIs(action);
    SearchIff(key, "EXPTRIGGER:" + action + ":");
    assert |"EXPTRIGGER:" + action + ":"| == |action| + 12;
    assert forall j :: Spelled(key, action, j) <==> OccursAt("EXPTRIGGER:" + action + ":", key, j);
  }

  lemma SearchIff(key: string, needle: string)
    ensures After(key, needle).Some? <==> exists j :: OccursAt(needle, key, j)
    ensures After(key, needle).Some? ==>
      exists j :: OccursAt(needle, key, j) && After(key, needle) == Some(key[j + |needle|..])
  {
    FoundIffContained(key, needle);
    hide After;
    if i :| OccursAt(needle, key, i) {
      AfterIsFirstOccurrence(key, needle, i);
    }
  }

  /** An event is reported exactly for a message with data in which some registered action is spelled; the
      handler is that of a longest such action, the identifier what follows one of its occurrences. */
  lemma ParseIff(entries: seq<Entry>, message: Option<Message>)
    ensures Parse(entries, message).Some? <==>
      && message.Some? && message.value.kind == "message" && message.value.data != ""
      && exists k, j :: 0 <= k < |entries| && Spelled(message.value.data, entries[k].action, j)
    ensures Parse(entries, message).Some? ==>
      var (key, event) := (message.value.data, Parse(entries, message).value);
      && event.key == key && event.action == ExtractAction(key)
      && exists k, j :: 0 <= k < |entries| && Spelled(key, entries[k].action, j) &&
           event.handler == entries[k].handler && event.ident == key[j + |entries[k].action| + 12..] &&
           forall m, i :: 0 <= m < |entries| && Spelled(key, entries[m].action, i)
             ==> |entries[m].action| <= |entries[k].action|
  {
    if message.Some? && message.value.kind == "message" && message.value.data != "" {
      ResolveIff(entries, message.value.data);
    }
    hide Resolve, Spelled, ExtractAction;
  }

  lemma ResolveIff(entries: seq<Entry>, key: string)
    ensures Resolve(entries, key).Some? <==> exists k, j :: 0 <= k < |entries| && Spelled(key, entries[k].action, j)
    ensures Resolve(entries, key).Some? ==>
      var found := Resolve(entries, key).value;
      exists k, j :: 0 <= k < |entries| && Spelled(key, entries[k].action, j) &&
        found.handler == entries[k].handler && found.ident == key[j + |entries[k].action| + 12..] &&
        forall m, i :: 0 <= m < |entries| && Spelled(key, entries[m].action, i)
          ==> |entries[m].action| <= |entries[k].action|
  {
    forall k | 0 <= k < |entries|
      ensures Found(entries, k, key) <==> exists j :: Spelled(key, entries[k].action, j)
      ensures Found(entries, k, key) ==> BestMatch(entries, key).Some?
    {
      FoundIff(entries, k, key);
      BestMatchIs(entries, key, k);
    }
    var best := BestMatch(entries, key);
    if best.Some? {
      FoundIff(entries, best.value, key);
      BestMatchIs(entries, key, best.value);
    }
    hide After, BestMatch, Spelled, Prefix, Found;
  }

  // ---------------------------------------------------------------------------
  // Round trip, with registered actions that have no colon.
  // ---------------------------------------------------------------------------

  ghost predicate ColonFree(entries: seq<Entry>)
  {
    forall k :: 0 <= k < |entries| ==> ':' !in entries[k].action
  }

  /** Another action whose prefix shows up in the key: across the inbox, across the action, or inside the
      identifier. */
  ghost predicate Impostor(other: string, inbox: string, action: string, ident: string)
  {
    || (other == MARKER && EndsWith(inbox, MARKER))
    || (EndsWith(action, MARKER) && other + ":" <= ident)
    || Contains(ident, Prefix(other))
  }

  lemma SegmentPrefix(first: string, rest: string, other: string)
    requires ':' !in first && ':' !in other
    ensures other + ":" <= first + ":" + rest <==> other == first
  {
    AlignAtColon(other, "", first, rest);
    assert other + ":" + "" == other + ":";
  }

  /** An action is found in a key exactly when it is the key's own, or an impostor. */
  lemma FoundInKeyIff(inbox: string, action: string, ident: string, other: string)
    requires ':' !in inbox && ':' !in action && ':' !in other
    ensures After(Key(inbox, action, ident), Prefix(other)).Some?
            <==> other == action || Impostor(other, inbox, action, ident)
  {
    var tail, rest := Tail(action, ident), other + ":";
    AfterInKey(inbox, tail, rest);
    AfterPeel(action, ident, rest);
    SegmentPrefix(MARKER, tail, other);
    SegmentPrefix(action, ident, other);
    FoundIffContained(ident, Prefix(other));
  }

  /** The key's own identifier follows its own prefix, unless inbox and action both spell the marker. */
  lemma OwnIdentifier(inbox: string, action: string, ident: string)
    requires ':' !in inbox && ':' !in action
    ensures After(Key(inbox, action, ident), Prefix(action))
            == Some(if EndsWith(inbox, MARKER) && action == MARKER then Tail(action, ident) else ident)
  {
    var tail, rest := Tail(action, ident), action + ":";
    AfterInKey(inbox, tail, rest);
    SegmentPrefix(MARKER, tail, action);
    SegmentPrefix(action, ident, action);
    assert tail[|rest|..] == ident;
    assert (MARKER + ":" + tail)[|MARKER| + 1..] == tail;
  }

  /** What follows an impostor's prefix is longer or shorter than the identifier, never the identifier. */
  lemma ImpostorsIdentifier(inbox: string, action: string, ident: string, other: string)
    requires ':' !in inbox && ':' !in action && ':' !in other && other != action
    ensures After(Key(inbox, action, ident), Prefix(other)) != Some(ident)
  {
    var tail, rest := Tail(action, ident), other + ":";
    AfterInKey(inbox, tail, rest);
    AfterPeel(action, ident, rest);
    SegmentPrefix(MARKER, tail, other);
    SegmentPrefix(action, ident, other);
    assert other == MARKER ==> (MARKER + ":" + tail)[|rest|..] == tail;
    AfterIsShorter(ident, Prefix(other));
  }

  lemma {:induction false} AfterIsShorter(s: string, needle: string)
    requires needle != ""
    ensures After(s, needle).Some? ==> |After(s, needle).value| < |s|
  {
    if !(needle <= s) && s != "" {
      AfterIsShorter(s[1..], needle);
    }
  }

  /** No registered impostor is preferred over entry `i`, and the key does not spell the marker twice. */
  ghost predicate Clear(entries: seq<Entry>, i: nat, inbox: string, ident: string)
    requires i < |entries|
  {
    && !(EndsWith(inbox, MARKER) && entries[i].action == MARKER)
    && forall k :: 0 <= k < |entries| && k != i && Impostor(entries[k].action, inbox, entries[i].action, ident)
         ==> !Beats(entries, k, i)
  }

  /** Resolving the key of a registered action gives its handler and the identifier back exactly when the
      key is clear. */
  lemma RoundTripIff(entries: seq<Entry>, i: nat, inbox: string, ident: string)
    requires Distinct(entries) && ColonFree(entries) && i < |entries| && ':' !in inbox
    ensures Resolve(entries, Key(inbox, entries[i].action, ident)) == Some(Resolved(entries[i].handler, ident))
            <==> Clear(entries, i, inbox, ident)
  {
    var action := entries[i].action;
    var key := Key(inbox, action, ident);
    forall k | 0 <= k < |entries|
      ensures Found(entries, k, key) <==> k == i || Impostor(entries[k].action, inbox, action, ident)
      ensures k != i ==> After(key, Prefix(entries[k].action)) != Some(ident)
    {
      FoundInKeyIff(inbox, action, ident, entries[k].action);
      if k != i {
        ImpostorsIdentifier(inbox, action, ident, entries[k].action);
      }
    }
    OwnIdentifier(inbox, action, ident);
    BestMatchIs(entries, key, i);
    hide After, BestMatch, Impostor, Key, Beats;
    assert |Tail(action, ident)| != |ident|;
  }

  /** With an inbox that does not end in the marker, an identifier free of `EXPTRIGGER:`, and an action
      that does not end in the marker or an identifier without colons, a message parses back to exactly
      what its key was made of. */
  lemma ParseReadsKeyBack(entries: seq<Entry>, i: nat, inbox: string, ident: string)
    requires Distinct(entries) && ColonFree(entries) && i < |entries|
    requires ':' !in inbox && !EndsWith(inbox, MARKER) && !Contains(ident, MARKER + ":")
    requires EndsWith(entries[i].action, MARKER) ==> ':' !in ident
    ensures var action := entries[i].action;
            var key := Key(inbox, action, ident);
            Parse(entries, Some(Message("message", key)))
            == Some(ExpiryEvent(key, entries[i].handler, ident, action)) &&
            InboxOf(key) == inbox
  {
    var action := entries[i].action;
    SegmentsReadBack(inbox, action, ident);
    forall k | 0 <= k < |entries|
      ensures !Impostor(entries[k].action, inbox, action, ident)
    {
      var other := entries[k].action;
      if other + ":" <= ident {
        assert ident[|other|] == ':';
      }
      NeedsMarker(ident, other);
    }
    RoundTripIff(entries, i, inbox, ident);
    hide Resolve, Split;
    assert Key(inbox, action, ident) != "";
  }

  lemma NeedsMarker(s: string, action: string)
    ensures Contains(s, Prefix(action)) ==> Contains(s, MARKER + ":")
  {
    if i :| OccursAt(Prefix(action), s, i) {
      assert s[i..i + |MARKER| + 1] == Prefix(action)[..|MARKER| + 1] == MARKER + ":";
      assert OccursAt(MARKER + ":", s, i);
    }
  }

  /** The last condition is needed: an action ending in the marker lets the identifier pose as a key. */
  lemma MarkerInActionWitness()
    ensures var entries := [Entry("myEXPTRIGGER", 0), Entry("payment_reminder", 1)];
            Resolve(entries, Key("acme", "myEXPTRIGGER", "payment_reminder:42"))
            != Some(Resolved(0, "payment_reminder:42"))
  {
    var entries := [Entry("myEXPTRIGGER", 0), Entry("payment_reminder", 1)];
    var action, ident := entries[0].action, "payment_reminder:42";
    assert action[|action| - |MARKER|..] == MARKER;
    assert entries[1].action + ":" <= ident;
    ImpostorWins(entries, 0, 1, "acme", ident);
  }

  lemma ImpostorWins(entries: seq<Entry>, i: nat, k: nat, inbox: string, ident: string)
    requires Distinct(entries) && ColonFree(entries) && i < |entries| && ':' !in inbox
    requires k < |entries| && k != i && Beats(entries, k, i)
    requires EndsWith(entries[i].action, MARKER) && entries[k].action + ":" <= ident
    ensures Resolve(entries, Key(inbox, entries[i].action, ident)) != Some(Resolved(entries[i].handler, ident))
  {
    hide Resolve, Key;
    RoundTripIff(entries, i, inbox, ident);
    assert Impostor(entries[k].action, inbox, entries[i].action, ident);
  }

  // ---------------------------------------------------------------------------
  // Hierarchical registrations, and keys from the key factory.
  // ---------------------------------------------------------------------------

  /** For any registrations and anything behind the marker that does not repeat it, the entry chosen is the
      longest one that starts the tail, and the identifier is all that follows it. */
  lemma ResolvesMostSpecific(entries: seq<Entry>, inbox: string, tail: string)
    requires ':' !in inbox && !EndsWith(inbox, MARKER) && !Contains(tail, MARKER + ":")
    ensures match Resolve(entries, KeyOf(inbox, tail))
            case None => forall k :: 0 <= k < |entries| ==> !(entries[k].action + ":" <= tail)
            case Some(found) =>
              exists i :: 0 <= i < |entries| && found.handler == entries[i].handler &&
                          tail == entries[i].action + ":" + found.ident &&
                          forall k :: 0 <= k < |entries| && entries[k].action + ":" <= tail
                            ==> |entries[k].action| <= |entries[i].action|
  {
    var key := KeyOf(inbox, tail);
    forall k | 0 <= k < |entries|
      ensures Found(entries, k, key) <==> entries[k].action + ":" <= tail
      ensures Found(entries, k, key)
              ==> tail == entries[k].action + ":" + After(key, Prefix(entries[k].action)).value
    {
      AfterInKey(inbox, tail, entries[k].action + ":");
      NeedsMarker(tail, entries[k].action);
      FoundIffContained(tail, Prefix(entries[k].action));
    }
    hide After, BestMatch;
    var best := BestMatch(entries, key);
    if best.Some? {
      BestMatchIs(entries, key, best.value);
    } else {
      forall k | 0 <= k < |entries|
        ensures !(entries[k].action + ":" <= tail)
      {
        BestMatchIs(entries, key, k);
      }
    }
  }

  /** The key factory replaces the colons of action and identifier. */
  function Trigger(inbox: string, action: string, ident: string): string
  {
    Key(inbox, Replace(action, ':', '_'), Replace(ident, ':', '_'))
  }

  /** A key of the factory has four segments. */
  lemma TriggerSegments(inbox: string, action: string, ident: string)
    requires ':' !in inbox
    ensures Split(Trigger(inbox, action, ident), ':')
         == [inbox, "EXPTRIGGER", Replace(action, ':', '_'), Replace(ident, ':', '_')]
  {
    var (first, safe) := (Replace(action, ':', '_'), Replace(ident, ':', '_'));
    assert ':' !in first && ':' !in safe && ':' !in MARKER;
    hide Split, Replace;
    MoreSegments(inbox, MARKER, first, safe);
    SplitNone(safe, ':');
  }

  /** Keys from the factory always parse back to the action and identifier it wrote, whatever was asked for. */
  lemma FactoryKeysReadBack(entries: seq<Entry>, i: nat, inbox: string, action: string, ident: string)
    requires Distinct(entries) && ColonFree(entries) && i < |entries|
    requires entries[i].action == Replace(action, ':', '_') && ':' !in inbox && !EndsWith(inbox, MARKER)
    ensures var key := Trigger(inbox, action, ident);
            Parse(entries, Some(Message("message", key)))
            == Some(ExpiryEvent(key, entries[i].handler, Replace(ident, ':', '_'), Replace(action, ':', '_')))
  {
    var safe := Replace(ident, ':', '_');
    assert (MARKER + ":")[|MARKER|] == ':';
    OccurrenceBrings(safe, MARKER + ":", ':');
    ParseReadsKeyBack(entries, i, inbox, safe);
  }

  /** A hierarchical registration is never reached by a key from the factory. */
  lemma FactoryKeysMissHierarchies(entries: seq<Entry>, k: nat, inbox: string, action: string, ident: string)
    requires k < |entries| && ':' in entries[k].action && ':' !in inbox && !EndsWith(inbox, MARKER)
    ensures !Found(entries, k, Trigger(inbox, action, ident))
  {
    var first, safe := Replace(action, ':', '_'), Replace(ident, ':', '_');
    assert ':' !in first && ':' !in safe;
    assert Trigger(inbox, action, ident) == KeyOf(inbox, Tail(first, safe));
    hide *;
    NotInKey(inbox, first, safe, entries[k].action);
    NotFound(entries, k, Trigger(inbox, action, ident));
  }

  lemma NotFound(entries: seq<Entry>, k: nat, key: string)
    requires k < |entries| && After(key, MARKER + ":" + (entries[k].action + ":")) == None
    ensures !Found(entries, k, key)
  {
    hide After;
  }

  lemma NotInKey(inbox: string, first: string, second: string, action: string)
    requires ':' !in inbox && ':' !in first && ':' !in second && ':' in action && !EndsWith(inbox, MARKER)
    ensures After(KeyOf(inbox, Tail(first, second)), MARKER + ":" + (action + ":")) == None
  {
    var rest := action + ":";
    assert rest[|rest| - 1] == ':' && (MARKER + ":" + rest)[|MARKER|] == ':';
    AfterInKey(inbox, Tail(first, second), rest);
    AfterPeel(first, second, rest);
    FoundIffContained(second, MARKER + ":" + rest);
    TwoColons(first, second, action);
    hide After, Contains, EndsWith, KeyOf;
    OccurrenceBrings(second, rest, ':');
    OccurrenceBrings(second, MARKER + ":" + rest, ':');
  }

  lemma TwoColons(first: string, second: string, action: string)
    requires ':' !in first && ':' !in second && ':' in action
    ensures !(action + ":" <= first + ":" + second)
  {
    var i := IndexOf(action, ':');
    NoneBeforeIndexOf(action, ':');
    var rest := action[i + 1..] + ":";
    assert action + ":" == action[..i] + ":" + rest;
    AlignAtColon(action[..i], rest, first, second);
    assert rest[|rest| - 1] == ':';
    OccurrenceBrings(second, rest, ':');
  }
}

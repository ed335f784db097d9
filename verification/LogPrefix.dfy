/** The context prefix of log messages: printed by the context logger, taken off again by the JSON formatter. */
module LogPrefix {
  import opened Outcomes
  import opened Text

  const ABSENT := "---"

  /** The id in force: the request's if it has one, else the logger's own, else the placeholder. */
  function InForce(context: Option<string>, own: Option<string>): string
  {
    if context.Some? && context.value != "" then context.value
    else if own.Some? && own.value != "" then own.value
    else ABSENT
  }

  /** What the reader should get: no id for an empty one or the placeholder. */
  function Shown(id: string): Option<string>
  {
    if id == "" || id == ABSENT then None else Some(id)
  }

  function Tagged(tag: char, id: string): string
  {
    "[" + [tag] + ":" + id + "]"
  }

  function FormatMessage(inbox: string, user: string, message: string): string
  {
    match (Shown(inbox), Shown(user))
    case (Some(i), Some(u)) => Tagged('T', i) + Tagged('U', u) + " " + message
    case (Some(i), None) => Tagged('T', i) + " " + message
    case (None, Some(u)) => Tagged('U', u) + " " + message
    case (None, None) => message
  }

  /** The printed line in the four cases. */
  lemma PrintedForms(inbox: string, user: string, message: string)
    requires inbox !in {"", "---"} && user !in {"", "---"}
    ensures FormatMessage(inbox, user, message) == "[T:" + inbox + "][U:" + user + "] " + message
    ensures forall absent :: absent in {"", "---"} ==>
      && FormatMessage(inbox, absent, message) == "[T:" + inbox + "] " + message
      && FormatMessage(absent, user, message) == "[U:" + user + "] " + message
      && FormatMessage(absent, absent, message) == message
  {
    PrintedTag('T', inbox);
    PrintedTag('U', user);
    hide Tagged;
    Regroup("[T:" + inbox, "]", " ");
    Regroup("[U:" + user, "]", " ");
    assert "]" + "[U:" == "][U:" && "]" + " " == "] ";
    assert ("[T:" + inbox + "]") + ("[U:" + user + "]") + " " == "[T:" + inbox + "][U:" + user + "] ";
  }

  lemma PrintedTag(tag: char, id: string)
    ensures Tagged(tag, id) == ("[" + [tag] + ":") + id + "]"
    ensures "[" + ['T'] + ":" == "[T:" && "[" + ['U'] + ":" == "[U:"
  {
  }

  datatype Bracketed = Bracketed(id: Option<string>, rest: string)

  predicate Opens(tag: char, s: string)
  {
    "[" + [tag] + ":" <= s && ']' in s[3..]
  }

  /** One optional group of the pattern: `[tag:` up to the first closing bracket. */
  function TakeBracket(tag: char, s: string): (b: Bracketed)
    ensures |b.rest| <= |s| && (b.id.Some? <==> Opens(tag, s))
    ensures b.id.Some? ==> |b.rest| < |s|
    ensures b.id.None? ==> b.rest == s
  {
    if !Opens(tag, s) then Bracketed(None, s)
    else
      var end := IndexOf(s[3..], ']');
      Bracketed(Some(s[3..][..end]), s[3..][end + 1..])
  }

  datatype Line = Line(inbox: Option<string>, user: Option<string>, message: string)

  function NonEmpty(id: Option<string>): Option<string>
  {
    if id == Some("") then None else id
  }

  /** The prefix split: both groups, then any white space, then the rest. */
  function ParseMessage(raw: string): Line
  {
    var inbox := TakeBracket('T', raw);
    var user := TakeBracket('U', inbox.rest);
    Line(NonEmpty(inbox.id), NonEmpty(user.id), StripLeft(user.rest))
  }

  // ---------------------------------------------------------------------------
  // Round trip.
  // ---------------------------------------------------------------------------

  /** A printed bracket is taken off whole exactly when the id in it does not close it early. */
  lemma TakeTagged(tag: char, id: string, rest: string)
    ensures TakeBracket(tag, Tagged(tag, id) + rest).id.Some?
    ensures ']' !in id ==> TakeBracket(tag, Tagged(tag, id) + rest) == Bracketed(Some(id), rest)
    ensures ']' in id ==> TakeBracket(tag, Tagged(tag, id) + rest).id != Some(id)
  {
    var s := Tagged(tag, id) + rest;
    var open := "[" + [tag] + ":";
    var inner := id + "]" + rest;
    assert s == open + inner;
    assert s[..3] == open && s[3..] == inner;
    assert inner[|id|] == ']';
    if ']' !in id {
      IndexOfAfter(id, ']', rest);
      assert inner[..|id|] == id && inner[|id| + 1..] == rest;
    } else {
      var k :| 0 <= k < |id| && id[k] == ']';
      assert inner[k] == ']';
      IndexOfIsFirst(inner, ']', k);
    }
  }

  lemma NoBracketTaken(tag: char, s: string)
    requires s == "" || s[0] != '[' || (|s| > 1 && s[1] != tag)
    ensures TakeBracket(tag, s) == Bracketed(None, s)
  {
    var open := "[" + [tag] + ":";
    assert open[0] == '[' && open[1] == tag;
  }

  predicate StartsWithSpace(s: string)
  {
    s != "" && IsWhitespace(s[0])
  }

  lemma StripAfterSpace(message: string)
    ensures StripLeft(" " + message) == StripLeft(message)
  {
    var s := " " + message;
    assert s[0] == ' ' && IsWhitespace(s[0]);
    assert StripLeft(s) == StripLeft(s[1..]);
    hide StripLeft;
    assert s[1..] == message;
  }

  lemma StripKeepsIff(message: string)
    ensures StripLeft(message) == message <==> !StartsWithSpace(message)
  {
    if StartsWithSpace(message) {
      assert |StripLeft(message[1..])| <= |message| - 1;
    }
  }

  /** Ids that do not close their bracket, a message that does not start with white space and, without
      any id, does not look like a prefix itself. */
  predicate Recoverable(inbox: string, user: string, message: string)
  {
    && (Shown(inbox).Some? ==> ']' !in inbox)
    && (Shown(user).Some? ==> ']' !in user)
    && !StartsWithSpace(message)
    && (Shown(inbox).None? && Shown(user).None? ==> !Opens('T', message) && !Opens('U', message))
  }

  lemma BothShown(inbox: string, user: string, message: string)
    requires Shown(inbox) == Some(inbox) && Shown(user) == Some(user)
    ensures ParseMessage(FormatMessage(inbox, user, message)) == Line(Some(inbox), Some(user), message)
            <==> Recoverable(inbox, user, message)
  {
    var tail := " " + message;
    var first, second := Tagged('T', inbox), Tagged('U', user);
    var raw := FormatMessage(inbox, user, message);
    Regroup(first, second, tail);
    Regroup(first + second, " ", message);
    TakeTagged('T', inbox, second + tail);
    AfterInbox(TakeBracket('T', raw).id, user, message);
    hide TakeBracket, Tagged, StripLeft, FormatMessage;
  }

  lemma AfterInbox(inbox: Option<string>, user: string, message: string)
    requires user != ""
    ensures var b := TakeBracket('U', Tagged('U', user) + (" " + message));
            Line(NonEmpty(inbox), NonEmpty(b.id), StripLeft(b.rest)) == Line(NonEmpty(inbox), Some(user), message)
            <==> ']' !in user && !StartsWithSpace(message)
  {
    TakeTagged('U', user, " " + message);
    StripAfterSpace(message);
    StripKeepsIff(message);
    hide TakeBracket, Tagged, StripLeft, StartsWithSpace;
  }

  lemma InboxShown(inbox: string, user: string, message: string)
    requires Shown(inbox) == Some(inbox) && Shown(user) == None
    ensures ParseMessage(FormatMessage(inbox, user, message)) == Line(Some(inbox), None, message)
            <==> Recoverable(inbox, user, message)
  {
    var tail := " " + message;
    var raw := FormatMessage(inbox, user, message);
    Regroup(Tagged('T', inbox), " ", message);
    TakeTagged('T', inbox, tail);
    NoBracketTaken('U', tail);
    StripAfterSpace(message);
    StripKeepsIff(message);
    hide TakeBracket, Tagged, StripLeft, FormatMessage;
  }

  lemma UserShown(inbox: string, user: string, message: string)
    requires Shown(inbox) == None && Shown(user) == Some(user)
    ensures ParseMessage(FormatMessage(inbox, user, message)) == Line(None, Some(user), message)
            <==> Recoverable(inbox, user, message)
  {
    var tail := " " + message;
    var raw := FormatMessage(inbox, user, message);
    Regroup(Tagged('U', user), " ", message);
    assert raw == Tagged('U', user) + tail;
    assert raw[0] == Tagged('U', user)[0] == '[' && raw[1] == Tagged('U', user)[1] == 'U';
    hide FormatMessage, Tagged, StripLeft;
    NoBracketTaken('T', raw);
    AfterInbox(None, user, message);
    hide TakeBracket;
  }

  lemma NeitherShown(inbox: string, user: string, message: string)
    requires Shown(inbox) == None && Shown(user) == None
    ensures ParseMessage(FormatMessage(inbox, user, message)) == Line(None, None, message)
            <==> Recoverable(inbox, user, message)
  {
    StripAfterSpace(message);
    hide TakeBracket, Tagged, StripLeft, Opens;
  }

  /** The formatter reads back exactly the ids and the message that were logged, if and only if the line
      is recoverable. */
  lemma PrefixRoundTripIff(inbox: string, user: string, message: string)
    ensures ParseMessage(FormatMessage(inbox, user, message)) == Line(Shown(inbox), Shown(user), message)
            <==> Recoverable(inbox, user, message)
  {
    hide ParseMessage, FormatMessage, Recoverable;
    match (Shown(inbox), Shown(user)) {
      case (Some(_), Some(_)) => BothShown(inbox, user, message);
      case (Some(_), None) => InboxShown(inbox, user, message);
      case (None, Some(_)) => UserShown(inbox, user, message);
      case (None, None) => NeitherShown(inbox, user, message);
    }
  }

  // ---------------------------------------------------------------------------
  // The JSON formatter.
  // ---------------------------------------------------------------------------

  class LogRecord {
    const stamp: string
    const level: string
    const name: string
    const message: string
    var excInfo: Option<string>
    var excText: Option<string>

    constructor (stamp: string, level: string, name: string, message: string, excInfo: Option<string>,
                 excText: Option<string>)
      ensures this.stamp == stamp && this.level == level && this.name == name && this.message == message
      ensures this.excInfo == excInfo && this.excText == excText
    {
      this.stamp, this.level, this.name, this.message := stamp, level, name, message;
      this.excInfo, this.excText := excInfo, excText;
    }
  }

  /** Line feeds written as a backslash and an `n`, so that the entry stays on one line. */
  function OneLine(s: string): (r: string)
    ensures '\n' !in r
  {
    if s == "" then "" else (if s[0] == '\n' then "\\n" else [s[0]]) + OneLine(s[1..])
  }

  /** Escaping goes character by character, and a line feed becomes a backslash and an `n`. */
  lemma {:induction false} OneLineConcat(a: string, b: string, c: char)
    ensures OneLine(a + b) == OneLine(a) + OneLine(b)
    ensures OneLine([c]) == if c == '\n' then ['\\', 'n'] else [c]
  {
    assert [c][1..] == "" && OneLine("") == "";
    if a == "" {
      assert a + b == b;
    } else {
      assert (a + b)[1..] == a[1..] + b;
      OneLineConcat(a[1..], b, c);
    }
  }

  /** The traceback of an entry: the fresh one, or else the cached text. */
  function Traceback(excInfo: Option<string>, excText: Option<string>): Option<string>
  {
    if excInfo.Some? then Some(OneLine(excInfo.value))
    else if excText.Some? && excText.value != "" then Some(OneLine(excText.value))
    else None
  }

  function With(fields: map<string, string>, key: string, value: Option<string>): map<string, string>
  {
    if value.Some? then fields[key := value.value] else fields
  }

  /** The whole entry, as a function of the line read back. */
  function Fields(stamp: string, level: string, name: string, line: Line, requestId: Option<string>,
                  traceback: Option<string>): map<string, string>
  {
    var base := map["ts" := stamp, "level" := level, "logger" := name, "msg" := line.message];
    With(With(With(With(base, "inbox", line.inbox), "user", line.user), "request_id", requestId), "exc", traceback)
  }

  /** Each field of an entry by itself: a fresh traceback wins over the cached text. */
  ghost predicate EntryShows(entry: map<string, string>, stamp: string, level: string, name: string, line: Line,
                             requestId: Option<string>, excInfo: Option<string>, excText: Option<string>)
  {
    && Lookup(entry, "ts") == Some(stamp) && Lookup(entry, "level") == Some(level)
    && Lookup(entry, "logger") == Some(name) && Lookup(entry, "msg") == Some(line.message)
    && Lookup(entry, "inbox") == line.inbox && Lookup(entry, "user") == line.user
    && Lookup(entry, "request_id") == (if requestId == Some("") then None else requestId)
    && Lookup(entry, "exc")
       == match excInfo
          case Some(info) => Some(OneLine(info))
          case None => if excText in {None, Some("")} then None else Some(OneLine(excText.value))
  }

  lemma FieldsShow(stamp: string, level: string, name: string, line: Line, requestId: Option<string>,
                   excInfo: Option<string>, excText: Option<string>)
    ensures EntryShows(Fields(stamp, level, name, line, NonEmpty(requestId), Traceback(excInfo, excText)), stamp,
                       level, name, line, requestId, excInfo, excText)
  {
    hide Fields, OneLine;
    var (id, traceback) := (NonEmpty(requestId), Traceback(excInfo, excText));
    assert "msg"[0] == 'm' && "inbox"[0] == 'i' && "user"[0] == 'u' && "exc"[0] == 'e' && "request_id"[0] == 'r';
    assert "ts"[0] == 't' && "level"[..2] == "le" && "logger"[..2] == "lo";
    LookupField(stamp, level, name, line, id, traceback, "ts");
    LookupField(stamp, level, name, line, id, traceback, "level");
    LookupField(stamp, level, name, line, id, traceback, "logger");
    LookupField(stamp, level, name, line, id, traceback, "msg");
    LookupField(stamp, level, name, line, id, traceback, "inbox");
    LookupField(stamp, level, name, line, id, traceback, "user");
    LookupField(stamp, level, name, line, id, traceback, "request_id");
    LookupField(stamp, level, name, line, id, traceback, "exc");
  }

  /** The formatter consumes the traceback it writes, so that the base class does not append it again. */
  method Format(record: LogRecord, requestId: Option<string>) returns (obj: map<string, string>)
    modifies record
    ensures obj == Fields(record.stamp, record.level, record.name, ParseMessage(record.message), NonEmpty(requestId),
                          Traceback(old(record.excInfo), old(record.excText)))
    ensures EntryShows(obj, record.stamp, record.level, record.name, ParseMessage(record.message), requestId,
                       old(record.excInfo), old(record.excText))
    ensures record.excInfo == None
    ensures record.excText == if old(record.excInfo).None? && old(record.excText) != Some("") then None
                              else old(record.excText)
  {
    hide ParseMessage, OneLine, EntryShows;
    var line := ParseMessage(record.message);
    FieldsShow(record.stamp, record.level, record.name, line, requestId, record.excInfo, record.excText);
    obj := map["ts" := record.stamp, "level" := record.level, "logger" := record.name, "msg" := line.message];
    if line.inbox.Some? {
      obj := obj["inbox" := line.inbox.value];
    }
    if line.user.Some? {
      obj := obj["user" := line.user.value];
    }
    if requestId.Some? && requestId.value != "" {
      obj := obj["request_id" := requestId.value];
    }
    if record.excInfo.Some? {
      obj := obj["exc" := OneLine(record.excInfo.value)];
      record.excInfo := None;
    } else if record.excText.Some? && record.excText.value != "" {
      obj := obj["exc" := OneLine(record.excText.value)];
      record.excText := None;
    }
  }

  function Lookup(fields: map<string, string>, key: string): Option<string>
  {
    if key in fields then Some(fields[key]) else None
  }

  lemma LookupWith(fields: map<string, string>, key: string, value: Option<string>, other: string)
    ensures Lookup(With(fields, key, value), other)
            == if key == other && value.Some? then value else Lookup(fields, other)
  {
  }

  lemma LookupField(stamp: string, level: string, name: string, line: Line, requestId: Option<string>,
                    traceback: Option<string>, key: string)
    ensures Lookup(Fields(stamp, level, name, line, requestId, traceback), key)
            == if key == "exc" && traceback.Some? then traceback
               else if key == "request_id" && requestId.Some? then requestId
               else if key == "user" && line.user.Some? then line.user
               else if key == "inbox" && line.inbox.Some? then line.inbox
               else Lookup(map["ts" := stamp, "level" := level, "logger" := name, "msg" := line.message], key)
  {
    var f0 := map["ts" := stamp, "level" := level, "logger" := name, "msg" := line.message];
    var f1 := With(f0, "inbox", line.inbox);
    var f2 := With(f1, "user", line.user);
    var f3 := With(f2, "request_id", requestId);
    LookupWith(f0, "inbox", line.inbox, key);
    LookupWith(f1, "user", line.user, key);
    LookupWith(f2, "request_id", requestId, key);
    LookupWith(f3, "exc", traceback, key);
    hide Lookup, With;
  }

  /** End to end, from the ids of the request and of the logger: for a recoverable line the entry's message,
      inbox and user fields are exactly what is in force, and absent ids leave no field behind. */
  lemma EntryShowsContext(requestInbox: Option<string>, ownInbox: Option<string>, requestUser: Option<string>,
          ownUser: Option<string>, message: string, stamp: string, level: string, name: string,
          requestId: Option<string>, traceback: Option<string>)
    requires Recoverable(InForce(requestInbox, ownInbox), InForce(requestUser, ownUser), message)
    ensures var (inbox, user) := (InForce(requestInbox, ownInbox), InForce(requestUser, ownUser));
            var line := ParseMessage(FormatMessage(inbox, user, message));
            var entry := Fields(stamp, level, name, line, requestId, traceback);
            && Lookup(entry, "msg") == Some(message)
            && Lookup(entry, "inbox") == Visible(requestInbox, ownInbox)
            && Lookup(entry, "user") == Visible(requestUser, ownUser)
  {
    var (inbox, user) := (InForce(requestInbox, ownInbox), InForce(requestUser, ownUser));
    PrefixRoundTripIff(inbox, user, message);
    InForceShows(requestInbox, ownInbox);
    InForceShows(requestUser, ownUser);
    hide ParseMessage, FormatMessage, Fields, Shown, Recoverable, InForce, Visible;
    var line := ParseMessage(FormatMessage(inbox, user, message));
    assert "msg"[0] == 'm' && "inbox"[0] == 'i' && "user"[0] == 'u' && "exc"[0] == 'e' && "request_id"[0] == 'r';
    assert "ts"[0] == 't' && "level"[0] == 'l' && "logger"[0] == 'l';
    LookupField(stamp, level, name, line, requestId, traceback, "msg");
    LookupField(stamp, level, name, line, requestId, traceback, "inbox");
    LookupField(stamp, level, name, line, requestId, traceback, "user");
  }

  /** Of the two sources of an id the request's wins unless it is empty, and the placeholder never shows. */
  ghost function Visible(request: Option<string>, own: Option<string>): Option<string>
  {
    var chosen := if request in {None, Some("")} then own else request;
    if chosen in {None, Some(""), Some("---")} then None else chosen
  }

  lemma InForceShows(request: Option<string>, own: Option<string>)
    ensures Shown(InForce(request, own)) == Visible(request, own)
  {
  }
}

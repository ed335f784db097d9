/** The event-stream wire format: the formatter and the consumer loop that use it, against the
    parser of sections 9.2.5 and 9.2.6 of the WHATWG HTML Living Standard. */
module SseFraming {
  import opened Outcomes
  import opened Text
  import EventHub

  // ---------------------------------------------------------------------------
  // Line breaks: those of the wire format, and the wider set Python's `splitlines` cuts at.
  // ---------------------------------------------------------------------------

  predicate EndsLine(c: char)
  {
    c == '\n' || c == '\r'
  }

  predicate PythonBreak(c: char)
  {
    var n := c as int;
    10 <= n <= 13 || 28 <= n <= 30 || n == 0x85 || n == 0x2028 || n == 0x2029
  }

  predicate Breaks(c: char, wide: bool)
  {
    if wide then PythonBreak(c) else EndsLine(c)
  }

  predicate Unbroken(s: string, wide: bool)
  {
    forall k :: 0 <= k < |s| ==> !Breaks(s[k], wide)
  }

  function FirstBreak(s: string, wide: bool): (i: nat)
    ensures i <= |s| && Unbroken(s[..i], wide)
    ensures i < |s| ==> Breaks(s[i], wide)
  {
    if s == "" || Breaks(s[0], wide) then 0 else 1 + FirstBreak(s[1..], wide)
  }

  lemma {:induction false} FirstBreakIs(left: string, c: char, right: string, wide: bool)
    requires Unbroken(left, wide) && Breaks(c, wide)
    ensures FirstBreak(left + [c] + right, wide) == |left|
  {
    var s := left + [c] + right;
    if left != "" {
      assert s[0] == left[0] && s[1..] == left[1..] + [c] + right;
      FirstBreakIs(left[1..], c, right, wide);
    }
  }

  /** Where the next line starts after the break at `i`; a carriage return and line feed are one break. */
  function NextLine(s: string, i: nat): (j: nat)
    requires i < |s|
    ensures i < j <= |s|
  {
    if s[i] == '\r' && i + 1 < |s| && s[i + 1] == '\n' then i + 2 else i + 1
  }

  // ---------------------------------------------------------------------------
  // The formatter.
  // ---------------------------------------------------------------------------

  /** `str.splitlines`: an unterminated last line counts, an empty one does not. */
  function SplitLines(s: string): (lines: seq<string>)
    ensures forall k :: 0 <= k < |lines| ==> Unbroken(lines[k], true)
    ensures s != "" ==> lines != []
    decreases |s|
  {
    if s == "" then [] else
      var i := FirstBreak(s, true);
      if i == |s| then
        assert s[..i] == s;
        [s]
      else [s[..i]] + SplitLines(s[NextLine(s, i)..])
  }

  /** `splitlines` in terms of the text: a line ends at the first of ten characters, a carriage return and
      line feed end it together, and a last line needs no end. */
  lemma SplitLinesCuts(line: string, c: char, rest: string)
    requires forall k :: 0 <= k < |line| ==>
      line[k] as int !in {10, 11, 12, 13, 28, 29, 30, 0x85, 0x2028, 0x2029}
    requires c as int in {10, 11, 12, 13, 28, 29, 30, 0x85, 0x2028, 0x2029}
    ensures SplitLines("") == [] && (line != "" ==> SplitLines(line) == [line])
    ensures !(c == '\r' && rest != "" && rest[0] == '\n') ==> SplitLines(line + [c] + rest) == [line] + SplitLines(rest)
    ensures SplitLines(line + ['\r'] + ("\n" + rest)) == [line] + SplitLines(rest)
  {
    assert Unbroken(line, true) && Breaks(c, true) && Breaks('\r', true);
    if line != "" {
      NoBreak(line);
    }
    SplitAt(line, c, rest);
    SplitAt(line, '\r', "\n" + rest);
    assert ("\n" + rest)[1..] == rest;
  }

  lemma NoBreak(line: string)
    requires Unbroken(line, true)
    ensures FirstBreak(line, true) == |line|
  {
  }

  lemma SplitAt(line: string, c: char, rest: string)
    requires Unbroken(line, true) && Breaks(c, true)
    ensures SplitLines(line + [c] + rest)
         == [line] + SplitLines(if c == '\r' && rest != "" && rest[0] == '\n' then rest[1..] else rest)
  {
    var (s, i) := (line + [c] + rest, |line|);
    FirstBreakIs(line, c, rest, true);
    hide FirstBreak, Unbroken, Breaks;
    assert s[..i] == line && s[i] == c && s[i + 1..] == rest;
    assert i + 2 <= |s| ==> s[i + 1] == rest[0] && s[i + 2..] == rest[1..];
  }

  function DataLines(data: string): (lines: seq<string>)
    ensures lines != [] && forall k :: 0 <= k < |lines| ==> Unbroken(lines[k], true)
  {
    if data == "" then [""] else SplitLines(data)
  }

  datatype Frame = Frame(name: string, data: string, id: Option<string>)

  function DataFields(lines: seq<string>): (fields: seq<string>)
    ensures |fields| == |lines|
    ensures forall k :: 0 <= k < |lines| ==> fields[k] == "data: " + lines[k]
  {
    seq(|lines|, k requires 0 <= k < |lines| => "data: " + lines[k])
  }

  function Header(f: Frame): seq<string>
  {
    (match f.id case Some(id) => ["id: " + id] case None => []) + ["event: " + f.name]
  }

  function Format(f: Frame): string
  {
    Join(Header(f) + DataFields(DataLines(f.data)), "\n") + "\n\n"
  }

  /** The body of a response that sends these frames one after the other. */
  function Body(frames: seq<Frame>): string
  {
    if frames == [] then "" else Body(frames[..|frames| - 1]) + Format(frames[|frames| - 1])
  }

  // ---------------------------------------------------------------------------
  // The parser of the standard.
  // ---------------------------------------------------------------------------

  /** The terminated lines of a stream; what follows the last line end is never processed. */
  function Lines(s: string): seq<string>
    decreases |s|
  {
    var i := FirstBreak(s, false);
    if i == |s| then [] else [s[..i]] + Lines(s[NextLine(s, i)..])
  }

  datatype Field = Field(name: string, value: string)

  /** A line as a field: cut at the first colon, less one space after it. */
  function FieldOf(line: string): Field
  {
    var i := IndexOf(line, ':');
    if i == |line| then Field(line, "")
    else if i + 1 < |line| && line[i + 1] == ' ' then Field(line[..i], line[i + 2..])
    else Field(line[..i], line[i + 1..])
  }

  datatype Event = Event(kind: string, data: string, lastId: string)

  /** The buffers of the standard, and the events dispatched so far. */
  datatype Parser = Parser(data: string, kind: string, idBuffer: string, events: seq<Event>)

  const START := Parser("", "", "", [])

  function Process(p: Parser, f: Field): Parser
  {
    if f.name == "event" then p.(kind := f.value)
    else if f.name == "data" then p.(data := p.data + f.value + "\n")
    else if f.name == "id" && '\0' !in f.value then p.(idBuffer := f.value)
    else p
  }

  /** Without data the buffers are only cleared; otherwise the last line feed goes and the event is queued. */
  function Dispatch(p: Parser): Parser
  {
    if p.data == "" then p.(kind := "")
    else
      var last := |p.data| - 1;
      var data := if p.data[last] == '\n' then p.data[..last] else p.data;
      var kind := if p.kind == "" then "message" else p.kind;
      Parser("", "", p.idBuffer, p.events + [Event(kind, data, p.idBuffer)])
  }

  function Feed(p: Parser, line: string): Parser
  {
    if line == "" then Dispatch(p)
    else if line[0] == ':' then p
    else Process(p, FieldOf(line))
  }

  function FeedAll(p: Parser, lines: seq<string>): Parser
    decreases |lines|
  {
    if lines == [] then p else FeedAll(Feed(p, lines[0]), lines[1..])
  }

  /** One leading byte order mark is dropped. */
  function WithoutMark(s: string): string
  {
    if s != "" && s[0] as int == 0xFEFF then s[1..] else s
  }

  function Interpret(stream: string): seq<Event>
  {
    FeedAll(START, Lines(WithoutMark(stream))).events
  }

  // ---------------------------------------------------------------------------
  // Formatting, then reading the lines back.
  // ---------------------------------------------------------------------------

  function Terminated(lines: seq<string>): string
  {
    if lines == [] then "" else lines[0] + "\n" + Terminated(lines[1..])
  }

  lemma {:induction false} JoinTerminated(lines: seq<string>)
    requires lines != []
    ensures Join(lines, "\n") + "\n" == Terminated(lines)
  {
    if |lines| > 1 {
      JoinTerminated(lines[1..]);
      var rest := Join(lines[1..], "\n");
      assert lines[0] + "\n" + rest + "\n" == lines[0] + "\n" + (rest + "\n");
    } else {
      assert Terminated(lines[1..]) == "";
      assert lines[0] + "\n" + "" == lines[0] + "\n";
    }
  }

  lemma FirstLine(line: string, rest: string)
    requires Unbroken(line, false)
    ensures Lines(line + "\n" + rest) == [line] + Lines(rest)
  {
    var all := line + ['\n'] + rest;
    FirstBreakIs(line, '\n', rest, false);
    hide FirstBreak;
    assert all[|line|] == '\n' && all[..|line|] == line && all[|line| + 1..] == rest;
    assert line + "\n" + rest == all;
  }

  /** Terminated lines come back as they were, and what follows them is read on its own. */
  lemma {:induction false} LinesOfTerminated(lines: seq<string>, rest: string)
    requires forall k :: 0 <= k < |lines| ==> Unbroken(lines[k], false)
    ensures Lines(Terminated(lines) + rest) == lines + Lines(rest)
  {
    if lines == [] {
      assert Terminated(lines) + rest == rest;
    } else {
      var tail := Terminated(lines[1..]);
      var first := lines[0] + "\n";
      assert Terminated(lines) == first + tail;
      LinesOfTerminated(lines[1..], rest);
      FirstLine(lines[0], tail + rest);
      hide *;
      calc {
        Lines(Terminated(lines) + rest);
        { Regroup(first, tail, rest); }
        Lines(first + (tail + rest));
        [lines[0]] + (lines[1..] + Lines(rest));
        { Regroup([lines[0]], lines[1..], Lines(rest)); Uncons(lines); }
        lines + Lines(rest);
      }
    }
  }

  lemma {:induction false} FeedConcat(p: Parser, a: seq<string>, b: seq<string>)
    ensures FeedAll(p, a + b) == FeedAll(FeedAll(p, a), b)
    decreases |a|
  {
    if a == [] {
      assert a + b == b;
    } else {
      assert (a + b)[1..] == a[1..] + b;
      FeedConcat(Feed(p, a[0]), a[1..], b);
    }
  }

  /** A field line the formatter writes is read back as that field. */
  lemma FieldOfPrinted(name: string, value: string)
    requires ':' !in name
    ensures FieldOf(name + ": " + value) == Field(name, value)
  {
    var line := name + ": " + value;
    assert line == name + [':'] + (" " + value);
    IndexOfAfter(name, ':', " " + value);
    assert line[..|name|] == name && line[|name| + 2..] == value && line[|name| + 1] == ' ';
  }

  lemma FeedData(p: Parser, line: string)
    ensures Feed(p, "data: " + line) == p.(data := p.data + line + "\n")
  {
    FieldOfPrinted("data", line);
    assert "data: " + line == "data" + ": " + line;
  }

  lemma {:induction false} FeedDataLines(p: Parser, lines: seq<string>)
    ensures FeedAll(p, DataFields(lines)) == p.(data := p.data + Terminated(lines))
    decreases |lines|
  {
    if lines == [] {
      assert p.data + "" == p.data;
    } else {
      var next := p.(data := p.data + lines[0] + "\n");
      FeedData(p, lines[0]);
      FeedDataLines(next, lines[1..]);
      assert Terminated(lines) == lines[0] + "\n" + Terminated(lines[1..]);
      hide Terminated, Feed;
      assert DataFields(lines)[1..] == DataFields(lines[1..]);
      assert FeedAll(p, DataFields(lines)) == FeedAll(next, DataFields(lines[1..]));
      Regroup(p.data, lines[0], "\n");
      Regroup(p.data, lines[0] + "\n", Terminated(lines[1..]));
    }
  }

  function NextId(id: Option<string>, last: string): string
  {
    if id.Some? && '\0' !in id.value then id.value else last
  }

  lemma FeedName(p: Parser, name: string)
    ensures Feed(p, "event: " + name) == p.(kind := name)
  {
    FieldOfPrinted("event", name);
    assert "event: " + name == "event" + ": " + name;
  }

  lemma FeedId(p: Parser, id: string)
    ensures Feed(p, "id: " + id) == p.(idBuffer := NextId(Some(id), p.idBuffer))
  {
    FieldOfPrinted("id", id);
    assert "id: " + id == "id" + ": " + id;
  }

  lemma FeedOne(p: Parser, line: string)
    ensures FeedAll(p, [line]) == Feed(p, line)
  {
    assert [line][1..] == [];
  }

  lemma FeedHeader(p: Parser, f: Frame)
    ensures FeedAll(p, Header(f)) == p.(kind := f.name, idBuffer := NextId(f.id, p.idBuffer))
  {
    var event := "event: " + f.name;
    if f.id.Some? {
      var id := "id: " + f.id.value;
      FeedId(p, f.id.value);
      FeedConcat(p, [id], [event]);
      FeedOne(p, id);
    } else {
      assert [] + [event] == [event];
    }
    var q := p.(idBuffer := NextId(f.id, p.idBuffer));
    FeedName(q, f.name);
    FeedOne(q, event);
    hide FeedAll, Feed;
  }

  /** What a listener sees of a frame: its data with every break become a line feed and a last one gone. */
  function Received(f: Frame, last: string): Event
  {
    Event(if f.name == "" then "message" else f.name, Join(DataLines(f.data), "\n"), NextId(f.id, last))
  }

  function FrameLines(f: Frame): seq<string>
  {
    Header(f) + DataFields(DataLines(f.data)) + [""]
  }

  lemma FeedFrame(p: Parser, f: Frame)
    requires p.data == "" && p.kind == ""
    ensures var e := Received(f, p.idBuffer);
            FeedAll(p, FrameLines(f)) == Parser("", "", e.lastId, p.events + [e])
  {
    var lines := DataLines(f.data);
    var fields := DataFields(lines);
    var headed := p.(kind := f.name, idBuffer := NextId(f.id, p.idBuffer));
    var filled := headed.(data := Terminated(lines));
    FeedConcat(p, Header(f) + fields, [""]);
    FeedConcat(p, Header(f), fields);
    FeedHeader(p, f);
    FeedDataLines(headed, lines);
    assert headed.data + Terminated(lines) == Terminated(lines);
    JoinTerminated(lines);
    FeedOne(filled, "");
    hide Terminated, Join, DataLines, FeedAll, Header, DataFields;
    var joined := Join(lines, "\n");
    assert Terminated(lines)[..|joined|] == joined;
  }

  /** Names and ids that stay on their line. Data is not restricted. */
  predicate Sendable(f: Frame)
  {
    Unbroken(f.name, false) && (f.id.Some? ==> Unbroken(f.id.value, false))
  }

  lemma FrameIsTerminated(f: Frame)
    requires Sendable(f)
    ensures Format(f) == Terminated(FrameLines(f))
    ensures forall k :: 0 <= k < |FrameLines(f)| ==> Unbroken(FrameLines(f)[k], false)
  {
    var lines := Header(f) + DataFields(DataLines(f.data));
    JoinTerminated(lines);
    TerminatedSnoc(lines, "");
    assert forall c :: !PythonBreak(c) ==> !EndsLine(c);
    forall k | 0 <= k < |FrameLines(f)|
      ensures Unbroken(FrameLines(f)[k], false)
    {
      var h := |Header(f)|;
      if h <= k < |FrameLines(f)| - 1 {
        assert FrameLines(f)[k] == "data: " + DataLines(f.data)[k - h];
        assert Unbroken(DataLines(f.data)[k - h], true);
      }
    }
  }

  lemma {:induction false} TerminatedSnoc(lines: seq<string>, last: string)
    ensures Terminated(lines + [last]) == Terminated(lines) + last + "\n"
  {
    if lines == [] {
      assert lines + [last] == [last] && [last][1..] == [];
      assert Terminated([last]) == last + "\n" + Terminated([]);
    } else {
      assert (lines + [last])[1..] == lines[1..] + [last];
      TerminatedSnoc(lines[1..], last);
    }
  }

  /** The events a listener has received after the frames, with the last event id carried on. */
  function ReceivedAll(frames: seq<Frame>): (r: (seq<Event>, string))
    ensures |r.0| == |frames|
  {
    if frames == [] then ([], "")
    else
      var (before, last) := ReceivedAll(frames[..|frames| - 1]);
      var e := Received(frames[|frames| - 1], last);
      (before + [e], e.lastId)
  }

  function BodyLines(frames: seq<Frame>): seq<string>
  {
    if frames == [] then [] else BodyLines(frames[..|frames| - 1]) + FrameLines(frames[|frames| - 1])
  }

  lemma LinesOfFrame(f: Frame, rest: string)
    requires Sendable(f)
    ensures Lines(Format(f) + rest) == FrameLines(f) + Lines(rest)
  {
    FrameIsTerminated(f);
    hide Terminated, Format, FrameLines, Lines;
    LinesOfTerminated(FrameLines(f), rest);
  }

  lemma {:induction false} LinesOfBody(frames: seq<Frame>, rest: string)
    requires forall k :: 0 <= k < |frames| ==> Sendable(frames[k])
    ensures Lines(Body(frames) + rest) == BodyLines(frames) + Lines(rest)
  {
    if frames == [] {
      assert Body(frames) + rest == rest;
    } else {
      var front, last := frames[..|frames| - 1], frames[|frames| - 1];
      assert Body(frames) == Body(front) + Format(last);
      assert BodyLines(frames) == BodyLines(front) + FrameLines(last);
      hide *;
      LinesOfFrame(last, rest);
      LinesOfBody(front, Format(last) + rest);
      calc {
        Lines(Body(frames) + rest);
        { Regroup(Body(front), Format(last), rest); }
        Lines(Body(front) + (Format(last) + rest));
        BodyLines(front) + Lines(Format(last) + rest);
        { Regroup(BodyLines(front), FrameLines(last), Lines(rest)); }
        BodyLines(frames) + Lines(rest);
      }
    }
  }

  lemma {:induction false} FeedBody(frames: seq<Frame>)
    ensures FeedAll(START, BodyLines(frames))
            == Parser("", "", ReceivedAll(frames).1, ReceivedAll(frames).0)
  {
    if frames != [] {
      var front, last := frames[..|frames| - 1], frames[|frames| - 1];
      FeedBody(front);
      FeedConcat(START, BodyLines(front), FrameLines(last));
      FeedFrame(FeedAll(START, BodyLines(front)), last);
      hide FeedAll, FrameLines, Received;
    }
  }

  /** A body starts with a field name, never with a byte order mark. */
  lemma {:induction false} BodyHasNoMark(frames: seq<Frame>)
    ensures frames != [] ==> Body(frames) != "" && Body(frames)[0] as int < 0xFEFF
  {
    if frames != [] {
      var f := frames[0];
      if |frames| == 1 {
        assert Body(frames[..0]) == "";
        var lines := Header(f) + DataFields(DataLines(f.data));
        assert |lines| > 1 && |lines[0]| > 0 && (lines[0][0] == 'i' || lines[0][0] == 'e');
        assert Body(frames)[0] == lines[0][0];
      } else {
        BodyHasNoMark(frames[..|frames| - 1]);
      }
    }
  }

  lemma NothingAfter(s: string)
    ensures s + "" == s
  {
  }

  lemma MarkIsFirst(a: string, b: string)
    requires a != "" && a[0] as int < 0xFEFF
    ensures WithoutMark(a + b) == a + b
  {
    assert (a + b)[0] == a[0];
  }

  lemma InterpretBody(frames: seq<Frame>, rest: string)
    requires frames != [] && forall k :: 0 <= k < |frames| ==> Sendable(frames[k])
    ensures var (events, last) := ReceivedAll(frames);
            Interpret(Body(frames) + rest) == FeedAll(Parser("", "", last, events), Lines(rest)).events
  {
    hide Body, BodyLines, Lines, FeedAll, ReceivedAll, Sendable, WithoutMark;
    BodyHasNoMark(frames);
    MarkIsFirst(Body(frames), rest);
    LinesOfBody(frames, rest);
    FeedBody(frames);
    FeedConcat(START, BodyLines(frames), Lines(rest));
  }

  /** Parsing a concatenation of formatted frames gives the frames back, one event each: name, id and
      order exactly, data up to its line breaks. */
  lemma FramingRoundTrip(frames: seq<Frame>)
    requires forall k :: 0 <= k < |frames| ==> Sendable(frames[k])
    ensures Interpret(Body(frames)) == ReceivedAll(frames).0
  {
    if frames != [] {
      assert Lines("") == [] && forall p :: FeedAll(p, []) == p;
      hide *;
      InterpretBody(frames, "");
      NothingAfter(Body(frames));
    }
  }

  // Nothing the parser reports ever contains a line end, so a name or id that does cannot come back.

  lemma {:induction false} LinesAreUnbroken(s: string)
    ensures forall k :: 0 <= k < |Lines(s)| ==> Unbroken(Lines(s)[k], false)
    decreases |s|
  {
    var i := FirstBreak(s, false);
    if i < |s| {
      LinesAreUnbroken(s[NextLine(s, i)..]);
    }
  }

  ghost predicate Clean(p: Parser)
  {
    && Unbroken(p.kind, false) && Unbroken(p.idBuffer, false)
    && forall k :: 0 <= k < |p.events| ==> Unbroken(p.events[k].kind, false) && Unbroken(p.events[k].lastId, false)
  }

  lemma FieldIsUnbroken(line: string)
    requires Unbroken(line, false)
    ensures Unbroken(FieldOf(line).value, false)
  {
  }

  lemma FeedKeepsClean(p: Parser, line: string)
    requires Clean(p) && Unbroken(line, false)
    ensures Clean(Feed(p, line))
  {
    FieldIsUnbroken(line);
    hide FieldOf, Unbroken;
    assert Unbroken("message", false) by { NamesAreUnbroken(); }
    assert Unbroken("", false) by { NamesAreUnbroken(); }
  }

  lemma NamesAreUnbroken()
    ensures Unbroken("message", false) && Unbroken("", false)
  {
  }

  lemma {:induction false} FeedAllKeepsClean(p: Parser, lines: seq<string>)
    requires Clean(p) && forall k :: 0 <= k < |lines| ==> Unbroken(lines[k], false)
    ensures Clean(FeedAll(p, lines))
    decreases |lines|
  {
    if lines != [] {
      FeedKeepsClean(p, lines[0]);
      hide Feed, Clean, Unbroken;
      FeedAllKeepsClean(Feed(p, lines[0]), lines[1..]);
    }
  }

  lemma InterpretIsClean(stream: string)
    ensures var events := Interpret(stream);
            forall k :: 0 <= k < |events| ==> Unbroken(events[k].kind, false) && Unbroken(events[k].lastId, false)
  {
    var lines := Lines(WithoutMark(stream));
    LinesAreUnbroken(WithoutMark(stream));
    NamesAreUnbroken();
    hide Lines, FeedAll, Unbroken, WithoutMark;
    FeedAllKeepsClean(START, lines);
  }

  /** What a listener sees of each frame, in terms of the frame and the event before it. */
  lemma {:induction false} ReceivedAt(frames: seq<Frame>, k: nat)
    requires k < |frames|
    ensures var (e, f) := (ReceivedAll(frames).0[k], frames[k]);
            && e.kind == (if f.name == "" then "message" else f.name)
            && e.data == Join(DataLines(f.data), "\n") && (Canonical(f.data) ==> e.data == f.data)
            && e.lastId == if f.id.Some? && '\0' !in f.id.value then f.id.value else LastIdBefore(frames, k)
  {
    if k < |frames| - 1 {
      hide *;
      ReceivedAt(frames[..|frames| - 1], k);
      ReceivedGrows(frames, k);
    } else {
      DataSurvivesIff(frames[k].data);
      LastIdIs(frames[..k]);
      hide DataLines, Join, Canonical;
      assert frames[..k] == frames[..|frames| - 1];
    }
  }

  /** The id of the event heard before the one of frame `k`; nothing before the first. */
  function LastIdBefore(frames: seq<Frame>, k: nat): string
    requires k < |frames|
  {
    if k == 0 then "" else ReceivedAll(frames).0[k - 1].lastId
  }

  lemma ReceivedGrows(frames: seq<Frame>, k: nat)
    requires k < |frames| - 1
    ensures var front := frames[..|frames| - 1];
            && front[k] == frames[k] && ReceivedAll(frames).0[k] == ReceivedAll(front).0[k]
            && LastIdBefore(frames, k) == LastIdBefore(front, k)
  {
  }

  lemma LastIdIs(frames: seq<Frame>)
    ensures var (events, last) := ReceivedAll(frames); last == if frames == [] then "" else events[|events| - 1].lastId
  {
  }

  /** For ids without NUL, the frames come back if and only if every name and id stays on its line. */
  lemma {:induction false} FramesComeBackIff(frames: seq<Frame>)
    requires forall k :: 0 <= k < |frames| && frames[k].id.Some? ==> '\0' !in frames[k].id.value
    ensures Interpret(Body(frames)) == ReceivedAll(frames).0 <==> forall k :: 0 <= k < |frames| ==> Sendable(frames[k])
  {
    NamesAreUnbroken();
    hide Interpret, Body, ReceivedAll, Unbroken;
    InterpretIsClean(Body(frames));
    if Interpret(Body(frames)) == ReceivedAll(frames).0 {
      forall k | 0 <= k < |frames|
        ensures Sendable(frames[k])
      {
        ReceivedAt(frames, k);
      }
    }
    if forall k :: 0 <= k < |frames| ==> Sendable(frames[k]) {
      FramingRoundTrip(frames);
    }
  }

  // ---------------------------------------------------------------------------
  // A stream that is cut off.
  // ---------------------------------------------------------------------------

  lemma Unterminated(s: string)
    requires Unbroken(s, false)
    ensures Lines(s) == []
  {
    hide FirstBreak;
    assert FirstBreak(s, false) == |s|;
  }

  /** A piece of terminated lines holds only whole lines from their front, never the last one. */
  lemma {:induction false} LinesOfPiece(lines: seq<string>, n: nat) returns (k: nat)
    requires forall j :: 0 <= j < |lines| ==> Unbroken(lines[j], false)
    requires n < |Terminated(lines)|
    ensures k < |lines| && Lines(Terminated(lines)[..n]) == lines[..k]
  {
    var tail := Terminated(lines[1..]);
    assert Terminated(lines) == lines[0] + "\n" + tail;
    if n <= |lines[0]| {
      k := 0;
      hide *;
      PieceOfFirst(lines[0], tail, n);
      Unterminated(lines[0][..n]);
    } else {
      hide *;
      PieceOfFirst(lines[0], tail, n);
      var m := n - |lines[0]| - 1;
      var j := LinesOfPiece(lines[1..], m);
      k := j + 1;
      FirstLine(lines[0], tail[..m]);
      FrontOf(lines, j);
    }
  }

  lemma PieceOfFirst(line: string, tail: string, n: nat)
    requires n <= |line + "\n" + tail|
    ensures n <= |line| ==> (line + "\n" + tail)[..n] == line[..n]
    ensures n > |line| ==> (line + "\n" + tail)[..n] == line + "\n" + tail[..n - |line| - 1]
  {
  }

  lemma FrontOf(lines: seq<string>, j: nat)
    requires j < |lines|
    ensures [lines[0]] + lines[1..][..j] == lines[..j + 1]
  {
  }

  predicate NoneEmpty(lines: seq<string>)
  {
    forall k :: 0 <= k < |lines| ==> lines[k] != ""
  }

  lemma {:induction false} FieldsDispatchNothing(p: Parser, lines: seq<string>)
    requires NoneEmpty(lines)
    ensures FeedAll(p, lines).events == p.events
    decreases |lines|
  {
    if lines != [] {
      hide FieldOf;
      FieldsDispatchNothing(Feed(p, lines[0]), lines[1..]);
    }
  }

  lemma LinesOfCutFrame(f: Frame, n: nat)
    requires Sendable(f) && n < |Format(f)|
    ensures NoneEmpty(Lines(Format(f)[..n]))
  {
    FrameIsTerminated(f);
    var lines := FrameLines(f);
    assert NoneEmpty(lines[..|lines| - 1]);
    hide Format, FrameLines, Terminated, Lines, Sendable;
    var k := LinesOfPiece(lines, n);
    assert forall j :: 0 <= j < k ==> lines[..k][j] == lines[..|lines| - 1][j];
  }

  /** However the connection is cut inside a frame, the listener has the whole frames before it and no more. */
  lemma CutOffFrameIsDiscarded(frames: seq<Frame>, f: Frame, n: nat)
    requires frames != [] && Sendable(f) && forall k :: 0 <= k < |frames| ==> Sendable(frames[k])
    requires n < |Format(f)|
    ensures Interpret(Body(frames) + Format(f)[..n]) == ReceivedAll(frames).0
  {
    hide Format, FrameLines, Lines, Sendable, Body, FeedAll, ReceivedAll, Interpret;
    LinesOfCutFrame(f, n);
    InterpretBody(frames, Format(f)[..n]);
    FieldsDispatchNothing(Parser("", "", ReceivedAll(frames).1, ReceivedAll(frames).0), Lines(Format(f)[..n]));
  }

  // ---------------------------------------------------------------------------
  // Which data survives.
  // ---------------------------------------------------------------------------

  /** The only line breaks are line feeds, and none is last. */
  predicate Canonical(data: string)
  {
    (forall k :: 0 <= k < |data| && PythonBreak(data[k]) ==> data[k] == '\n') &&
    (data != "" ==> data[|data| - 1] != '\n')
  }

  lemma {:induction false} CanonicalSurvives(data: string)
    requires Canonical(data) && data != ""
    ensures Join(SplitLines(data), "\n") == data
    decreases |data|
  {
    var i := FirstBreak(data, true);
    if i < |data| {
      var left, rest := data[..i], data[i + 1..];
      CanonicalRest(data, i);
      SplitAtBreak(data);
      hide *;
      CanonicalSurvives(rest);
      calc {
        Join(SplitLines(data), "\n");
        { JoinCons(left, SplitLines(rest), "\n"); }
        left + "\n" + rest;
        { Regroup(left, "\n", rest); }
        data;
      }
    }
  }

  lemma SplitAtBreak(data: string)
    requires FirstBreak(data, true) < |data|
    ensures var i := FirstBreak(data, true); SplitLines(data) == [data[..i]] + SplitLines(data[NextLine(data, i)..])
  {
    hide FirstBreak, NextLine;
  }

  lemma CanonicalRest(data: string, i: nat)
    requires Canonical(data) && i < |data| && PythonBreak(data[i])
    ensures NextLine(data, i) == i + 1 && data[i + 1..] != "" && Canonical(data[i + 1..])
    ensures data == data[..i] + ("\n" + data[i + 1..])
  {
    var rest := data[i + 1..];
    assert rest != "";
    assert rest[|rest| - 1] == data[|data| - 1];
    assert forall k :: 0 <= k < |rest| ==> rest[k] == data[i + 1 + k];
  }

  predicate OnlyLineFeeds(s: string)
  {
    forall k :: 0 <= k < |s| && PythonBreak(s[k]) ==> s[k] == '\n'
  }

  lemma {:induction false} JoinedHasOnlyLineFeeds(lines: seq<string>)
    requires forall k :: 0 <= k < |lines| ==> Unbroken(lines[k], true)
    ensures OnlyLineFeeds(Join(lines, "\n"))
  {
    if |lines| > 1 {
      JoinedHasOnlyLineFeeds(lines[1..]);
      var tail := Join(lines[1..], "\n");
      hide Join;
      var s := lines[0] + "\n" + tail;
      forall k | 0 <= k < |s| && PythonBreak(s[k])
        ensures s[k] == '\n'
      {
        if k > |lines[0]| {
          assert s[k] == tail[k - |lines[0]| - 1];
        }
      }
    }
  }

  /** Splitting never adds characters, and a break at the very end is lost. */
  lemma {:induction false} FinalBreakIsLost(data: string)
    requires data != ""
    ensures |Join(SplitLines(data), "\n")| <= |data|
    ensures PythonBreak(data[|data| - 1]) ==> |Join(SplitLines(data), "\n")| < |data|
    decreases |data|
  {
    var i := FirstBreak(data, true);
    if i < |data| {
      var rest := data[NextLine(data, i)..];
      if rest != "" {
        FinalBreakIsLost(rest);
        assert rest[|rest| - 1] == data[|data| - 1];
        JoinCons(data[..i], SplitLines(rest), "\n");
        hide Join;
      } else {
        assert SplitLines(data) == [data[..i]];
      }
    } else {
      assert data[..i] == data;
    }
  }

  /** The data of an event arrives unchanged exactly when it is already in the form `splitlines` gives. */
  lemma DataSurvivesIff(data: string)
    ensures Join(DataLines(data), "\n") == data <==> Canonical(data)
  {
    if data != "" {
      var joined := Join(SplitLines(data), "\n");
      FinalBreakIsLost(data);
      JoinedHasOnlyLineFeeds(SplitLines(data));
      if Canonical(data) {
        CanonicalSurvives(data);
      }
      hide SplitLines, Join;
      assert PythonBreak('\n');
    }
  }

  /** Data without control characters, as the JSON encoder writes it, arrives unchanged exactly when it
      holds none of the three breaks the encoder leaves as they are. */
  lemma EncodedDataSurvivesIff(data: string)
    requires forall k :: 0 <= k < |data| ==> data[k] >= ' '
    ensures Join(DataLines(data), "\n") == data
            <==> forall k :: 0 <= k < |data| ==> data[k] as int !in {0x85, 0x2028, 0x2029}
  {
    DataSurvivesIff(data);
    hide Join, DataLines;
    forall k | 0 <= k < |data|
      ensures PythonBreak(data[k]) <==> data[k] as int in {0x85, 0x2028, 0x2029}
      ensures data[k] != '\n'
    {
    }
  }

  // ---------------------------------------------------------------------------
  // The consumer loop of the stream route.
  // ---------------------------------------------------------------------------

  /** An event taken from the queue, with its encoded form. */
  datatype Envelope = Envelope(kind: Option<string>, id: Option<string>, encoded: string)

  /** One turn of the loop: the client is gone, nothing came in time, or an event was taken. */
  datatype Turn = Disconnected | Quiet | Taken(event: Envelope)

  predicate Ends(t: Turn)
  {
    t.Disconnected? || (t.Taken? && t.event.kind == Some("stream_closed"))
  }

  function FrameOf(t: Turn): Frame
    requires !Ends(t)
  {
    match t
    case Quiet => Frame("ping", "{}", None)
    case Taken(e) => Frame(if e.kind.Some? then e.kind.value else "message", e.encoded, e.id)
  }

  /** How many turns the loop answers: those before the first that ends it. */
  function Answered(turns: seq<Turn>): (n: nat)
    ensures n <= |turns| && forall k :: 0 <= k < n ==> !Ends(turns[k])
    ensures n < |turns| ==> Ends(turns[n])
  {
    if turns == [] || Ends(turns[0]) then 0 else 1 + Answered(turns[1..])
  }

  function Frames(turns: seq<Turn>): (frames: seq<Frame>)
    ensures |frames| == Answered(turns)
    ensures forall k :: 0 <= k < |frames| ==> frames[k] == FrameOf(turns[k])
  {
    seq(Answered(turns), k requires 0 <= k < Answered(turns) => FrameOf(turns[k]))
  }

  method StreamEvents(turns: seq<Turn>) returns (body: string)
    ensures body == Body(Frames(turns))
  {
    body := "";
    var i := 0;
    while i < |turns| && !Ends(turns[i])
      invariant 0 <= i <= Answered(turns)
      invariant body == Body(Frames(turns)[..i])
    {
      var all := Frames(turns);
      assert all[..i + 1][..i] == all[..i];
      body := body + Format(FrameOf(turns[i]));
      i := i + 1;
    }
    assert Frames(turns)[..i] == Frames(turns);
  }

  /** What a listener hears of a turn, given the last event id it had. */
  ghost predicate Hears(t: Turn, heard: Event, lastId: string)
  {
    match t
    case Disconnected => false
    case Quiet => heard == Event("ping", "{}", lastId)
    case Taken(e) =>
      && e.kind != Some("stream_closed")
      && heard.kind == (if e.kind in {None, Some("")} then "message" else e.kind.value)
      && heard.data == Join(DataLines(e.encoded), "\n") && (Canonical(e.encoded) ==> heard.data == e.encoded)
      && heard.lastId == if e.id.Some? && '\0' !in e.id.value then e.id.value else lastId
  }

  ghost predicate OnOneLine(e: Envelope)
  {
    (e.kind.Some? ==> Unbroken(e.kind.value, false)) && (e.id.Some? ==> Unbroken(e.id.value, false))
  }

  /** One event per turn, up to the first turn that finds the client gone or takes the closing event. */
  ghost predicate HearsTurns(turns: seq<Turn>, heard: seq<Event>)
  {
    && |heard| <= |turns|
    && (forall k :: 0 <= k < |heard| ==> Hears(turns[k], heard[k], IdBefore(heard, k)))
    && (|heard| < |turns| ==>
          match turns[|heard|]
          case Disconnected => true
          case Quiet => false
          case Taken(e) => e.kind == Some("stream_closed"))
  }

  ghost function IdBefore(heard: seq<Event>, k: nat): string
    requires k < |heard|
  {
    if k == 0 then "" else heard[k - 1].lastId
  }

  /** What a listener hears from the route: one event per turn, a ping for a quiet one, up to the first turn
      that finds the client gone or takes the closing event, which is never sent. */
  lemma ListenerHears(turns: seq<Turn>)
    requires forall k :: 0 <= k < |turns| && turns[k].Taken? ==> OnOneLine(turns[k].event)
    ensures HearsTurns(turns, Interpret(Body(Frames(turns))))
  {
    var heard := ReceivedAll(Frames(turns)).0;
    forall k | 0 <= k < |heard|
      ensures Hears(turns[k], heard[k], IdBefore(heard, k))
    {
      TurnIsHeard(turns, k);
    }
    FramesAreSendable(turns);
    hide Interpret, Body, ReceivedAll, Hears, Sendable, IdBefore;
    FramingRoundTrip(Frames(turns));
  }

  lemma TurnIsHeard(turns: seq<Turn>, k: nat)
    requires k < |Frames(turns)|
    ensures var heard := ReceivedAll(Frames(turns)).0; Hears(turns[k], heard[k], IdBefore(heard, k))
  {
    ReceivedAt(Frames(turns), k);
    assert Frames(turns)[k] == FrameOf(turns[k]);
    hide ReceivedAll, DataLines, Join, Canonical, Frames, Hears, FrameOf;
    FrameIsHeard(turns[k], ReceivedAll(Frames(turns)).0[k], LastIdBefore(Frames(turns), k));
  }

  lemma FrameIsHeard(t: Turn, heard: Event, lastId: string)
    requires !Ends(t)
    requires var f := FrameOf(t);
             && heard.kind == (if f.name == "" then "message" else f.name)
             && heard.data == Join(DataLines(f.data), "\n") && (Canonical(f.data) ==> heard.data == f.data)
             && heard.lastId == if f.id.Some? && '\0' !in f.id.value then f.id.value else lastId
    ensures Hears(t, heard, lastId)
  {
    PingIsCanonical();
    hide DataLines, Join, Canonical;
  }

  lemma PingIsCanonical()
    ensures Canonical("{}")
  {
  }

  lemma FramesAreSendable(turns: seq<Turn>)
    requires forall k :: 0 <= k < |turns| && turns[k].Taken? ==> OnOneLine(turns[k].event)
    ensures forall k :: 0 <= k < |Frames(turns)| ==> Sendable(Frames(turns)[k])
  {
  }

  /** A subscriber that takes the hub's closing event hears nothing from that turn on. */
  lemma HubCloseEndsStream(turns: seq<Turn>, k: nat, close: EventHub.Event, encoded: string)
    requires forall j :: 0 <= j < |turns| && turns[j].Taken? ==> OnOneLine(turns[j].event)
    requires k < |turns| && EventHub.IsCloseEvent(close)
    requires turns[k] == Taken(Envelope(Some(close.eventType), Some(close.id), encoded))
    ensures |Interpret(Body(Frames(turns)))| <= k
  {
    ListenerHears(turns);
    var heard := Interpret(Body(Frames(turns)));
    hide Interpret, Body, Frames;
    assert k < |heard| ==> Hears(turns[k], heard[k], IdBefore(heard, k));
  }
}

/**
  * The wire form of control-mode events, and the proof that the parser inverts it under any
  * fragmentation.
  */
module ControlWire {
  import opened Common
  import opened ControlRecords
  import opened ControlParser

  /** How a stream is written: which bytes are octal-escaped, and how many CRs precede each LF. */
  datatype Writer = Writer(escapes: Byte -> bool, carriageReturns: nat)

  predicate WriterIsSafe(w: Writer) {
    w.escapes(BACKSLASH) && w.escapes(LINE_FEED) && w.escapes(CARRIAGE_RETURN)
  }

  function LineEnd(w: Writer): Bytes {
    seq(w.carriageReturns, _ => CARRIAGE_RETURN) + [LINE_FEED]
  }

  function Keyed(key: Bytes, rest: Bytes): Bytes {
    key + [SPACE] + rest
  }

  function ExtendedHeader(pane: nat, ageMs: nat, futureFields: seq<Bytes>): seq<Bytes> {
    [PaneText(pane), Decimal(ageMs)] + futureFields
  }

  /** The single line of an event that has one. */
  function RecordText(e: ControlEvent, w: Writer): Bytes
    requires !e.Started? && !e.Command? && !e.Ended?
  {
    match e
    case Output(pane, bytes) => Keyed(OUTPUT, Keyed(PaneText(pane), EncodeOctal(bytes, w.escapes)))
    case ExtendedOutput(pane, age, future, bytes) =>
      Keyed(EXTENDED_OUTPUT,
            JoinSpaces(ExtendedHeader(pane, age, future)) + [SPACE, COLON, SPACE] + EncodeOctal(bytes, w.escapes))
    case Pause(pane) => Keyed(PAUSE, PaneText(pane))
    case Continue(pane) => Keyed(CONTINUE, PaneText(pane))
    case Exit(reason) => if reason.None? then EXIT else Keyed(EXIT, reason.value)
    case Notification(name, arguments) =>
      if arguments == [] then [PERCENT] + name else Keyed([PERCENT] + name, arguments)
  }

  function OutputLines(lines: seq<Bytes>, w: Writer): Bytes {
    if lines == [] then [] else lines[0] + LineEnd(w) + OutputLines(lines[1..], w)
  }

  function OpeningLine(tag: CommandTag): Bytes {
    Keyed(BEGIN, TagText(tag))
  }

  function ClosingLine(tag: CommandTag, status: CommandStatus): Bytes {
    Keyed(if status == Success then END else ERROR, TagText(tag))
  }

  function WireOfEvent(e: ControlEvent, w: Writer): Bytes
    requires !e.Started? && !e.Ended?
  {
    if e.Command? then
      OpeningLine(e.tag) + LineEnd(w) + OutputLines(e.output, w) + (ClosingLine(e.tag, e.status) + LineEnd(w))
    else RecordText(e, w) + LineEnd(w)
  }

  function WireOfEvents(events: seq<ControlEvent>, w: Writer): Bytes
    requires forall i :: 0 <= i < |events| ==> !events[i].Started? && !events[i].Ended?
  {
    if events == [] then [] else WireOfEvent(events[0], w) + WireOfEvents(events[1..], w)
  }

  /** A complete control stream. */
  function Wire(events: seq<ControlEvent>, w: Writer): Bytes
    requires forall i :: 0 <= i < |events| ==> !events[i].Started? && !events[i].Ended?
  {
    CONTROL_START + WireOfEvents(events, w) + [ESCAPE, BACKSLASH]
  }

  // ----- which events have a wire form within the limits -----

  /** Text that can be a line: no LF inside and no CR at its end. */
  predicate IsLine(text: Bytes) {
    LINE_FEED !in text && (text != [] ==> text[|text| - 1] != CARRIAGE_RETURN)
  }

  predicate LineFits(text: Bytes, limits: ParserLimits, w: Writer) {
    |text| + w.carriageReturns <= limits.maxLineBytes
  }

  /**
    * Payload may be any text, complete nested `%begin`/`%end` blocks and lines that start with
    * ESC included; only the block's own terminator is excluded.
    */
  predicate PayloadFits(line: Bytes, tag: CommandTag, limits: ParserLimits, w: Writer) {
    && IsLine(line) && LineFits(line, limits, w)
    && !Terminates(line, END, tag) && !Terminates(line, ERROR, tag)
  }

  predicate AllPayloadFits(lines: seq<Bytes>, tag: CommandTag, limits: ParserLimits, w: Writer) {
    forall i :: 0 <= i < |lines| ==> PayloadFits(lines[i], tag, limits, w)
  }

  predicate IsReserved(key: Bytes) {
    key in [BEGIN, END, ERROR, OUTPUT, EXTENDED_OUTPUT, PAUSE, CONTINUE, EXIT]
  }

  predicate ContentFits(e: ControlEvent) {
    match e
    case Output(pane, _) => pane <= MAX_U64
    case ExtendedOutput(pane, age, future, _) =>
      && pane <= MAX_U64 && age <= MAX_U64
      && forall i :: 0 <= i < |future| ==> PlainField(future[i]) && LINE_FEED !in future[i]
    case Pause(pane) => pane <= MAX_U64
    case Continue(pane) => pane <= MAX_U64
    case Exit(reason) => reason.Some? ==> reason.value != [] && IsLine(reason.value)
    case Notification(name, arguments) => IsName(name) && !IsReserved([PERCENT] + name) && IsLine(arguments)
    case _ => false
  }

  predicate EventFits(e: ControlEvent, limits: ParserLimits, w: Writer) {
    if e.Started? || e.Ended? then false
    else if e.Command? then
      && TagFits(e.tag)
      && LineFits(OpeningLine(e.tag), limits, w) && LineFits(ClosingLine(e.tag, e.status), limits, w)
      && |e.output| <= limits.maxCommandOutputLines && TotalLength(e.output) <= limits.maxCommandOutputBytes
      && AllPayloadFits(e.output, e.tag, limits, w)
    else
      && ContentFits(e)
      && LineFits(RecordText(e, w), limits, w)
      && |RecordText(e, w)| <= limits.maxNotificationBytes
  }

  // ----- one line -----

  lemma PushSnoc(limits: ParserLimits, p: Parser, front: Bytes, last: Byte)
    requires Matching(p)
    ensures Push(limits, p, front + [last]) == Next(limits, Push(limits, p, front), last)
  {
    assert (front + [last])[..|front|] == front;
  }

  lemma {:induction false} PushContent(limits: ParserLimits, pending: Option<PendingCommand>, content: Bytes)
    requires LINE_FEED !in content && |content| <= limits.maxLineBytes
    requires pending.None? && content != [] ==> content[0] != ESCAPE
    ensures Push(limits, Parser(Records, [], pending), content) == Parsed(Parser(Records, content, pending), [])
  {
    hide ProcessLine, Feed, Next, PushByte;
    var p := Parser(Records, [], pending);
    if content == [] {
      NothingFed(limits, p);
    } else {
      var front, last := content[..|content| - 1], content[|content| - 1];
      assert content == front + [last];
      assert LINE_FEED !in front && last in content;
      PushContent(limits, pending, front);
      PushSnoc(limits, p, front, last);
      PlainByte(limits, pending, front, last);
    }
  }

  lemma PlainByte(limits: ParserLimits, pending: Option<PendingCommand>, front: Bytes, last: Byte)
    requires last != LINE_FEED && |front| < limits.maxLineBytes
    requires pending.None? && front == [] ==> last != ESCAPE
    ensures Next(limits, Parsed(Parser(Records, front, pending), []), last)
         == Parsed(Parser(Records, front + [last], pending), [])
  {
    hide ProcessLine;
  }

  lemma {:induction false} StripsCarriageReturns(content: Bytes, count: nat)
    requires IsLine(content)
    ensures WithoutCarriageReturns(content + seq(count, _ => CARRIAGE_RETURN)) == content
  {
    var all := content + seq(count, _ => CARRIAGE_RETURN);
    if count > 0 {
      assert all[..|all| - 1] == content + seq(count - 1, _ => CARRIAGE_RETURN);
      StripsCarriageReturns(content, count - 1);
    } else {
      assert all == content;
    }
  }

  /** A line of any length within the limit reaches `ProcessLine` exactly as written. */
  lemma PushLine(limits: ParserLimits, pending: Option<PendingCommand>, content: Bytes, w: Writer)
    requires IsLine(content) && LineFits(content, limits, w)
    requires pending.None? ==> content != [] && content[0] != ESCAPE
    ensures Push(limits, Parser(Records, [], pending), content + LineEnd(w)) == ProcessLine(limits, pending, content)
  {
    hide ProcessLine;
    var raw := content + seq(w.carriageReturns, _ => CARRIAGE_RETURN);
    PushContent(limits, pending, raw);
    StripsCarriageReturns(content, w.carriageReturns);
    var all := raw + [LINE_FEED];
    assert content + LineEnd(w) == all;
    assert all[..|all| - 1] == raw;
    var result := ProcessLine(limits, pending, content);
    if result.Parsed? {
      assert [] + result.events == result.events;
    }
  }

  // ----- keywords -----

  lemma KeyDecides(key: Bytes, rest: Bytes, other: Bytes)
    requires SPACE !in key && SPACE !in other
    ensures Has(Keyed(key, rest), other) <==> key == other
    ensures Has(Keyed(key, rest), key) && After(Keyed(key, rest), key) == rest
    ensures Keyed(key, rest) != other
  {
    var line := Keyed(key, rest);
    FirstOccurrence(key, SPACE, rest);
    if Has(line, other) {
      FirstOccurrence(other, SPACE, After(line, other));
      assert line == other + [SPACE] + After(line, other);
      assert line[..|key|] == key && line[..|other|] == other;
    }
    assert SPACE in line;
  }

  lemma KeysHaveNoSpace()
    ensures SPACE !in BEGIN && SPACE !in END && SPACE !in ERROR && SPACE !in OUTPUT
    ensures SPACE !in EXTENDED_OUTPUT && SPACE !in PAUSE && SPACE !in CONTINUE && SPACE !in EXIT
  {
  }

  lemma KeysDiffer()
    ensures BEGIN[1] == 0x62 && |END| == 4 && |ERROR| == 6 && ERROR[1] == 0x65 && END[1] == 0x65
    ensures |OUTPUT| == 7 && OUTPUT[1] == 0x6f && |EXTENDED_OUTPUT| == 16 && |PAUSE| == 6 && PAUSE[1] == 0x70
    ensures |CONTINUE| == 9 && |EXIT| == 5 && |BEGIN| == 6
  {
  }

  /** A keyed record is recognized by its own keyword and by no other. */
  lemma KeyedRecord(key: Bytes, rest: Bytes)
    requires SPACE !in key
    ensures var line := Keyed(key, rest);
      && (Has(line, BEGIN) <==> key == BEGIN) && (Has(line, END) <==> key == END)
      && (Has(line, ERROR) <==> key == ERROR) && (Has(line, OUTPUT) <==> key == OUTPUT)
      && (Has(line, EXTENDED_OUTPUT) <==> key == EXTENDED_OUTPUT) && (Has(line, PAUSE) <==> key == PAUSE)
      && (Has(line, CONTINUE) <==> key == CONTINUE) && (Has(line, EXIT) <==> key == EXIT)
      && !BareKeyword(line) && line != EXIT
      && Has(line, key) && After(line, key) == rest
  {
    KeysHaveNoSpace();
    KeyDecides(key, rest, BEGIN);
    KeyDecides(key, rest, END);
    KeyDecides(key, rest, ERROR);
    KeyDecides(key, rest, OUTPUT);
    KeyDecides(key, rest, EXTENDED_OUTPUT);
    KeyDecides(key, rest, PAUSE);
    KeyDecides(key, rest, CONTINUE);
    KeyDecides(key, rest, EXIT);
  }

  lemma SpacelessRecord(line: Bytes)
    requires SPACE !in line
    ensures !Has(line, BEGIN) && !Has(line, END) && !Has(line, ERROR) && !Has(line, OUTPUT)
    ensures !Has(line, EXTENDED_OUTPUT) && !Has(line, PAUSE) && !Has(line, CONTINUE) && !Has(line, EXIT)
  {
    forall key: Bytes
      ensures Has(line, key) ==> SPACE in line
    {
      HasSpace(line, key);
    }
  }

  lemma HasSpace(line: Bytes, key: Bytes)
    ensures Has(line, key) ==> SPACE in line
  {
    if Has(line, key) {
      assert line[|key|] == (key + [SPACE])[|key|];
    }
  }

  lemma {:induction false} JoinAvoids(fields: seq<Bytes>, avoided: Byte)
    requires fields != [] && avoided != SPACE && forall i :: 0 <= i < |fields| ==> avoided !in fields[i]
    ensures avoided !in JoinSpaces(fields)
  {
    if |fields| > 1 {
      JoinAvoids(fields[1..], avoided);
    }
  }

  // ----- single-line events -----

  lemma IsLineKeyed(key: Bytes, rest: Bytes)
    requires LINE_FEED !in key && IsLine(rest)
    ensures IsLine(Keyed(key, rest))
  {
    var line := Keyed(key, rest);
    assert rest != [] ==> line[|line| - 1] == rest[|rest| - 1];
    assert rest == [] ==> line[|line| - 1] == SPACE;
  }

  lemma WithoutIsLine(text: Bytes)
    requires LINE_FEED !in text && CARRIAGE_RETURN !in text
    ensures IsLine(text)
  {
    if text != [] {
      assert text[|text| - 1] in text;
    }
  }

  lemma EncodedIsLine(bytes: Bytes, w: Writer)
    requires WriterIsSafe(w)
    ensures IsLine(EncodeOctal(bytes, w.escapes))
  {
    EncodingAvoids(bytes, w.escapes, LINE_FEED);
    EncodingAvoids(bytes, w.escapes, CARRIAGE_RETURN);
    WithoutIsLine(EncodeOctal(bytes, w.escapes));
  }

  lemma OutputParses(pane: nat, bytes: Bytes, w: Writer)
    requires WriterIsSafe(w) && pane <= MAX_U64
    ensures var rest := Keyed(PaneText(pane), EncodeOctal(bytes, w.escapes));
      ParseOutput(rest) == Ok(Output(pane, bytes)) && IsLine(rest)
  {
    hide EncodeOctal, DecodeOctal, ParsePaneId;
    var value := EncodeOctal(bytes, w.escapes);
    PaneRoundTrip(pane);
    OctalRoundTrip(bytes, w.escapes);
    FirstOccurrence(PaneText(pane), SPACE, value);
    EncodedIsLine(bytes, w);
    IsLineKeyed(PaneText(pane), value);
    var rest := Keyed(PaneText(pane), value);
    assert rest[..|PaneText(pane)|] == PaneText(pane) && rest[|PaneText(pane)| + 1..] == value;
  }

  lemma HeaderFields(pane: nat, ageMs: nat, future: seq<Bytes>)
    requires ContentFits(ExtendedOutput(pane, ageMs, future, []))
    ensures var fields := ExtendedHeader(pane, ageMs, future);
      forall i :: 0 <= i < |fields| ==> PlainField(fields[i]) && LINE_FEED !in fields[i]
  {
    PaneRoundTrip(pane);
    ParsesDecimal(ageMs);
    var fields := ExtendedHeader(pane, ageMs, future);
    forall i | 0 <= i < |fields|
      ensures PlainField(fields[i]) && LINE_FEED !in fields[i]
    {
      if i >= 2 {
        assert fields[i] == future[i - 2];
      }
    }
  }

  lemma ExtendedOutputParses(pane: nat, ageMs: nat, future: seq<Bytes>, bytes: Bytes, w: Writer)
    requires WriterIsSafe(w) && ContentFits(ExtendedOutput(pane, ageMs, future, bytes))
    ensures var rest := JoinSpaces(ExtendedHeader(pane, ageMs, future)) + [SPACE, COLON, SPACE]
                        + EncodeOctal(bytes, w.escapes);
      ParseExtendedOutput(rest) == Ok(ExtendedOutput(pane, ageMs, future, bytes)) && IsLine(rest)
  {
    hide EncodeOctal, DecodeOctal, ParsePaneId, ParseU64, SplitSpaces, JoinSpaces, FindSeparator, IsLine;
    var fields := ExtendedHeader(pane, ageMs, future);
    var header, value := JoinSpaces(fields), EncodeOctal(bytes, w.escapes);
    HeaderFields(pane, ageMs, future);
    PaneRoundTrip(pane);
    AgeParses(ageMs);
    SplitInvertsJoin(fields);
    SeparatorFollowsFields(fields, value);
    OctalRoundTrip(bytes, w.escapes);
    EncodedIsLine(bytes, w);
    JoinAvoids(fields, LINE_FEED);
    var rest := header + [SPACE, COLON, SPACE] + value;
    assert rest[..|header|] == header && rest[|header| + 3..] == value;
    assert fields[0] == PaneText(pane) && fields[1] == Decimal(ageMs);
    assert (if |fields| > 2 then fields[2..] else []) == future;
    assert [] !in future;
    ExtendedIsLine(header, value);
  }

  lemma ExtendedIsLine(header: Bytes, value: Bytes)
    requires LINE_FEED !in header && IsLine(value)
    ensures IsLine(header + [SPACE, COLON, SPACE] + value)
  {
    var rest := header + [SPACE, COLON, SPACE] + value;
    if value != [] {
      assert rest[|rest| - 1] == value[|value| - 1];
    } else {
      assert rest[|rest| - 1] == SPACE;
    }
  }

  lemma AgeParses(ageMs: nat)
    requires ageMs <= MAX_U64
    ensures ParseU64(Some(Decimal(ageMs)), ExtendedOutputAge) == Ok(ageMs)
  {
    ParsesDecimal(ageMs);
  }

  lemma NotificationParses(name: Bytes, arguments: Bytes)
    requires IsName(name) && IsLine(arguments)
    ensures ParseNotification([PERCENT] + name) == Ok(Notification(name, []))
    ensures ParseNotification(Keyed([PERCENT] + name, arguments)) == Ok(Notification(name, arguments))
    ensures SPACE !in [PERCENT] + name && LINE_FEED !in [PERCENT] + name && IsLine([PERCENT] + name)
  {
    assert SPACE !in name;
    var bare, line := [PERCENT] + name, Keyed([PERCENT] + name, arguments);
    assert bare[1..] == name;
    FirstOccurrence(name, SPACE, arguments);
    assert line[1..] == name + [SPACE] + arguments;
    assert line[1..][..|name|] == name && line[1..][|name| + 1..] == arguments;
    WithoutIsLine(bare);
  }

  /** A record of every other kind is one line, which parses to the event. */
  lemma RecordParses(e: ControlEvent, limits: ParserLimits, w: Writer)
    requires WriterIsSafe(w) && ContentFits(e) && !e.Notification? && !e.Exit?
    requires |RecordText(e, w)| <= limits.maxNotificationBytes
    ensures IsLine(RecordText(e, w)) && RecordText(e, w) != [] && RecordText(e, w)[0] == PERCENT
    ensures !Has(RecordText(e, w), BEGIN) && ParseRecord(limits, RecordText(e, w)) == Ok(e)
  {
    hide EncodeOctal, JoinSpaces, ParseOutput, ParseExtendedOutput, BareKeyword, Has, IsLine;
    KeysHaveNoSpace();
    KeysDiffer();
    match e {
      case Output(pane, bytes) =>
        KeyedRecord(OUTPUT, Keyed(PaneText(pane), EncodeOctal(bytes, w.escapes)));
        OutputParses(pane, bytes, w);
        IsLineKeyed(OUTPUT, Keyed(PaneText(pane), EncodeOctal(bytes, w.escapes)));
      case ExtendedOutput(pane, age, future, bytes) =>
        var rest := JoinSpaces(ExtendedHeader(pane, age, future)) + [SPACE, COLON, SPACE]
                    + EncodeOctal(bytes, w.escapes);
        KeyedRecord(EXTENDED_OUTPUT, rest);
        ExtendedOutputParses(pane, age, future, bytes, w);
        IsLineKeyed(EXTENDED_OUTPUT, rest);
      case Pause(pane) =>
        KeyedRecord(PAUSE, PaneText(pane));
        PaneRoundTrip(pane);
        WithoutIsLine(PaneText(pane));
        IsLineKeyed(PAUSE, PaneText(pane));
      case Continue(pane) =>
        KeyedRecord(CONTINUE, PaneText(pane));
        PaneRoundTrip(pane);
        WithoutIsLine(PaneText(pane));
        IsLineKeyed(CONTINUE, PaneText(pane));
    }
  }

  lemma ExitOrNotificationParses(e: ControlEvent, limits: ParserLimits, w: Writer)
    requires ContentFits(e) && (e.Notification? || e.Exit?)
    requires |RecordText(e, w)| <= limits.maxNotificationBytes
    ensures IsLine(RecordText(e, w)) && RecordText(e, w) != [] && RecordText(e, w)[0] == PERCENT
    ensures !Has(RecordText(e, w), BEGIN) && ParseRecord(limits, RecordText(e, w)) == Ok(e)
  {
    KeysHaveNoSpace();
    KeysDiffer();
    match e {
      case Exit(reason) =>
        if reason.Some? {
          KeyedRecord(EXIT, reason.value);
          IsLineKeyed(EXIT, reason.value);
        } else {
          SpacelessRecord(EXIT);
        }
      case Notification(name, arguments) =>
        NotificationParses(name, arguments);
        if arguments == [] {
          SpacelessRecord([PERCENT] + name);
        } else {
          KeyedRecord([PERCENT] + name, arguments);
          IsLineKeyed([PERCENT] + name, arguments);
        }
    }
  }

  // ----- command blocks -----

  lemma {:induction false} PushPayload(limits: ParserLimits, tag: CommandTag, output: seq<Bytes>, outputBytes: nat,
                                       lines: seq<Bytes>, w: Writer)
    requires AllPayloadFits(lines, tag, limits, w)
    requires |output| + |lines| <= limits.maxCommandOutputLines
    requires outputBytes + TotalLength(lines) <= limits.maxCommandOutputBytes
    ensures Push(limits, Parser(Records, [], Some(PendingCommand(tag, output, outputBytes))), OutputLines(lines, w))
         == Parsed(Parser(Records, [],
                          Some(PendingCommand(tag, output + lines, outputBytes + TotalLength(lines)))), [])
    decreases |lines|
  {
    hide Feed, Terminates;
    var p := Parser(Records, [], Some(PendingCommand(tag, output, outputBytes)));
    if lines == [] {
      assert output + lines == output;
      NothingFed(limits, p);
    } else {
      assert PayloadFits(lines[0], tag, limits, w);
      PushLine(limits, p.pending, lines[0], w);
      PushAppend(limits, p, lines[0] + LineEnd(w), OutputLines(lines[1..], w));
      assert AllPayloadFits(lines[1..], tag, limits, w);
      PushPayload(limits, tag, output + [lines[0]], outputBytes + |lines[0]|, lines[1..], w);
      assert output + [lines[0]] + lines[1..] == output + lines;
    }
  }

  lemma TagLines(tag: CommandTag)
    requires TagFits(tag)
    ensures IsLine(TagText(tag)) && IsLine(OpeningLine(tag))
    ensures IsLine(ClosingLine(tag, Success)) && IsLine(ClosingLine(tag, Error))
    ensures OpeningLine(tag)[0] == PERCENT
  {
    ParsesDecimal(tag.timestamp);
    ParsesDecimal(tag.number);
    ParsesDecimal(tag.flags);
    KeysDiffer();
    JoinAvoids([Decimal(tag.timestamp), Decimal(tag.number), Decimal(tag.flags)], LINE_FEED);
    JoinAvoids([Decimal(tag.timestamp), Decimal(tag.number), Decimal(tag.flags)], CARRIAGE_RETURN);
    WithoutIsLine(TagText(tag));
    IsLineKeyed(BEGIN, TagText(tag));
    IsLineKeyed(END, TagText(tag));
    IsLineKeyed(ERROR, TagText(tag));
  }

  lemma OpeningParses(limits: ParserLimits, tag: CommandTag)
    requires TagFits(tag)
    ensures ProcessLine(limits, None, OpeningLine(tag))
         == Parsed(Parser(Records, [], Some(PendingCommand(tag, [], 0))), [])
  {
    hide ParseCommandTag, TagText;
    KeysHaveNoSpace();
    TagRoundTrip(tag);
    KeyedRecord(BEGIN, TagText(tag));
  }

  lemma ClosingParses(limits: ParserLimits, pending: PendingCommand, status: CommandStatus)
    requires TagFits(pending.tag)
    ensures ProcessLine(limits, Some(pending), ClosingLine(pending.tag, status))
         == Parsed(Parser(Records, [], None), [Command(pending.tag, status, pending.output)])
  {
    hide ParseCommandTag, TagText;
    KeysHaveNoSpace();
    KeysDiffer();
    TagRoundTrip(pending.tag);
    KeyedRecord(if status == Success then END else ERROR, TagText(pending.tag));
  }

  lemma CommandRoundTrip(limits: ParserLimits, tag: CommandTag, status: CommandStatus, output: seq<Bytes>, w: Writer)
    requires EventFits(Command(tag, status, output), limits, w)
    ensures Push(limits, Parser(Records, [], None), WireOfEvent(Command(tag, status, output), w))
         == Parsed(Parser(Records, [], None), [Command(tag, status, output)])
  {
    hide Feed, ProcessLine, OutputLines, LineEnd, IsLine, OpeningLine, ClosingLine;
    var idle := Parser(Records, [], None);
    var begun := Parser(Records, [], Some(PendingCommand(tag, [], 0)));
    var filled := Parser(Records, [], Some(PendingCommand(tag, output, TotalLength(output))));
    TagLines(tag);
    OpeningParses(limits, tag);
    assert OpeningLine(tag) != [] by { NotEmpty(tag); }
    PushLine(limits, None, OpeningLine(tag), w);
    PushPayload(limits, tag, [], 0, output, w);
    assert [] + output == output;
    ClosingParses(limits, filled.pending.value, status);
    PushLine(limits, filled.pending, ClosingLine(tag, status), w);
    var opening, payload, closing := OpeningLine(tag) + LineEnd(w), OutputLines(output, w), ClosingLine(tag, status) + LineEnd(w);
    PushAppend(limits, idle, opening, payload);
    PushAppend(limits, idle, opening + payload, closing);
  }

  lemma NotEmpty(tag: CommandTag)
    ensures OpeningLine(tag) != []
  {
  }

  /** The lines of a nested control stream are ordinary payload exactly when their tag is another one. */
  lemma NestedBlocksArePayload(inner: CommandTag, outer: CommandTag, status: CommandStatus, limits: ParserLimits,
                               w: Writer)
    requires TagFits(inner)
    requires LineFits(OpeningLine(inner), limits, w) && LineFits(ClosingLine(inner, status), limits, w)
    ensures PayloadFits(OpeningLine(inner), outer, limits, w)
    ensures PayloadFits(ClosingLine(inner, status), outer, limits, w) <==> inner != outer
  {
    hide ParseCommandTag, TagText, LineFits, IsLine;
    KeysHaveNoSpace();
    KeysDiffer();
    TagLines(inner);
    TagRoundTrip(inner);
    KeyedRecord(BEGIN, TagText(inner));
    KeyedRecord(if status == Success then END else ERROR, TagText(inner));
  }

  // ----- streams -----

  lemma EventRoundTrip(limits: ParserLimits, e: ControlEvent, w: Writer)
    requires WriterIsSafe(w) && EventFits(e, limits, w)
    ensures Push(limits, Parser(Records, [], None), WireOfEvent(e, w)) == Parsed(Parser(Records, [], None), [e])
  {
    hide Push, RecordText, ParseRecord, Has, IsLine, LineFits;
    if e.Command? {
      CommandRoundTrip(limits, e.tag, e.status, e.output, w);
    } else {
      if e.Exit? || e.Notification? {
        ExitOrNotificationParses(e, limits, w);
      } else {
        RecordParses(e, limits, w);
      }
      PushLine(limits, None, RecordText(e, w), w);
    }
  }

  predicate AllFit(events: seq<ControlEvent>, limits: ParserLimits, w: Writer) {
    forall i :: 0 <= i < |events| ==> EventFits(events[i], limits, w)
  }

  lemma {:induction false} EventsRoundTrip(limits: ParserLimits, events: seq<ControlEvent>, w: Writer)
    requires WriterIsSafe(w) && AllFit(events, limits, w)
    ensures Push(limits, Parser(Records, [], None), WireOfEvents(events, w)) == Parsed(Parser(Records, [], None), events)
  {
    hide Feed, WireOfEvent, EventFits;
    assert forall i :: 0 <= i < |events| ==> !events[i].Started? && !events[i].Ended? by { WireEventsOnly(events, limits, w); }
    var idle := Parser(Records, [], None);
    if events == [] {
      NothingFed(limits, idle);
    } else {
      EventRoundTrip(limits, events[0], w);
      EventsRoundTrip(limits, events[1..], w);
      PushAppend(limits, idle, WireOfEvent(events[0], w), WireOfEvents(events[1..], w));
      assert events == [events[0]] + events[1..];
    }
  }

  lemma WireEventsOnly(events: seq<ControlEvent>, limits: ParserLimits, w: Writer)
    requires AllFit(events, limits, w)
    ensures forall i :: 0 <= i < |events| ==> !events[i].Started? && !events[i].Ended?
  {
    forall i | 0 <= i < |events|
      ensures !events[i].Started? && !events[i].Ended?
    {
      assert EventFits(events[i], limits, w);
    }
  }

  lemma {:induction false} StartMarkerIsMatched(limits: ParserLimits, matched: nat)
    requires matched <= |CONTROL_START|
    ensures Push(limits, FRESH, CONTROL_START[..matched])
         == if matched == |CONTROL_START| then Parsed(Parser(Records, [], None), [Started])
            else Parsed(Parser(Start(matched), [], None), [])
  {
    if matched > 0 {
      StartMarkerIsMatched(limits, matched - 1);
      assert CONTROL_START[..matched][..matched - 1] == CONTROL_START[..matched - 1];
    }
  }

  lemma EndMarker(limits: ParserLimits)
    ensures Push(limits, Parser(Records, [], None), [ESCAPE, BACKSLASH]) == Parsed(Parser(AtEnd, [], None), [Ended])
  {
    var p := Parser(Records, [], None);
    NothingFed(limits, p);
    assert [ESCAPE, BACKSLASH][..1] == [ESCAPE] && [ESCAPE][..0] == [];
    assert Push(limits, p, [ESCAPE]) == Parsed(p.(state := PossibleStringTerminator), []);
  }

  /**
    * The control-mode round trip: every sequence of events, written within the limits and cut into
    * any chunks, parses back to exactly those events between the start and the end of the stream.
    */
  lemma ControlStreamRoundTrip(limits: ParserLimits, events: seq<ControlEvent>, w: Writer, chunks: seq<Bytes>)
    requires WriterIsSafe(w) && AllFit(events, limits, w)
    requires (forall i :: 0 <= i < |events| ==> !events[i].Started? && !events[i].Ended?)
    requires Concat(chunks) == Wire(events, w)
    ensures PushChunks(limits, FRESH, chunks) == Parsed(Parser(AtEnd, [], None), [Started] + events + [Ended])
  {
    hide Feed, WireOfEvents, PushChunks;
    ChunkingIsIrrelevant(limits, FRESH, chunks);
    StartMarkerIsMatched(limits, |CONTROL_START|);
    assert CONTROL_START[..|CONTROL_START|] == CONTROL_START;
    EventsRoundTrip(limits, events, w);
    EndMarker(limits);
    PushAppend(limits, FRESH, CONTROL_START, WireOfEvents(events, w));
    PushAppend(limits, FRESH, CONTROL_START + WireOfEvents(events, w), [ESCAPE, BACKSLASH]);
  }
}

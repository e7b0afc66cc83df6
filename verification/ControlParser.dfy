/** The streaming tmux control-mode parser: what one byte does, and the class that does it. */
module ControlParser {
  import opened Common
  import opened ControlRecords

  // ESC P 1 0 0 0 p
  const CONTROL_START: Bytes := [0x1b, 0x50, 0x31, 0x30, 0x30, 0x30, 0x70]
  // %begin
  const BEGIN: Bytes := [0x25, 0x62, 0x65, 0x67, 0x69, 0x6e]
  // %end
  const END: Bytes := [0x25, 0x65, 0x6e, 0x64]
  // %error
  const ERROR: Bytes := [0x25, 0x65, 0x72, 0x72, 0x6f, 0x72]
  // %output
  const OUTPUT: Bytes := [0x25, 0x6f, 0x75, 0x74, 0x70, 0x75, 0x74]
  // %extended-output
  const EXTENDED_OUTPUT: Bytes :=
    [0x25, 0x65, 0x78, 0x74, 0x65, 0x6e, 0x64, 0x65, 0x64, 0x2d, 0x6f, 0x75, 0x74, 0x70, 0x75, 0x74]
  // %pause
  const PAUSE: Bytes := [0x25, 0x70, 0x61, 0x75, 0x73, 0x65]
  // %continue
  const CONTINUE: Bytes := [0x25, 0x63, 0x6f, 0x6e, 0x74, 0x69, 0x6e, 0x75, 0x65]
  // %exit
  const EXIT: Bytes := [0x25, 0x65, 0x78, 0x69, 0x74]

  datatype ParserLimits = ParserLimits(
    maxLineBytes: nat, maxCommandOutputBytes: nat, maxCommandOutputLines: nat, maxNotificationBytes: nat)

  datatype CommandStatus = Success | Error

  datatype ControlEvent =
    | Started
    | Command(tag: CommandTag, status: CommandStatus, output: seq<Bytes>)
    | Output(pane: nat, bytes: Bytes)
    | ExtendedOutput(pane: nat, ageMs: nat, futureFields: seq<Bytes>, bytes: Bytes)
    | Pause(pane: nat)
    | Continue(pane: nat)
    | Exit(reason: Option<Bytes>)
    | Notification(name: Bytes, arguments: Bytes)
    | Ended

  datatype PendingCommand = PendingCommand(tag: CommandTag, output: seq<Bytes>, outputBytes: nat)

  datatype ParseState = Start(matched: nat) | Records | PossibleStringTerminator | AtEnd | Poisoned

  datatype Parser = Parser(state: ParseState, line: Bytes, pending: Option<PendingCommand>)

  datatype Outcome = Parsed(parser: Parser, events: seq<ControlEvent>) | Rejected(error: ControlParseError)

  const FRESH := Parser(Start(0), [], None)
  const POISONED := Parser(Poisoned, [], None)

  predicate Matching(p: Parser) {
    p.state.Start? ==> p.state.matched < |CONTROL_START|
  }

  // ----- records -----

  predicate Has(line: Bytes, key: Bytes) {
    key + [SPACE] <= line
  }

  function After(line: Bytes, key: Bytes): Bytes
    requires Has(line, key)
  {
    line[|key| + 1..]
  }

  predicate Terminates(line: Bytes, key: Bytes, tag: CommandTag) {
    Has(line, key) && ParseCommandTag(After(line, key)) == Ok(tag)
  }

  function ParseOutput(rest: Bytes): Result<ControlEvent, ControlParseError> {
    var split := SplitOnceSpace(rest);
    if split.Err? then Err(split.error)
    else
      var pane := ParsePaneId(split.ok.0);
      if pane.Err? then Err(pane.error)
      else
        var bytes := DecodeOctal(split.ok.1);
        if bytes.Err? then Err(bytes.error) else Ok(Output(pane.ok, bytes.ok))
  }

  function ParseExtendedOutput(rest: Bytes): Result<ControlEvent, ControlParseError> {
    match FindSeparator(rest)
    case None => Err(MalformedRecord)
    case Some(separator) =>
      if separator + 3 > |rest| then Err(MalformedRecord)
      else
        var fields := SplitSpaces(rest[..separator]);
        var future := if |fields| > 2 then fields[2..] else [];
        if [] in future then Err(MalformedRecord)
        else
          var pane := ParsePaneId(fields[0]);
          if pane.Err? then Err(pane.error)
          else
            var age := ParseU64(if |fields| > 1 then Some(fields[1]) else None, ExtendedOutputAge);
            if age.Err? then Err(age.error)
            else
              var bytes := DecodeOctal(rest[separator + 3..]);
              if bytes.Err? then Err(bytes.error)
              else Ok(ExtendedOutput(pane.ok, age.ok, future, bytes.ok))
  }

  function ParseSinglePane(rest: Bytes): Result<nat, ControlParseError> {
    if SPACE in rest then Err(MalformedRecord) else ParsePaneId(rest)
  }

  predicate IsNameByte(b: Byte) {
    0x61 <= b <= 0x7a || IsDigit(b) || b == HYPHEN
  }

  predicate IsName(name: Bytes) {
    name != [] && forall i :: 0 <= i < |name| ==> IsNameByte(name[i])
  }

  function ParseNotification(line: Bytes): Result<ControlEvent, ControlParseError>
    requires line != []
  {
    var body := line[1..];
    var index := IndexOf(body, SPACE);
    var name := if index.Some? then body[..index.value] else body;
    var arguments := if index.Some? then body[index.value + 1..] else [];
    if IsName(name) then Ok(Notification(name, arguments)) else Err(MalformedRecord)
  }

  predicate BareKeyword(line: Bytes) {
    line in [BEGIN, END, ERROR, OUTPUT, EXTENDED_OUTPUT, PAUSE, CONTINUE]
  }

  /** A record outside a command block, other than the start of one. */
  function ParseRecord(limits: ParserLimits, line: Bytes): Result<ControlEvent, ControlParseError> {
    if Has(line, END) || Has(line, ERROR) then Err(UnexpectedCommandTerminator)
    else if BareKeyword(line) then Err(MalformedRecord)
    else if line == [] || line[0] != PERCENT then Err(MalformedRecord)
    else if |line| > limits.maxNotificationBytes then Err(NotificationTooLong(limits.maxNotificationBytes))
    else if Has(line, OUTPUT) then ParseOutput(After(line, OUTPUT))
    else if Has(line, EXTENDED_OUTPUT) then ParseExtendedOutput(After(line, EXTENDED_OUTPUT))
    else if Has(line, PAUSE) then
      var pane := ParseSinglePane(After(line, PAUSE));
      if pane.Err? then Err(pane.error) else Ok(Pause(pane.ok))
    else if Has(line, CONTINUE) then
      var pane := ParseSinglePane(After(line, CONTINUE));
      if pane.Err? then Err(pane.error) else Ok(Continue(pane.ok))
    else if line == EXIT then Ok(Exit(None))
    else if Has(line, EXIT) then
      var reason := After(line, EXIT);
      Ok(Exit(if reason == [] then None else Some(reason)))
    else ParseNotification(line)
  }

  /** A line inside a command block: its own terminator, or payload. */
  function CommandLine(limits: ParserLimits, pending: PendingCommand, line: Bytes): Outcome {
    if Terminates(line, END, pending.tag) then
      Parsed(Parser(Records, [], None), [Command(pending.tag, Success, pending.output)])
    else if Terminates(line, ERROR, pending.tag) then
      Parsed(Parser(Records, [], None), [Command(pending.tag, Error, pending.output)])
    else if |pending.output| == limits.maxCommandOutputLines then
      Rejected(TooManyCommandOutputLines(limits.maxCommandOutputLines))
    else if pending.outputBytes + |line| > limits.maxCommandOutputBytes then
      Rejected(CommandOutputTooLong(limits.maxCommandOutputBytes))
    else
      Parsed(Parser(Records, [],
                    Some(PendingCommand(pending.tag, pending.output + [line], pending.outputBytes + |line|))), [])
  }

  function ProcessLine(limits: ParserLimits, pending: Option<PendingCommand>, line: Bytes): Outcome {
    if pending.Some? then CommandLine(limits, pending.value, line)
    else if Has(line, BEGIN) then
      match ParseCommandTag(After(line, BEGIN))
      case Ok(tag) => Parsed(Parser(Records, [], Some(PendingCommand(tag, [], 0))), [])
      case Err(e) => Rejected(e)
    else
      match ParseRecord(limits, line)
      case Ok(event) => Parsed(Parser(Records, [], None), [event])
      case Err(e) => Rejected(e)
  }

  function WithoutCarriageReturns(line: Bytes): Bytes {
    if line != [] && line[|line| - 1] == CARRIAGE_RETURN then WithoutCarriageReturns(line[..|line| - 1]) else line
  }

  function PushByte(limits: ParserLimits, p: Parser, byte: Byte): Outcome
    requires Matching(p)
  {
    match p.state
    case Start(matched) =>
      if byte != CONTROL_START[matched] then Rejected(InvalidStartMarker(matched))
      else if matched + 1 == |CONTROL_START| then Parsed(p.(state := Records), [Started])
      else Parsed(p.(state := Start(matched + 1)), [])
    case Records =>
      if p.line == [] && byte == ESCAPE && p.pending.None? then Parsed(p.(state := PossibleStringTerminator), [])
      else if byte == LINE_FEED then ProcessLine(limits, p.pending, WithoutCarriageReturns(p.line))
      else if |p.line| == limits.maxLineBytes then Rejected(LineTooLong(limits.maxLineBytes))
      else Parsed(p.(line := p.line + [byte]), [])
    case PossibleStringTerminator =>
      if byte != BACKSLASH then Rejected(InvalidStringTerminator)
      else Parsed(p.(state := AtEnd), [Ended])
    case AtEnd => Rejected(TrailingData)
    case Poisoned => Rejected(ParserPoisoned)
  }

  lemma PushByteKeepsMatching(limits: ParserLimits, p: Parser, byte: Byte)
    requires Matching(p)
    ensures PushByte(limits, p, byte).Parsed? ==> Matching(PushByte(limits, p, byte).parser)
  {
  }

  predicate Good(o: Outcome) {
    o.Parsed? ==> Matching(o.parser)
  }

  /** What happens next, after an outcome that may already be a rejection. */
  function Next(limits: ParserLimits, o: Outcome, byte: Byte): (r: Outcome)
    requires Good(o)
    ensures Good(r)
  {
    if o.Rejected? then o
    else
      PushByteKeepsMatching(limits, o.parser, byte);
      match PushByte(limits, o.parser, byte)
      case Parsed(q, events) => Parsed(q, o.events + events)
      case Rejected(e) => Rejected(e)
  }

  function Feed(limits: ParserLimits, o: Outcome, bytes: Bytes): (r: Outcome)
    requires Good(o)
    ensures Good(r)
  {
    if bytes == [] then o else Next(limits, Feed(limits, o, bytes[..|bytes| - 1]), bytes[|bytes| - 1])
  }

  /** The result of parsing a whole byte string from a given state. */
  function Push(limits: ParserLimits, p: Parser, bytes: Bytes): (r: Outcome)
    requires Matching(p)
    ensures Good(r)
  {
    Feed(limits, Parsed(p, []), bytes)
  }

  function Finish(p: Parser): Result<(), ControlParseError> {
    match p.state
    case AtEnd => Ok(())
    case Poisoned => Err(ParserPoisoned)
    case Start(_) => Err(Unterminated(StartMarker))
    case PossibleStringTerminator => Err(Unterminated(StringTerminator))
    case Records =>
      if p.line != [] then Err(Unterminated(Record))
      else if p.pending.Some? then Err(Unterminated(UnfinishedCommand))
      else Err(Unterminated(ControlStream))
  }

  // ----- feeding in pieces -----

  lemma {:induction false} FeedAppend(limits: ParserLimits, o: Outcome, a: Bytes, b: Bytes)
    requires Good(o)
    ensures Feed(limits, o, a + b) == Feed(limits, Feed(limits, o, a), b)
  {
    hide Next, PushByte;
    if b == [] {
      assert a + b == a;
    } else {
      var shorter := b[..|b| - 1];
      FeedAppend(limits, o, a, shorter);
      assert (a + b)[..|a + b| - 1] == a + shorter;
    }
  }

  lemma {:induction false} FeedRejected(limits: ParserLimits, e: ControlParseError, bytes: Bytes)
    ensures Feed(limits, Rejected(e), bytes) == Rejected(e)
  {
    hide PushByte;
    if bytes != [] {
      FeedRejected(limits, e, bytes[..|bytes| - 1]);
    }
  }

  function Prepended(events: seq<ControlEvent>, o: Outcome): (r: Outcome)
    ensures Good(o) ==> Good(r)
  {
    match o
    case Parsed(q, more) => Parsed(q, events + more)
    case Rejected(e) => Rejected(e)
  }

  /** Earlier events do not influence what later bytes mean. */
  lemma {:induction false} FeedPrepends(limits: ParserLimits, p: Parser, events: seq<ControlEvent>, bytes: Bytes)
    requires Matching(p)
    ensures Feed(limits, Parsed(p, events), bytes) == Prepended(events, Push(limits, p, bytes))
  {
    hide PushByte;
    if bytes == [] {
      assert events + [] == events;
    } else {
      FeedPrepends(limits, p, events, bytes[..|bytes| - 1]);
      var o := Push(limits, p, bytes[..|bytes| - 1]);
      if o.Parsed? {
        var step := PushByte(limits, o.parser, bytes[|bytes| - 1]);
        if step.Parsed? {
          Reassociate(events, o.events, step.events);
        }
      }
    }
  }

  lemma PushAppend(limits: ParserLimits, p: Parser, a: Bytes, b: Bytes)
    requires Matching(p)
    ensures Push(limits, p, a + b) ==
            match Push(limits, p, a)
            case Parsed(q, events) => Prepended(events, Push(limits, q, b))
            case Rejected(e) => Rejected(e)
  {
    hide Feed;
    FeedAppend(limits, Parsed(p, []), a, b);
    match Push(limits, p, a) {
      case Parsed(q, events) => FeedPrepends(limits, q, events, b);
      case Rejected(e) => FeedRejected(limits, e, b);
    }
  }

  /** Successive calls, collecting events until the first error. */
  function PushChunks(limits: ParserLimits, p: Parser, chunks: seq<Bytes>): (r: Outcome)
    requires Matching(p)
    decreases |chunks|
  {
    if chunks == [] then Parsed(p, [])
    else
      match Push(limits, p, chunks[0])
      case Parsed(q, events) =>
        assert Good(Push(limits, p, chunks[0]));
        Prepended(events, PushChunks(limits, q, chunks[1..]))
      case Rejected(e) => Rejected(e)
  }

  /** Any fragmentation gives the same events and final state, or the same error. */
  lemma {:induction false} ChunkingIsIrrelevant(limits: ParserLimits, p: Parser, chunks: seq<Bytes>)
    requires Matching(p)
    ensures PushChunks(limits, p, chunks) == Push(limits, p, Concat(chunks))
    decreases |chunks|
  {
    hide Feed;
    if chunks == [] {
      NothingFed(limits, p);
    } else {
      PushAppend(limits, p, chunks[0], Concat(chunks[1..]));
      var first := Push(limits, p, chunks[0]);
      if first.Parsed? {
        assert Good(first);
        ChunkingIsIrrelevant(limits, first.parser, chunks[1..]);
      }
    }
  }

  lemma NothingFed(limits: ParserLimits, p: Parser)
    requires Matching(p)
    ensures Push(limits, p, []) == Parsed(p, [])
  {
  }

  lemma {:induction false} NothingFollowsTheEnd(limits: ParserLimits, p: Parser, bytes: Bytes)
    requires Matching(p) && bytes != []
    ensures p.state == AtEnd ==> Push(limits, p, bytes) == Rejected(TrailingData)
  {
    if |bytes| > 1 {
      NothingFollowsTheEnd(limits, p, bytes[..|bytes| - 1]);
    } else {
      NothingFed(limits, p);
    }
  }

  /** A stream that is cut off before its end is always reported by `Finish`. */
  lemma TruncationIsReported(limits: ParserLimits, head: Bytes, rest: Bytes)
    requires rest != [] && Push(limits, FRESH, head + rest).Parsed?
    ensures Push(limits, FRESH, head).Parsed?
    ensures Finish(Push(limits, FRESH, head).parser).Err?
  {
    PushAppend(limits, FRESH, head, rest);
    var o := Push(limits, FRESH, head);
    assert Good(o);
    if o.Parsed? {
      NothingFollowsTheEnd(limits, o.parser, rest);
    }
  }

  // ----- the parser object -----

  class TmuxControlParser {
    const limits: ParserLimits
    var state: ParseState
    var line: Bytes
    var pendingCommand: Option<PendingCommand>

    function Abstract(): Parser
      reads this
    {
      Parser(state, line, pendingCommand)
    }

    constructor (limits: ParserLimits)
      ensures this.limits == limits && Abstract() == FRESH
    {
      this.limits := limits;
      state, line, pendingCommand := Start(0), [], None;
    }

    method Reset()
      modifies this
      ensures Abstract() == FRESH
    {
      state, line, pendingCommand := Start(0), [], None;
    }

    method FinishCommand(status: CommandStatus) returns (event: ControlEvent)
      requires pendingCommand.Some?
      modifies `pendingCommand
      ensures pendingCommand == None
      ensures event == Command(old(pendingCommand).value.tag, status, old(pendingCommand).value.output)
    {
      var pending := pendingCommand.value;
      pendingCommand := None;
      event := Command(pending.tag, status, pending.output);
    }

    method ProcessLineInPlace(record: Bytes) returns (result: Result<seq<ControlEvent>, ControlParseError>)
      requires state == Records && line == []
      modifies `pendingCommand
      ensures match ProcessLine(limits, old(pendingCommand), record)
              case Parsed(q, events) => Abstract() == q && result == Ok(events)
              case Rejected(e) => result == Err(e)
    {
      if pendingCommand.Some? {
        var pending := pendingCommand.value;
        if Has(record, END) && ParseCommandTag(After(record, END)) == Ok(pending.tag) {
          var event := FinishCommand(Success);
          return Ok([event]);
        }
        if Has(record, ERROR) && ParseCommandTag(After(record, ERROR)) == Ok(pending.tag) {
          var event := FinishCommand(Error);
          return Ok([event]);
        }
        if |pending.output| == limits.maxCommandOutputLines {
          return Err(TooManyCommandOutputLines(limits.maxCommandOutputLines));
        }
        var outputBytes := pending.outputBytes + |record|;
        if outputBytes > limits.maxCommandOutputBytes {
          return Err(CommandOutputTooLong(limits.maxCommandOutputBytes));
        }
        pendingCommand := Some(pending.(output := pending.output + [record], outputBytes := outputBytes));
        return Ok([]);
      }
      if Has(record, BEGIN) {
        var tag := ParseCommandTag(After(record, BEGIN));
        if tag.Err? {
          return Err(tag.error);
        }
        pendingCommand := Some(PendingCommand(tag.ok, [], 0));
        return Ok([]);
      }
      var event := ParseRecord(limits, record);
      if event.Err? {
        return Err(event.error);
      }
      return Ok([event.ok]);
    }

    method PushByteInPlace(byte: Byte) returns (result: Result<seq<ControlEvent>, ControlParseError>)
      requires Matching(Abstract())
      modifies this
      ensures match PushByte(limits, old(Abstract()), byte)
              case Parsed(q, events) => Abstract() == q && result == Ok(events)
              case Rejected(e) => result == Err(e)
    {
      hide ProcessLine;
      match state {
        case Start(matched) =>
          if byte != CONTROL_START[matched] {
            return Err(InvalidStartMarker(matched));
          }
          if matched + 1 == |CONTROL_START| {
            state := Records;
            return Ok([Started]);
          }
          state := Start(matched + 1);
          return Ok([]);
        case Records =>
          if line == [] && byte == ESCAPE && pendingCommand.None? {
            state := PossibleStringTerminator;
            return Ok([]);
          }
          if byte == LINE_FEED {
            ghost var whole := line;
            while line != [] && line[|line| - 1] == CARRIAGE_RETURN
              invariant state == Records && pendingCommand == old(pendingCommand)
              invariant WithoutCarriageReturns(line) == WithoutCarriageReturns(whole)
              decreases |line|
            {
              line := line[..|line| - 1];
            }
            var record := line;
            line := [];
            result := ProcessLineInPlace(record);
            return;
          }
          if |line| == limits.maxLineBytes {
            return Err(LineTooLong(limits.maxLineBytes));
          }
          line := line + [byte];
          return Ok([]);
        case PossibleStringTerminator =>
          if byte != BACKSLASH {
            return Err(InvalidStringTerminator);
          }
          state := AtEnd;
          return Ok([Ended]);
        case AtEnd =>
          return Err(TrailingData);
        case Poisoned =>
          return Err(ParserPoisoned);
      }
    }

    /** One call: all events of the bytes, or the first error, after which the parser stays poisoned. */
    method PushBytes(bytes: Bytes) returns (result: Result<seq<ControlEvent>, ControlParseError>)
      requires Matching(Abstract())
      modifies this
      ensures old(state) == Poisoned ==> result == Err(ParserPoisoned) && Abstract() == old(Abstract())
      ensures old(state) != Poisoned ==>
                match Push(limits, old(Abstract()), bytes)
                case Parsed(q, events) => Abstract() == q && result == Ok(events)
                case Rejected(e) => Abstract() == POISONED && result == Err(e)
      ensures Matching(Abstract())
    {
      if state == Poisoned {
        return Err(ParserPoisoned);
      }
      hide PushByte;
      ghost var start := Parsed(Abstract(), []);
      var events := [];
      for i := 0 to |bytes|
        invariant Matching(Abstract())
        invariant Feed(limits, start, bytes[..i]) == Parsed(Abstract(), events)
      {
        assert bytes[..i + 1][..i] == bytes[..i];
        ghost var before := Abstract();
        PushByteKeepsMatching(limits, before, bytes[i]);
        var step := PushByteInPlace(bytes[i]);
        if step.Err? {
          assert Feed(limits, start, bytes[..i + 1]) == Rejected(step.error);
          FeedAppend(limits, start, bytes[..i + 1], bytes[i + 1..]);
          FeedRejected(limits, step.error, bytes[i + 1..]);
          assert bytes == bytes[..i + 1] + bytes[i + 1..];
          state, line, pendingCommand := Poisoned, [], None;
          return Err(step.error);
        }
        events := events + step.ok;
      }
      assert bytes[..|bytes|] == bytes;
      return Ok(events);
    }

    method FinishStream() returns (result: Result<(), ControlParseError>)
      modifies this
      ensures result == Finish(old(Abstract()))
      ensures Abstract() == if result.Ok? then old(Abstract()) else POISONED
    {
      result := Finish(Abstract());
      if result.Err? {
        state, line, pendingCommand := Poisoned, [], None;
      }
    }
  }
}

/** The fields of a tmux control-mode record: numbers, pane ids, space-separated fields and octal escapes. */
module ControlRecords {
  import opened Common

  const LINE_FEED: Byte := 0x0a
  const CARRIAGE_RETURN: Byte := 0x0d
  const ESCAPE: Byte := 0x1b
  const SPACE: Byte := 0x20
  const PERCENT: Byte := 0x25
  const HYPHEN: Byte := 0x2d
  const DIGIT_ZERO: Byte := 0x30
  const COLON: Byte := 0x3a
  const BACKSLASH: Byte := 0x5c

  const MAX_U64: nat := 0xffff_ffff_ffff_ffff

  datatype NumericField = CommandTimestamp | CommandNumber | CommandFlags | ExtendedOutputAge

  datatype UnterminatedState = StartMarker | Record | UnfinishedCommand | ControlStream | StringTerminator

  datatype ControlParseError =
    | InvalidStartMarker(offset: nat)
    | InvalidStringTerminator
    | TrailingData
    | ParserPoisoned
    | MalformedRecord
    | InvalidNumber(field: NumericField)
    | UnexpectedCommandTerminator
    | InvalidPaneId
    | InvalidOctalEscape
    | LineTooLong(limit: nat)
    | CommandOutputTooLong(limit: nat)
    | TooManyCommandOutputLines(limit: nat)
    | NotificationTooLong(limit: nat)
    | Unterminated(state: UnterminatedState)

  datatype CommandTag = CommandTag(timestamp: nat, number: nat, flags: nat)

  // ----- numbers -----

  predicate IsDigit(b: Byte) {
    0x30 <= b <= 0x39
  }

  predicate AllDigits(bytes: Bytes) {
    forall i :: 0 <= i < |bytes| ==> IsDigit(bytes[i])
  }

  function DecimalValue(digits: Bytes): nat
    requires AllDigits(digits)
  {
    if digits == [] then 0
    else DecimalValue(digits[..|digits| - 1]) * 10 + (digits[|digits| - 1] - DIGIT_ZERO)
  }

  function ParseDigits(bytes: Bytes): Option<nat> {
    if bytes == [] || !AllDigits(bytes) || DecimalValue(bytes) > MAX_U64 then None
    else Some(DecimalValue(bytes))
  }

  function ParseU64(bytes: Option<Bytes>, field: NumericField): Result<nat, ControlParseError> {
    if bytes.None? then Err(MalformedRecord)
    else
      match ParseDigits(bytes.value)
      case None => Err(InvalidNumber(field))
      case Some(n) => Ok(n)
  }

  function ParsePaneId(bytes: Bytes): Result<nat, ControlParseError> {
    if bytes == [] || bytes[0] != PERCENT then Err(InvalidPaneId)
    else
      match ParseDigits(bytes[1..])
      case None => Err(InvalidPaneId)
      case Some(n) => Ok(n)
  }

  /** The canonical decimal text of a number. */
  function Decimal(n: nat): (text: Bytes)
    ensures text != [] && AllDigits(text)
  {
    if n < 10 then [DIGIT_ZERO + n] else Decimal(n / 10) + [DIGIT_ZERO + n % 10]
  }

  lemma {:induction false} DecimalRoundTrip(n: nat)
    ensures DecimalValue(Decimal(n)) == n
  {
    if n >= 10 {
      DecimalRoundTrip(n / 10);
      assert Decimal(n)[..|Decimal(n)| - 1] == Decimal(n / 10);
    }
  }

  // ----- fields -----

  function IndexOf(bytes: Bytes, wanted: Byte): (index: Option<nat>)
    ensures index.Some? ==> index.value < |bytes| && bytes[index.value] == wanted && wanted !in bytes[..index.value]
    ensures index.None? ==> wanted !in bytes
  {
    if bytes == [] then None
    else if bytes[0] == wanted then Some(0)
    else
      match IndexOf(bytes[1..], wanted)
      case None => None
      case Some(i) =>
        assert bytes[..i + 1] == [bytes[0]] + bytes[1..][..i];
        Some(i + 1)
  }

  lemma {:induction false} FirstOccurrence(head: Bytes, wanted: Byte, tail: Bytes)
    requires wanted !in head
    ensures IndexOf(head + [wanted] + tail, wanted) == Some(|head|)
  {
    var all := head + [wanted] + tail;
    if head != [] {
      FirstOccurrence(head[1..], wanted, tail);
      assert all[1..] == head[1..] + [wanted] + tail;
      assert head[0] in head;
    }
  }

  function SplitSpaces(bytes: Bytes): (fields: seq<Bytes>)
    ensures |fields| >= 1
    decreases |bytes|
  {
    match IndexOf(bytes, SPACE)
    case None => [bytes]
    case Some(i) => [bytes[..i]] + SplitSpaces(bytes[i + 1..])
  }

  function JoinSpaces(fields: seq<Bytes>): Bytes
    requires fields != []
  {
    if |fields| == 1 then fields[0] else fields[0] + [SPACE] + JoinSpaces(fields[1..])
  }

  lemma {:induction false} SplitInvertsJoin(fields: seq<Bytes>)
    requires fields != [] && forall i :: 0 <= i < |fields| ==> SPACE !in fields[i]
    ensures SplitSpaces(JoinSpaces(fields)) == fields
  {
    if |fields| > 1 {
      var rest := JoinSpaces(fields[1..]);
      SplitInvertsJoin(fields[1..]);
      FirstOccurrence(fields[0], SPACE, rest);
      var all := fields[0] + [SPACE] + rest;
      assert all[..|fields[0]|] == fields[0] && all[|fields[0]| + 1..] == rest;
    } else {
      assert fields == [fields[0]];
    }
  }

  function SplitOnceSpace(bytes: Bytes): Result<(Bytes, Bytes), ControlParseError> {
    match IndexOf(bytes, SPACE)
    case None => Err(MalformedRecord)
    case Some(i) => Ok((bytes[..i], bytes[i + 1..]))
  }

  function ParseCommandTag(bytes: Bytes): Result<CommandTag, ControlParseError> {
    var fields := SplitSpaces(bytes);
    var timestamp := ParseU64(Some(fields[0]), CommandTimestamp);
    if timestamp.Err? then Err(timestamp.error)
    else
      var number := ParseU64(if |fields| > 1 then Some(fields[1]) else None, CommandNumber);
      if number.Err? then Err(number.error)
      else
        var flags := ParseU64(if |fields| > 2 then Some(fields[2]) else None, CommandFlags);
        if flags.Err? then Err(flags.error)
        else if |fields| > 3 then Err(MalformedRecord)
        else Ok(CommandTag(timestamp.ok, number.ok, flags.ok))
  }

  function TagText(tag: CommandTag): Bytes {
    JoinSpaces([Decimal(tag.timestamp), Decimal(tag.number), Decimal(tag.flags)])
  }

  predicate TagFits(tag: CommandTag) {
    tag.timestamp <= MAX_U64 && tag.number <= MAX_U64 && tag.flags <= MAX_U64
  }

  lemma ParsesDecimal(n: nat)
    requires n <= MAX_U64
    ensures ParseDigits(Decimal(n)) == Some(n)
    ensures SPACE !in Decimal(n) && LINE_FEED !in Decimal(n) && CARRIAGE_RETURN !in Decimal(n)
  {
    DecimalRoundTrip(n);
  }

  lemma TagRoundTrip(tag: CommandTag)
    requires TagFits(tag)
    ensures ParseCommandTag(TagText(tag)) == Ok(tag)
  {
    ParsesDecimal(tag.timestamp);
    ParsesDecimal(tag.number);
    ParsesDecimal(tag.flags);
    SplitInvertsJoin([Decimal(tag.timestamp), Decimal(tag.number), Decimal(tag.flags)]);
  }

  function PaneText(pane: nat): Bytes {
    [PERCENT] + Decimal(pane)
  }

  lemma PaneRoundTrip(pane: nat)
    requires pane <= MAX_U64
    ensures ParsePaneId(PaneText(pane)) == Ok(pane)
    ensures SPACE !in PaneText(pane) && LINE_FEED !in PaneText(pane) && CARRIAGE_RETURN !in PaneText(pane)
  {
    ParsesDecimal(pane);
    assert PaneText(pane)[1..] == Decimal(pane);
  }

  // ----- octal escapes -----

  predicate IsOctalDigit(b: Byte) {
    0x30 <= b <= 0x37
  }

  function OctalValue(digits: Bytes): nat
    requires |digits| == 3 && IsOctalDigit(digits[0]) && IsOctalDigit(digits[1]) && IsOctalDigit(digits[2])
  {
    (digits[0] - DIGIT_ZERO) * 64 + (digits[1] - DIGIT_ZERO) * 8 + (digits[2] - DIGIT_ZERO)
  }

  predicate StartsWithOctalEscape(bytes: Bytes) {
    && |bytes| >= 4
    && IsOctalDigit(bytes[1]) && IsOctalDigit(bytes[2]) && IsOctalDigit(bytes[3])
    && OctalValue(bytes[1..4]) < 256
  }

  function DecodeOctal(bytes: Bytes): Result<Bytes, ControlParseError> {
    if bytes == [] then Ok([])
    else if bytes[0] != BACKSLASH then
      match DecodeOctal(bytes[1..])
      case Ok(rest) => Ok([bytes[0]] + rest)
      case Err(e) => Err(e)
    else if !StartsWithOctalEscape(bytes) then Err(InvalidOctalEscape)
    else
      match DecodeOctal(bytes[4..])
      case Ok(rest) => Ok([OctalValue(bytes[1..4])] + rest)
      case Err(e) => Err(e)
  }

  function OctalEscape(b: Byte): Bytes {
    [BACKSLASH, DIGIT_ZERO + b / 64, DIGIT_ZERO + b / 8 % 8, DIGIT_ZERO + b % 8]
  }

  /** `text` spells `bytes`: each byte stands for itself unless it is a backslash, or is escaped. */
  predicate Spells(text: Bytes, bytes: Bytes)
    decreases |bytes|
  {
    if bytes == [] then text == []
    else
      || (text != [] && text[0] == bytes[0] != BACKSLASH && Spells(text[1..], bytes[1..]))
      || (OctalEscape(bytes[0]) <= text && Spells(text[4..], bytes[1..]))
  }

  lemma EscapeOfValue(text: Bytes)
    requires text != [] && text[0] == BACKSLASH && StartsWithOctalEscape(text)
    ensures OctalEscape(OctalValue(text[1..4])) <= text
  {
    var value := OctalValue(text[1..4]);
    var low, middle, high := text[3] - DIGIT_ZERO, text[2] - DIGIT_ZERO, text[1] - DIGIT_ZERO;
    assert value == high * 64 + middle * 8 + low;
    assert value / 8 == high * 8 + middle;
  }

  lemma ValueOfEscape(text: Bytes, b: Byte)
    requires OctalEscape(b) <= text
    ensures text != [] && text[0] == BACKSLASH && StartsWithOctalEscape(text) && OctalValue(text[1..4]) == b
  {
    var e := OctalEscape(b);
    assert text[0] == e[0] && text[1] == e[1] && text[2] == e[2] && text[3] == e[3];
    assert b / 64 < 4 && b == b / 64 * 64 + b / 8 % 8 * 8 + b % 8;
  }

  /** Decoding succeeds on exactly the spellings of its result. */
  lemma {:induction false} DecodesExactlySpellings(text: Bytes, bytes: Bytes)
    ensures DecodeOctal(text) == Ok(bytes) <==> Spells(text, bytes)
    decreases |text|
  {
    if text != [] {
      if text[0] != BACKSLASH {
        if bytes != [] {
          DecodesExactlySpellings(text[1..], bytes[1..]);
          assert bytes == [bytes[0]] + bytes[1..];
          if OctalEscape(bytes[0]) <= text {
            ValueOfEscape(text, bytes[0]);
          }
        }
      } else {
        if bytes != [] {
          assert bytes == [bytes[0]] + bytes[1..];
          if OctalEscape(bytes[0]) <= text {
            ValueOfEscape(text, bytes[0]);
          }
          if StartsWithOctalEscape(text) {
            EscapeOfValue(text);
            DecodesExactlySpellings(text[4..], bytes[1..]);
          }
        }
      }
    }
  }

  /** Any writer that escapes at least the backslash. */
  function EncodeOctal(bytes: Bytes, escapes: Byte -> bool): Bytes {
    if bytes == [] then []
    else (if escapes(bytes[0]) then OctalEscape(bytes[0]) else [bytes[0]]) + EncodeOctal(bytes[1..], escapes)
  }

  lemma {:induction false} OctalRoundTrip(bytes: Bytes, escapes: Byte -> bool)
    requires escapes(BACKSLASH)
    ensures DecodeOctal(EncodeOctal(bytes, escapes)) == Ok(bytes)
  {
    if bytes != [] {
      OctalRoundTrip(bytes[1..], escapes);
      var rest := EncodeOctal(bytes[1..], escapes);
      var text := EncodeOctal(bytes, escapes);
      DecodesExactlySpellings(rest, bytes[1..]);
      if escapes(bytes[0]) {
        assert text[4..] == rest && OctalEscape(bytes[0]) <= text;
      } else {
        assert text[1..] == rest;
      }
      DecodesExactlySpellings(text, bytes);
    }
  }

  lemma {:induction false} EncodingAvoids(bytes: Bytes, escapes: Byte -> bool, avoided: Byte)
    requires escapes(avoided) && avoided < DIGIT_ZERO
    ensures avoided !in EncodeOctal(bytes, escapes)
  {
    if bytes != [] {
      EncodingAvoids(bytes[1..], escapes, avoided);
    }
  }

  function AfterDecoded(decoded: Bytes, rest: Result<Bytes, ControlParseError>): Result<Bytes, ControlParseError> {
    match rest
    case Ok(bytes) => Ok(decoded + bytes)
    case Err(e) => Err(e)
  }

  lemma NothingDecodedYet(result: Result<Bytes, ControlParseError>)
    ensures AfterDecoded([], result) == result
  {
    if result.Ok? {
      assert [] + result.ok == result.ok;
    }
  }

  lemma DecodedStep(decoded: Bytes, text: Bytes)
    requires text != []
    ensures text[0] != BACKSLASH ==>
              AfterDecoded(decoded, DecodeOctal(text)) == AfterDecoded(decoded + [text[0]], DecodeOctal(text[1..]))
    ensures text[0] == BACKSLASH && StartsWithOctalEscape(text) ==>
              AfterDecoded(decoded, DecodeOctal(text))
                == AfterDecoded(decoded + [OctalValue(text[1..4])], DecodeOctal(text[4..]))
  {
    if text[0] != BACKSLASH && DecodeOctal(text[1..]).Ok? {
      Reassociate(decoded, [text[0]], DecodeOctal(text[1..]).ok);
    }
    if text[0] == BACKSLASH && StartsWithOctalEscape(text) && DecodeOctal(text[4..]).Ok? {
      Reassociate(decoded, [OctalValue(text[1..4])], DecodeOctal(text[4..]).ok);
    }
  }

  /** The scan of the source: one pass that appends to the decoded bytes. */
  method ScanOctal(bytes: Bytes) returns (result: Result<Bytes, ControlParseError>)
    ensures result == DecodeOctal(bytes)
  {
    var decoded: Bytes := [];
    var index := 0;
    NothingDecodedYet(DecodeOctal(bytes));
    assert bytes[0..] == bytes;
    while index < |bytes|
      invariant 0 <= index <= |bytes|
      invariant DecodeOctal(bytes) == AfterDecoded(decoded, DecodeOctal(bytes[index..]))
    {
      ghost var rest := bytes[index..];
      DecodedStep(decoded, rest);
      if bytes[index] != BACKSLASH {
        assert rest[1..] == bytes[index + 1..];
        decoded := decoded + [bytes[index]];
        index := index + 1;
      } else {
        if index + 4 > |bytes| {
          return Err(InvalidOctalEscape);
        }
        var digits := bytes[index + 1..index + 4];
        assert digits == rest[1..4];
        if !(IsOctalDigit(digits[0]) && IsOctalDigit(digits[1]) && IsOctalDigit(digits[2])) {
          assert rest[1] == digits[0] && rest[2] == digits[1] && rest[3] == digits[2];
          return Err(InvalidOctalEscape);
        }
        var value := (digits[0] - DIGIT_ZERO) * 64 + (digits[1] - DIGIT_ZERO) * 8 + (digits[2] - DIGIT_ZERO);
        if value >= 256 {
          return Err(InvalidOctalEscape);
        }
        assert rest[4..] == bytes[index + 4..];
        decoded := decoded + [value];
        index := index + 4;
      }
    }
    assert bytes[index..] == [] && decoded + [] == decoded;
    result := Ok(decoded);
  }

  // ----- the separator of extended output -----

  predicate SeparatorAt(bytes: Bytes, i: nat) {
    i + 3 <= |bytes| && bytes[i] == SPACE && bytes[i + 1] == COLON && bytes[i + 2] == SPACE
  }

  function FindSeparator(bytes: Bytes): Option<nat> {
    if |bytes| < 3 then None
    else if SeparatorAt(bytes, 0) then Some(0)
    else
      match FindSeparator(bytes[1..])
      case None => None
      case Some(i) => Some(i + 1)
  }

  lemma {:induction false} FindSkips(bytes: Bytes, k: nat, found: nat)
    requires k + 3 <= |bytes|
    requires forall i :: 0 <= i < k ==> !SeparatorAt(bytes, i)
    requires FindSeparator(bytes[k..]) == Some(found)
    ensures FindSeparator(bytes) == Some(k + found)
  {
    if k == 0 {
      assert bytes[0..] == bytes;
    } else {
      assert bytes[1..][k - 1..] == bytes[k..];
      forall i | 0 <= i < k - 1
        ensures !SeparatorAt(bytes[1..], i)
      {
        assert !SeparatorAt(bytes, i + 1);
      }
      FindSkips(bytes[1..], k - 1, found);
      assert !SeparatorAt(bytes, 0);
    }
  }

  predicate PlainField(field: Bytes) {
    field != [] && field != [COLON] && SPACE !in field
  }

  lemma {:induction false} SeparatorFollowsFields(fields: seq<Bytes>, value: Bytes)
    requires fields != [] && forall i :: 0 <= i < |fields| ==> PlainField(fields[i])
    ensures FindSeparator(JoinSpaces(fields) + [SPACE, COLON, SPACE] + value) == Some(|JoinSpaces(fields)|)
  {
    var first := fields[0];
    var all := JoinSpaces(fields) + [SPACE, COLON, SPACE] + value;
    if |fields| == 1 {
      forall i | 0 <= i < |first|
        ensures !SeparatorAt(all, i)
      {
        assert all[i] == first[i];
      }
      assert SeparatorAt(all[|first|..], 0);
      FindSkips(all, |first|, 0);
    } else {
      var rest := JoinSpaces(fields[1..]);
      SeparatorFollowsFields(fields[1..], value);
      var k := |first| + 1;
      assert all[k..] == rest + [SPACE, COLON, SPACE] + value;
      forall i | 0 <= i < k
        ensures !SeparatorAt(all, i)
      {
        if i < |first| {
          assert all[i] == first[i];
        } else {
          var second := fields[1];
          assert rest[0] == second[0] && all[k] == rest[0];
          if |second| > 1 {
            assert rest[1] == second[1] && all[k + 1] == rest[1];
          }
        }
      }
      FindSkips(all, k, |rest|);
    }
  }
}

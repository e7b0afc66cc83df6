/** The parser accepts the control-mode format and nothing else: every line and stream it takes spells its events. */
module ControlGrammar {
  import opened Common
  import opened ControlRecords
  import opened ControlParser
  import opened ControlWire

  // ----- numbers and tags -----

  function Zeros(count: nat): (zeros: Bytes)
    ensures |zeros| == count && forall i :: 0 <= i < count ==> zeros[i] == DIGIT_ZERO
  {
    seq(count, _ => DIGIT_ZERO)
  }

  /** A 64-bit number in decimal, leading zeros allowed. */
  ghost predicate IsNumeral(text: Bytes, n: nat) {
    n <= MAX_U64 && exists zeros: nat :: text == Zeros(zeros) + Decimal(n)
  }

  lemma {:induction false} ZerosAreZero(count: nat)
    ensures AllDigits(Zeros(count)) && DecimalValue(Zeros(count)) == 0
  {
    if count > 0 {
      ZerosAreZero(count - 1);
      assert Zeros(count)[..count - 1] == Zeros(count - 1);
    }
  }

  lemma {:induction false} LeadingZeros(count: nat, digits: Bytes)
    requires AllDigits(digits)
    ensures AllDigits(Zeros(count) + digits) && DecimalValue(Zeros(count) + digits) == DecimalValue(digits)
  {
    var all := Zeros(count) + digits;
    if digits == [] {
      ZerosAreZero(count);
      assert all == Zeros(count);
    } else {
      LeadingZeros(count, digits[..|digits| - 1]);
      assert all[..|all| - 1] == Zeros(count) + digits[..|digits| - 1];
    }
  }

  lemma DecimalSnoc(value: nat, last: nat)
    requires value > 0 && last < 10
    ensures Decimal(value * 10 + last) == Decimal(value) + [DIGIT_ZERO + last]
  {
    var n := value * 10 + last;
    assert n / 10 == value && n % 10 == last;
  }

  lemma ZerosSnoc(zeros: nat, digit: Bytes)
    ensures Zeros(zeros) + [DIGIT_ZERO] + digit == Zeros(zeros + 1) + digit
  {
  }

  /** One more digit behind a numeral makes the next numeral. */
  lemma NumeralSnoc(front: Bytes, zeros: nat, value: nat, last: nat) returns (more: nat)
    requires front == Zeros(zeros) + Decimal(value) && last < 10
    ensures front + [DIGIT_ZERO + last] == Zeros(more) + Decimal(value * 10 + last)
  {
    hide Zeros, Decimal;
    more := zeros;
    if value == 0 {
      SingleDigit(0);
      SingleDigit(last);
      ZerosSnoc(zeros, Decimal(last));
      more := zeros + 1;
    } else {
      DecimalSnoc(value, last);
    }
  }

  /** Any row of digits is its number behind some zeros. */
  lemma {:induction false} DigitsAreANumeral(text: Bytes) returns (zeros: nat)
    requires text != [] && AllDigits(text)
    ensures text == Zeros(zeros) + Decimal(DecimalValue(text))
  {
    hide Zeros, Decimal;
    var front, last := text[..|text| - 1], text[|text| - 1] - DIGIT_ZERO;
    assert text == front + [DIGIT_ZERO + last];
    assert DecimalValue(text) == DecimalValue(front) * 10 + last;
    if front == [] {
      zeros := 0;
      SingleDigit(last);
      NoZeros();
    } else {
      zeros := DigitsAreANumeral(front);
      zeros := NumeralSnoc(front, zeros, DecimalValue(front), last);
    }
  }

  lemma NoZeros()
    ensures Zeros(0) == []
  {
  }

  lemma SingleDigit(digit: nat)
    requires digit < 10
    ensures Decimal(digit) == [DIGIT_ZERO + digit]
  {
  }

  /** Exactly the decimal numerals of 64-bit numbers are numbers. */
  lemma NumbersAreNumerals(text: Bytes, n: nat)
    ensures ParseDigits(text) == Some(n) <==> IsNumeral(text, n)
  {
    if ParseDigits(text) == Some(n) {
      var zeros := DigitsAreANumeral(text);
    }
    if IsNumeral(text, n) {
      var zeros: nat :| text == Zeros(zeros) + Decimal(n);
      LeadingZeros(zeros, Decimal(n));
      DecimalRoundTrip(n);
    }
  }

  ghost predicate IsPane(text: Bytes, pane: nat) {
    text != [] && text[0] == PERCENT && IsNumeral(text[1..], pane)
  }

  lemma PanesAreNumerals(text: Bytes, pane: nat)
    ensures ParsePaneId(text) == Ok(pane) <==> IsPane(text, pane)
  {
    if text != [] {
      NumbersAreNumerals(text[1..], pane);
    }
  }

  lemma NumeralHasNoSpace(text: Bytes, n: nat)
    requires IsNumeral(text, n)
    ensures SPACE !in text && text != [] && AllDigits(text)
  {
    NumbersAreNumerals(text, n);
  }

  lemma {:induction false} JoinInvertsSplit(bytes: Bytes)
    ensures JoinSpaces(SplitSpaces(bytes)) == bytes
    ensures forall i :: 0 <= i < |SplitSpaces(bytes)| ==> SPACE !in SplitSpaces(bytes)[i]
    decreases |bytes|
  {
    match IndexOf(bytes, SPACE)
    case None =>
    case Some(i) =>
      JoinInvertsSplit(bytes[i + 1..]);
      var rest := SplitSpaces(bytes[i + 1..]);
      assert ([bytes[..i]] + rest)[1..] == rest;
      assert bytes == bytes[..i] + [SPACE] + bytes[i + 1..];
  }

  /** Three numerals, one space between them. */
  ghost predicate TagSpells(text: Bytes, tag: CommandTag) {
    exists a: Bytes, b: Bytes, c: Bytes ::
      && text == JoinSpaces([a, b, c])
      && IsNumeral(a, tag.timestamp) && IsNumeral(b, tag.number) && IsNumeral(c, tag.flags)
  }

  /** Exactly three numerals are a command tag. */
  lemma TagsAreThreeNumerals(text: Bytes, tag: CommandTag)
    ensures ParseCommandTag(text) == Ok(tag) <==> TagSpells(text, tag)
  {
    hide JoinSpaces, IsNumeral;
    var fields := SplitSpaces(text);
    JoinInvertsSplit(text);
    if ParseCommandTag(text) == Ok(tag) {
      assert fields == [fields[0], fields[1], fields[2]];
      NumbersAreNumerals(fields[0], tag.timestamp);
      NumbersAreNumerals(fields[1], tag.number);
      NumbersAreNumerals(fields[2], tag.flags);
    }
    if TagSpells(text, tag) {
      var a, b, c :| text == JoinSpaces([a, b, c])
                     && IsNumeral(a, tag.timestamp) && IsNumeral(b, tag.number) && IsNumeral(c, tag.flags);
      NumeralHasNoSpace(a, tag.timestamp);
      NumeralHasNoSpace(b, tag.number);
      NumeralHasNoSpace(c, tag.flags);
      SplitInvertsJoin([a, b, c]);
      NumbersAreNumerals(a, tag.timestamp);
      NumbersAreNumerals(b, tag.number);
      NumbersAreNumerals(c, tag.flags);
    }
  }

  // ----- records -----

  ghost predicate OutputSpells(rest: Bytes, pane: nat, bytes: Bytes) {
    exists id: Bytes, value: Bytes :: rest == Keyed(id, value) && IsPane(id, pane) && Spells(value, bytes)
  }

  /** Header fields, none of them empty or a lone colon, then a colon between spaces, then the value. */
  ghost predicate ExtendedSpells(rest: Bytes, pane: nat, age: nat, future: seq<Bytes>, bytes: Bytes) {
    && (forall i :: 0 <= i < |future| ==> PlainField(future[i]))
    && exists id: Bytes, digits: Bytes, value: Bytes ::
         && rest == JoinSpaces([id, digits] + future) + [SPACE, COLON, SPACE] + value
         && IsPane(id, pane) && IsNumeral(digits, age) && Spells(value, bytes)
  }

  /** Lower-case letters, digits and hyphens, at least one of them. */
  ghost predicate IsWord(text: Bytes) {
    text != [] && forall b :: b in text ==> 0x61 <= b <= 0x7a || 0x30 <= b <= 0x39 || b == 0x2d
  }

  lemma NamesAreWords(name: Bytes)
    ensures IsName(name) <==> IsWord(name)
  {
    if IsWord(name) {
      forall i | 0 <= i < |name|
        ensures IsNameByte(name[i])
      {
        assert name[i] in name;
      }
    }
  }

  /** The line is a record of this event. */
  ghost predicate RecordSpells(line: Bytes, e: ControlEvent) {
    match e
    case Output(pane, bytes) => Has(line, OUTPUT) && OutputSpells(After(line, OUTPUT), pane, bytes)
    case ExtendedOutput(pane, age, future, bytes) =>
      Has(line, EXTENDED_OUTPUT) && ExtendedSpells(After(line, EXTENDED_OUTPUT), pane, age, future, bytes)
    case Pause(pane) => Has(line, PAUSE) && IsPane(After(line, PAUSE), pane)
    case Continue(pane) => Has(line, CONTINUE) && IsPane(After(line, CONTINUE), pane)
    case Exit(reason) =>
      if reason.None? then line == EXIT || line == EXIT + [SPACE]
      else reason.value != [] && line == Keyed(EXIT, reason.value)
    case Notification(name, arguments) =>
      && IsWord(name) && !IsReserved([PERCENT] + name)
      && (line == Keyed([PERCENT] + name, arguments) || (arguments == [] && line == [PERCENT] + name))
    case _ => false
  }

  lemma OutputIsSpelled(rest: Bytes, pane: nat, bytes: Bytes)
    ensures ParseOutput(rest) == Ok(Output(pane, bytes)) <==> OutputSpells(rest, pane, bytes)
    ensures forall e :: ParseOutput(rest) == Ok(e) ==> e.Output?
  {
    if ParseOutput(rest) == Ok(Output(pane, bytes)) {
      var split := SplitOnceSpace(rest).ok;
      assert rest == Keyed(split.0, split.1);
      PanesAreNumerals(split.0, pane);
      DecodesExactlySpellings(split.1, bytes);
    }
    if OutputSpells(rest, pane, bytes) {
      var id, value :| rest == Keyed(id, value) && IsPane(id, pane) && Spells(value, bytes);
      PaneHasNoSpace(id, pane);
      FirstOccurrence(id, SPACE, value);
      assert rest[..|id|] == id && rest[|id| + 1..] == value;
      PanesAreNumerals(id, pane);
      DecodesExactlySpellings(value, bytes);
    }
  }

  lemma PaneHasNoSpace(id: Bytes, pane: nat)
    requires IsPane(id, pane)
    ensures SPACE !in id && id != [] && id != [COLON]
  {
    NumeralHasNoSpace(id[1..], pane);
    assert id == [PERCENT] + id[1..];
  }

  lemma SinglePaneIsSpelled(rest: Bytes, pane: nat)
    ensures ParseSinglePane(rest) == Ok(pane) <==> IsPane(rest, pane)
  {
    PanesAreNumerals(rest, pane);
    if IsPane(rest, pane) {
      PaneHasNoSpace(rest, pane);
    }
  }

  // ----- extended output -----

  lemma {:induction false} SeparatorIsFirst(bytes: Bytes, found: nat)
    requires FindSeparator(bytes) == Some(found)
    ensures SeparatorAt(bytes, found) && forall i :: 0 <= i < found ==> !SeparatorAt(bytes, i)
  {
    if found > 0 {
      SeparatorIsFirst(bytes[1..], found - 1);
      forall i | 0 <= i < found
        ensures !SeparatorAt(bytes, i)
      {
        if i > 0 {
          assert !SeparatorAt(bytes[1..], i - 1);
        }
      }
      assert SeparatorAt(bytes[1..], found - 1);
    }
  }

  /** A field that is a lone colon would be taken for the separator. */
  lemma {:induction false} ColonFieldSeparates(fields: seq<Bytes>, i: nat, tail: Bytes) returns (k: nat)
    requires 1 <= i < |fields| && fields[i] == [COLON]
    ensures k < |JoinSpaces(fields)| && SeparatorAt(JoinSpaces(fields) + [SPACE] + tail, k)
  {
    var rest := JoinSpaces(fields[1..]);
    var all := JoinSpaces(fields) + [SPACE] + tail;
    assert JoinSpaces(fields) == fields[0] + [SPACE] + rest;
    if i == 1 {
      k := |fields[0]|;
      assert rest[0] == COLON && (|rest| > 1 ==> rest[1] == SPACE);
      assert all[k..] == [SPACE] + rest + [SPACE] + tail;
    } else {
      var j := ColonFieldSeparates(fields[1..], i - 1, tail);
      k := |fields[0]| + 1 + j;
      assert all[|fields[0]| + 1..] == rest + [SPACE] + tail;
    }
  }

  lemma FutureFieldsArePlain(fields: seq<Bytes>, future: seq<Bytes>, separator: nat, rest: Bytes, value: Bytes)
    requires |fields| >= 2 && fields[2..] == future && [] !in future
    requires forall i :: 0 <= i < |fields| ==> SPACE !in fields[i]
    requires rest == JoinSpaces(fields) + [SPACE, COLON, SPACE] + value && separator == |JoinSpaces(fields)|
    requires forall i :: 0 <= i < separator ==> !SeparatorAt(rest, i)
    ensures forall i :: 0 <= i < |future| ==> PlainField(future[i])
  {
    hide JoinSpaces, SeparatorAt;
    assert JoinSpaces(fields) + [SPACE] + ([COLON, SPACE] + value) == rest;
    forall i | 0 <= i < |future|
      ensures PlainField(future[i])
    {
      assert future[i] == fields[i + 2] && future[i] in future;
      if fields[i + 2] == [COLON] {
        var k := ColonFieldSeparates(fields, i + 2, [COLON, SPACE] + value);
        assert false;
      }
    }
  }

  lemma ExtendedFields(rest: Bytes, e: ControlEvent)
    requires ParseExtendedOutput(rest) == Ok(e)
    ensures e.ExtendedOutput? && ExtendedSpells(rest, e.pane, e.ageMs, e.futureFields, e.bytes)
  {
    hide IsPane, IsNumeral, Spells, SplitSpaces, JoinSpaces, SeparatorAt, PlainField;
    var separator := FindSeparator(rest).value;
    SeparatorIsFirst(rest, separator);
    SeparatorIsThere(rest, separator);
    var header, value := rest[..separator], rest[separator + 3..];
    JoinInvertsSplit(header);
    var fields := SplitSpaces(header);
    NumbersAreNumerals(fields[1], e.ageMs);
    PanesAreNumerals(fields[0], e.pane);
    DecodesExactlySpellings(value, e.bytes);
    var future := if |fields| > 2 then fields[2..] else [];
    assert future == e.futureFields && [] !in future;
    FutureFieldsArePlain(fields, future, separator, rest, value);
    assert fields == [fields[0], fields[1]] + future;
  }

  lemma SeparatorIsThere(rest: Bytes, separator: nat)
    requires SeparatorAt(rest, separator)
    ensures separator + 3 <= |rest|
    ensures rest == rest[..separator] + [SPACE, COLON, SPACE] + rest[separator + 3..]
  {
  }

  lemma ExtendedIsParsed(rest: Bytes, pane: nat, age: nat, future: seq<Bytes>, bytes: Bytes)
    requires ExtendedSpells(rest, pane, age, future, bytes)
    ensures ParseExtendedOutput(rest) == Ok(ExtendedOutput(pane, age, future, bytes))
  {
    hide IsPane, IsNumeral, Spells, SplitSpaces, JoinSpaces, FindSeparator;
    var id, digits, value :| rest == JoinSpaces([id, digits] + future) + [SPACE, COLON, SPACE] + value
                             && IsPane(id, pane) && IsNumeral(digits, age) && Spells(value, bytes);
    PaneHasNoSpace(id, pane);
    NumeralHasNoSpace(digits, age);
    PanesAreNumerals(id, pane);
    NumbersAreNumerals(digits, age);
    DecodesExactlySpellings(value, bytes);
    var fields := [id, digits] + future;
    forall i | 0 <= i < |fields|
      ensures PlainField(fields[i])
    {
      assert i >= 2 ==> fields[i] == future[i - 2];
    }
    SplitInvertsJoin(fields);
    SeparatorFollowsFields(fields, value);
    var header := JoinSpaces(fields);
    assert rest[..|header|] == header && rest[|header| + 3..] == value;
    assert (if |fields| > 2 then fields[2..] else []) == future;
  }

  // ----- whole records -----

  lemma NotificationSplits(name: Bytes, arguments: Bytes)
    requires SPACE !in name
    ensures var body := Keyed([PERCENT] + name, arguments)[1..];
            IndexOf(body, SPACE) == Some(|name|) && body[..|name|] == name && body[|name| + 1..] == arguments
    ensures ([PERCENT] + name)[1..] == name
  {
    FirstOccurrence(name, SPACE, arguments);
    assert Keyed([PERCENT] + name, arguments)[1..] == name + [SPACE] + arguments;
  }

  lemma NotificationIsSpelled(line: Bytes, name: Bytes, arguments: Bytes)
    requires line != [] && line[0] == PERCENT && ParseNotification(line) == Ok(Notification(name, arguments))
    ensures IsName(name) && (line == Keyed([PERCENT] + name, arguments) || (arguments == [] && line == [PERCENT] + name))
  {
    hide IsName;
    var body := line[1..];
    assert line == [PERCENT] + body;
    if IndexOf(body, SPACE).Some? {
      var i := IndexOf(body, SPACE).value;
      assert body == body[..i] + [SPACE] + body[i + 1..];
      assert line == Keyed([PERCENT] + body[..i], body[i + 1..]);
    }
  }

  lemma SpelledNotification(line: Bytes, name: Bytes, arguments: Bytes)
    requires line != [] && line[0] == PERCENT
    ensures ParseNotification(line) == Ok(Notification(name, arguments)) <==>
            IsName(name) && (line == Keyed([PERCENT] + name, arguments) || (arguments == [] && line == [PERCENT] + name))
  {
    if ParseNotification(line) == Ok(Notification(name, arguments)) {
      NotificationIsSpelled(line, name, arguments);
    } else if IsName(name) {
      assert SPACE !in name;
      NotificationSplits(name, arguments);
    }
  }

  /** A line is its first word, or that word and what follows the space behind it. */
  lemma FirstWord(line: Bytes) returns (key: Bytes, rest: Option<Bytes>)
    ensures SPACE !in key && line == if rest.None? then key else Keyed(key, rest.value)
    ensures rest.None? ==> SPACE !in line
  {
    match IndexOf(line, SPACE)
    case None => key, rest := line, None;
    case Some(i) => key, rest := line[..i], Some(line[i + 1..]);
  }

  lemma KeyedApart(key: Bytes, rest: Bytes, other: Bytes, otherRest: Bytes)
    requires SPACE !in key && SPACE !in other && Keyed(key, rest) == Keyed(other, otherRest)
    ensures key == other && rest == otherRest
  {
    FirstOccurrence(key, SPACE, rest);
    FirstOccurrence(other, SPACE, otherRest);
    assert Keyed(key, rest)[..|key|] == key && Keyed(key, rest)[|key| + 1..] == rest;
    assert Keyed(other, otherRest)[..|other|] == other && Keyed(other, otherRest)[|other| + 1..] == otherRest;
  }

  /** Records of one word: only a bare exit and notifications without arguments. */
  lemma OneWordRecords(limits: ParserLimits, line: Bytes, e: ControlEvent)
    requires SPACE !in line
    ensures ParseRecord(limits, line) == Ok(e) <==> |line| <= limits.maxNotificationBytes && RecordSpells(line, e)
  {
    hide OutputSpells, ExtendedSpells, IsPane, ParseNotification, IsName, IsWord;
    KeysDiffer();
    SpacelessRecord(line);
    if line != [] && line[0] == PERCENT && e.Notification? {
      SpelledNotification(line, e.name, e.arguments);
      NamesAreWords(e.name);
    }
    if line != [] && line[0] == PERCENT {
      NotificationsOnly(line);
    }
  }

  lemma NotificationsOnly(line: Bytes)
    requires line != []
    ensures ParseNotification(line).Ok? ==> ParseNotification(line).ok.Notification?
  {
  }

  /** A notification's name is its first word. */
  lemma NotificationWord(key: Bytes, rest: Bytes, e: ControlEvent)
    requires SPACE !in key
    ensures RecordSpells(Keyed(key, rest), e) && e.Notification? ==> key == [PERCENT] + e.name && !IsReserved(key)
    ensures RecordSpells(Keyed(key, rest), e) && e.Notification? ==> Keyed(key, rest)[0] == PERCENT
    ensures RecordSpells(Keyed(key, rest), e) && e.Exit? ==> key == EXIT
  {
    hide OutputSpells, ExtendedSpells, IsPane, IsReserved;
    var line := Keyed(key, rest);
    assert line[|key|] == SPACE;
    if RecordSpells(line, e) && e.Notification? {
      assert SPACE !in [PERCENT] + e.name;
      KeyedApart(key, rest, [PERCENT] + e.name, e.arguments);
    }
    if RecordSpells(line, e) && e.Exit? {
      KeysHaveNoSpace();
      if e.reason.None? {
        assert line == EXIT + [SPACE] + [];
        KeyedApart(key, rest, EXIT, []);
      } else {
        KeyedApart(key, rest, EXIT, e.reason.value);
      }
    }
  }

  lemma KeyedPaneRecords(limits: ParserLimits, key: Bytes, rest: Bytes, e: ControlEvent)
    requires key in [OUTPUT, EXTENDED_OUTPUT, PAUSE, CONTINUE]
    ensures ParseRecord(limits, Keyed(key, rest)) == Ok(e) <==>
            |Keyed(key, rest)| <= limits.maxNotificationBytes && RecordSpells(Keyed(key, rest), e)
  {
    hide OutputSpells, ExtendedSpells, IsPane, ParseOutput, ParseExtendedOutput, ParseSinglePane, Has, After;
    KeysHaveNoSpace();
    KeysDiffer();
    KeyedRecord(key, rest);
    NotificationWord(key, rest, e);
    OnlyOwnKind(rest);
    if e.Output? {
      OutputIsSpelled(rest, e.pane, e.bytes);
    } else if e.ExtendedOutput? {
      if ParseExtendedOutput(rest) == Ok(e) {
        ExtendedFields(rest, e);
      }
      if ExtendedSpells(rest, e.pane, e.ageMs, e.futureFields, e.bytes) {
        ExtendedIsParsed(rest, e.pane, e.ageMs, e.futureFields, e.bytes);
      }
    } else if e.Pause? || e.Continue? {
      SinglePaneIsSpelled(rest, e.pane);
    }
  }

  lemma OnlyOwnKind(rest: Bytes)
    ensures ParseOutput(rest).Ok? ==> ParseOutput(rest).ok.Output?
    ensures ParseExtendedOutput(rest).Ok? ==> ParseExtendedOutput(rest).ok.ExtendedOutput?
  {
  }

  lemma KeyedOtherRecords(limits: ParserLimits, key: Bytes, rest: Bytes, e: ControlEvent)
    requires SPACE !in key && key !in [BEGIN, OUTPUT, EXTENDED_OUTPUT, PAUSE, CONTINUE]
    ensures ParseRecord(limits, Keyed(key, rest)) == Ok(e) <==>
            |Keyed(key, rest)| <= limits.maxNotificationBytes && RecordSpells(Keyed(key, rest), e)
  {
    hide OutputSpells, ExtendedSpells, IsPane, ParseNotification, IsName, IsWord, Has, After;
    var line := Keyed(key, rest);
    KeysDiffer();
    KeyedRecord(key, rest);
    NotificationWord(key, rest, e);
    assert line[|key|] == SPACE;
    assert key == EXIT ==> (rest == [] <==> line == EXIT + [SPACE]);
    if e.Exit? && e.reason.Some? && RecordSpells(line, e) {
      KeysHaveNoSpace();
      KeyedApart(key, rest, EXIT, e.reason.value);
    }
    if line[0] == PERCENT {
      NotificationsOnly(line);
      if e.Notification? {
        SpelledNotification(line, e.name, e.arguments);
        NamesAreWords(e.name);
        if IsName(e.name) {
          NameHasNoSpace(e.name);
          if line == Keyed([PERCENT] + e.name, e.arguments) {
            KeyedApart(key, rest, [PERCENT] + e.name, e.arguments);
          }
        }
      }
    }
  }

  lemma NameHasNoSpace(name: Bytes)
    requires IsName(name)
    ensures SPACE !in [PERCENT] + name
  {
  }

  /** A line that opens no command block is read as exactly the event it is a record of, within the limit. */
  lemma RecordsAreSpelled(limits: ParserLimits, line: Bytes, e: ControlEvent)
    requires !Has(line, BEGIN)
    ensures ParseRecord(limits, line) == Ok(e) <==> |line| <= limits.maxNotificationBytes && RecordSpells(line, e)
  {
    hide ParseRecord, RecordSpells, Has;
    var key, rest := FirstWord(line);
    if rest.None? {
      OneWordRecords(limits, line, e);
    } else {
      KeyedRecord(key, rest.value);
      if key in [OUTPUT, EXTENDED_OUTPUT, PAUSE, CONTINUE] {
        KeyedPaneRecords(limits, key, rest.value, e);
      } else {
        KeyedOtherRecords(limits, key, rest.value, e);
      }
    }
  }

  // ----- lines of a stream -----

  ghost predicate Opens(line: Bytes, tag: CommandTag) {
    exists text: Bytes :: line == Keyed(BEGIN, text) && TagSpells(text, tag)
  }

  ghost predicate Closes(line: Bytes, status: CommandStatus, tag: CommandTag) {
    exists text: Bytes :: line == Keyed(if status == Success then END else ERROR, text) && TagSpells(text, tag)
  }

  lemma HasKeyed(line: Bytes, key: Bytes)
    ensures Has(line, key) ==> line == Keyed(key, After(line, key))
    ensures forall text: Bytes :: line == Keyed(key, text) ==> Has(line, key) && text == After(line, key)
  {
    forall text: Bytes | line == Keyed(key, text)
      ensures Has(line, key) && text == After(line, key)
    {
      assert line[|key| + 1..] == text;
    }
  }

  lemma TerminatorsClose(line: Bytes, tag: CommandTag)
    ensures Terminates(line, END, tag) <==> Closes(line, Success, tag)
    ensures Terminates(line, ERROR, tag) <==> Closes(line, Error, tag)
    ensures !(Closes(line, Success, tag) && Closes(line, Error, tag))
  {
    hide TagSpells, ParseCommandTag;
    HasKeyed(line, END);
    HasKeyed(line, ERROR);
    KeysHaveNoSpace();
    KeysDiffer();
    if Has(line, END) {
      TagsAreThreeNumerals(After(line, END), tag);
      KeyedRecord(END, After(line, END));
    }
    if Has(line, ERROR) {
      TagsAreThreeNumerals(After(line, ERROR), tag);
    }
  }

  /**
    * What a line means to the reader: inside a block it closes the block or is one more line of its
    * output, within the limits; outside, it opens a block or is a record.
    */
  ghost predicate Reads(limits: ParserLimits, pending: Option<PendingCommand>, line: Bytes,
                        after: Option<PendingCommand>, events: seq<ControlEvent>) {
    match pending
    case Some(p) =>
      if Closes(line, Success, p.tag) then after == None && events == [Command(p.tag, Success, p.output)]
      else if Closes(line, Error, p.tag) then after == None && events == [Command(p.tag, Error, p.output)]
      else
        var output := p.output + [line];
        && |output| <= limits.maxCommandOutputLines && TotalLength(output) <= limits.maxCommandOutputBytes
        && after == Some(PendingCommand(p.tag, output, TotalLength(output))) && events == []
    case None =>
      if Has(line, BEGIN) then
        events == [] && after.Some? && Opens(line, after.value.tag) && after.value.output == [] && after.value.outputBytes == 0
      else
        after == None && |events| == 1 && |line| <= limits.maxNotificationBytes && RecordSpells(line, events[0])
  }

  ghost predicate PendingFits(limits: ParserLimits, pending: Option<PendingCommand>) {
    pending.Some? ==>
      && pending.value.outputBytes == TotalLength(pending.value.output)
      && |pending.value.output| <= limits.maxCommandOutputLines
  }

  /** The reader takes a line exactly when it means something, and takes it as that. */
  lemma LinesAreRead(limits: ParserLimits, pending: Option<PendingCommand>, line: Bytes,
                     after: Option<PendingCommand>, events: seq<ControlEvent>)
    requires PendingFits(limits, pending)
    ensures ProcessLine(limits, pending, line) == Parsed(Parser(Records, [], after), events)
       <==> Reads(limits, pending, line, after, events)
  {
    hide Closes, Opens, RecordSpells, ParseRecord, Terminates, ParseCommandTag, Has;
    if pending.Some? {
      TerminatorsClose(line, pending.value.tag);
      TotalLengthAppend(pending.value.output, [line]);
    } else if Has(line, BEGIN) {
      if after.Some? {
        OpeningsAreTags(line, after.value.tag);
      }
    } else {
      if |events| == 1 {
        RecordsAreSpelled(limits, line, events[0]);
        assert events == [events[0]];
      }
    }
  }

  lemma OpeningsAreTags(line: Bytes, tag: CommandTag)
    requires Has(line, BEGIN)
    ensures ParseCommandTag(After(line, BEGIN)) == Ok(tag) <==> Opens(line, tag)
  {
    hide TagSpells, ParseCommandTag;
    HasKeyed(line, BEGIN);
    TagsAreThreeNumerals(After(line, BEGIN), tag);
  }

  lemma ReadingKeepsFitting(limits: ParserLimits, pending: Option<PendingCommand>, line: Bytes,
                            after: Option<PendingCommand>, events: seq<ControlEvent>)
    requires PendingFits(limits, pending) && Reads(limits, pending, line, after, events)
    ensures PendingFits(limits, after)
  {
  }

  lemma LinesEndRecords(limits: ParserLimits, pending: Option<PendingCommand>, line: Bytes)
    requires ProcessLine(limits, pending, line).Parsed?
    ensures var p := ProcessLine(limits, pending, line).parser; p == Parser(Records, [], p.pending)
  {
  }

  // ----- whole streams -----

  /** Bytes that may stand before a line feed. */
  ghost predicate RawLine(limits: ParserLimits, pending: Option<PendingCommand>, raw: Bytes) {
    LINE_FEED !in raw && |raw| <= limits.maxLineBytes && (pending.None? && raw != [] ==> raw[0] != ESCAPE)
  }

  /** The text of a line is what stands before its trailing carriage returns. */
  lemma {:induction false} TextBeforeCarriageReturns(raw: Bytes) returns (count: nat)
    ensures var text := WithoutCarriageReturns(raw);
      && raw == text + seq(count, _ => CARRIAGE_RETURN)
      && (text != [] ==> text[|text| - 1] != CARRIAGE_RETURN)
  {
    if raw != [] && raw[|raw| - 1] == CARRIAGE_RETURN {
      var fewer := TextBeforeCarriageReturns(raw[..|raw| - 1]);
      count := fewer + 1;
    } else {
      count := 0;
    }
  }

  function Terminated(lines: seq<Bytes>): Bytes {
    if lines == [] then [] else lines[0] + [LINE_FEED] + Terminated(lines[1..])
  }

  /** The lines, read one after the other, give these events and leave `final` open. */
  ghost predicate ReadsTo(limits: ParserLimits, pending: Option<PendingCommand>, lines: seq<Bytes>,
                          final: Option<PendingCommand>, events: seq<ControlEvent>)
    decreases |lines|
  {
    if lines == [] then final == pending && events == []
    else
      && RawLine(limits, pending, lines[0])
      && exists after: Option<PendingCommand>, n: nat ::
           && n <= |events|
           && Reads(limits, pending, WithoutCarriageReturns(lines[0]), after, events[..n])
           && ReadsTo(limits, after, lines[1..], final, events[n..])
  }

  ghost predicate StreamSpells(limits: ParserLimits, stream: Bytes, events: seq<ControlEvent>) {
    exists lines: seq<Bytes>, body: seq<ControlEvent> ::
      && stream == CONTROL_START + Terminated(lines) + [ESCAPE, BACKSLASH]
      && events == [Started] + body + [Ended]
      && ReadsTo(limits, None, lines, None, body)
  }

  lemma PushLongContent(limits: ParserLimits, pending: Option<PendingCommand>, content: Bytes)
    requires LINE_FEED !in content && (pending.None? && content != [] ==> content[0] != ESCAPE)
    ensures Push(limits, Parser(Records, [], pending), content)
         == if |content| <= limits.maxLineBytes then Parsed(Parser(Records, content, pending), [])
            else Rejected(LineTooLong(limits.maxLineBytes))
  {
    hide Feed, ProcessLine;
    var p := Parser(Records, [], pending);
    if |content| <= limits.maxLineBytes {
      PushContent(limits, pending, content);
    } else {
      var front, next, rest := content[..limits.maxLineBytes], content[limits.maxLineBytes], content[limits.maxLineBytes + 1..];
      assert content == front + [next] + rest;
      assert LINE_FEED !in front && next in content;
      PushContent(limits, pending, front);
      PushSnoc(limits, p, front, next);
      assert pending.None? && front == [] ==> next == content[0];
      assert PushByte(limits, Parser(Records, front, pending), next) == Rejected(LineTooLong(limits.maxLineBytes));
      PushAppend(limits, p, front + [next], rest);
    }
  }

  lemma PushRawLine(limits: ParserLimits, pending: Option<PendingCommand>, raw: Bytes)
    requires RawLine(limits, pending, raw)
    ensures Push(limits, Parser(Records, [], pending), raw + [LINE_FEED])
         == ProcessLine(limits, pending, WithoutCarriageReturns(raw))
  {
    hide Feed, ProcessLine, WithoutCarriageReturns;
    PushContent(limits, pending, raw);
    PushSnoc(limits, Parser(Records, [], pending), raw, LINE_FEED);
    var result := ProcessLine(limits, pending, WithoutCarriageReturns(raw));
    if result.Parsed? {
      assert [] + result.events == result.events;
    }
  }

  lemma LineThenRest(limits: ParserLimits, pending: Option<PendingCommand>, raw: Bytes, after: Option<PendingCommand>,
                     first: seq<ControlEvent>, rest: Bytes)
    requires PendingFits(limits, pending) && RawLine(limits, pending, raw)
    requires Reads(limits, pending, WithoutCarriageReturns(raw), after, first)
    ensures Push(limits, Parser(Records, [], pending), raw + [LINE_FEED] + rest)
         == Prepended(first, Push(limits, Parser(Records, [], after), rest))
  {
    hide Feed, Reads, WithoutCarriageReturns, PendingFits, RawLine, ProcessLine;
    LinesAreRead(limits, pending, WithoutCarriageReturns(raw), after, first);
    PushRawLine(limits, pending, raw);
    PushAppend(limits, Parser(Records, [], pending), raw + [LINE_FEED], rest);
  }

  lemma {:induction false} LinesAreTaken(limits: ParserLimits, pending: Option<PendingCommand>, lines: seq<Bytes>,
                                         final: Option<PendingCommand>, body: seq<ControlEvent>, rest: Bytes)
    requires PendingFits(limits, pending) && ReadsTo(limits, pending, lines, final, body)
    ensures Push(limits, Parser(Records, [], pending), Terminated(lines) + rest)
         == Prepended(body, Push(limits, Parser(Records, [], final), rest))
    decreases |lines|
  {
    hide Push, Reads, WithoutCarriageReturns, PendingFits, RawLine, Prepended;
    if lines == [] {
      assert Terminated(lines) + rest == rest;
      NothingPrepended(Push(limits, Parser(Records, [], final), rest));
    } else {
      var text := WithoutCarriageReturns(lines[0]);
      var after: Option<PendingCommand>, n: nat :| n <= |body| && Reads(limits, pending, text, after, body[..n])
                      && ReadsTo(limits, after, lines[1..], final, body[n..]);
      ReadingKeepsFitting(limits, pending, text, after, body[..n]);
      LinesAreTaken(limits, after, lines[1..], final, body[n..], rest);
      FirstLineTaken(limits, pending, lines, after, body[..n], body[n..], rest, Push(limits, Parser(Records, [], final), rest));
      assert body[..n] + body[n..] == body;
    }
  }

  lemma FirstLineTaken(limits: ParserLimits, pending: Option<PendingCommand>, lines: seq<Bytes>,
                       after: Option<PendingCommand>, first: seq<ControlEvent>, later: seq<ControlEvent>, rest: Bytes, end: Outcome)
    requires PendingFits(limits, pending) && lines != [] && RawLine(limits, pending, lines[0])
    requires Reads(limits, pending, WithoutCarriageReturns(lines[0]), after, first)
    requires Push(limits, Parser(Records, [], after), Terminated(lines[1..]) + rest) == Prepended(later, end)
    ensures Push(limits, Parser(Records, [], pending), Terminated(lines) + rest) == Prepended(first + later, end)
  {
    hide Push, Reads, WithoutCarriageReturns, PendingFits, RawLine, Prepended;
    var more := Terminated(lines[1..]) + rest;
    LineThenRest(limits, pending, lines[0], after, first, more);
    assert Terminated(lines) + rest == lines[0] + [LINE_FEED] + more;
    PrependedTwice(first, later, end);
  }

  lemma NothingPrepended(o: Outcome)
    ensures Prepended([], o) == o
  {
    if o.Parsed? {
      assert [] + o.events == o.events;
    }
  }

  lemma PrependedTwice(a: seq<ControlEvent>, b: seq<ControlEvent>, o: Outcome)
    ensures Prepended(a, Prepended(b, o)) == Prepended(a + b, o)
  {
    if o.Parsed? {
      Reassociate(a, b, o.events);
    }
  }

  lemma EndIsBackslash(limits: ParserLimits, stream: Bytes, q: Parser, events: seq<ControlEvent>)
    requires stream != [] && stream[0] == ESCAPE
    requires Push(limits, Parser(Records, [], None), stream) == Parsed(q, events) && q.state == AtEnd
    ensures stream == [ESCAPE, BACKSLASH] && q == Parser(AtEnd, [], None) && events == [Ended]
  {
    hide Feed;
    var p := Parser(Records, [], None);
    var waiting := p.(state := PossibleStringTerminator);
    NothingFed(limits, p);
    assert [] + [stream[0]] == [ESCAPE];
    PushSnoc(limits, p, [], stream[0]);
    assert Push(limits, p, [ESCAPE]) == Parsed(waiting, []);
    assert stream != [ESCAPE];
    if |stream| > 1 {
      var rest := stream[2..];
      assert stream == [ESCAPE, stream[1]] + rest;
      assert [ESCAPE] + [stream[1]] == [ESCAPE, stream[1]];
      PushSnoc(limits, p, [ESCAPE], stream[1]);
      PushAppend(limits, p, [ESCAPE, stream[1]], rest);
      if stream[1] == BACKSLASH && rest != [] {
        NothingFollowsTheEnd(limits, waiting.(state := AtEnd), rest);
      }
      EndMarker(limits);
    }
  }

  /** Whatever reaches the end of the stream is a body of lines and the end marker. */
  lemma {:induction false} EndedBody(limits: ParserLimits, pending: Option<PendingCommand>, stream: Bytes, q: Parser,
                                     events: seq<ControlEvent>)
    returns (lines: seq<Bytes>, body: seq<ControlEvent>)
    requires PendingFits(limits, pending)
    requires Push(limits, Parser(Records, [], pending), stream) == Parsed(q, events) && q.state == AtEnd
    ensures q == Parser(AtEnd, [], None)
    ensures stream == Terminated(lines) + [ESCAPE, BACKSLASH] && events == body + [Ended]
    ensures ReadsTo(limits, pending, lines, None, body)
    decreases |stream|
  {
    hide Feed, Reads, WithoutCarriageReturns, PendingFits, ProcessLine;
    var p := Parser(Records, [], pending);
    NothingFed(limits, p);
    if pending.None? && stream[0] == ESCAPE {
      EndIsBackslash(limits, stream, q, events);
      lines, body := [], [];
    } else {
      var feed := IndexOf(stream, LINE_FEED);
      if feed.None? {
        PushLongContent(limits, pending, stream);
      } else {
        var raw, rest := stream[..feed.value], stream[feed.value + 1..];
        assert stream == raw + [LINE_FEED] + rest;
        PushLongContent(limits, pending, raw);
        PushAppend(limits, p, raw, [LINE_FEED]);
        PushAppend(limits, p, raw + [LINE_FEED], rest);
        PushRawLine(limits, pending, raw);
        var text := WithoutCarriageReturns(raw);
        var step := ProcessLine(limits, pending, text);
        LinesEndRecords(limits, pending, text);
        var after := step.parser.pending;
        LinesAreRead(limits, pending, text, after, step.events);
        ReadingKeepsFitting(limits, pending, text, after, step.events);
        var later := Push(limits, step.parser, rest);
        var moreLines, moreBody := EndedBody(limits, after, rest, q, later.events);
        lines, body := [raw] + moreLines, step.events + moreBody;
        assert body[..|step.events|] == step.events && body[|step.events|..] == moreBody;
        assert lines[1..] == moreLines;
        assert Terminated(lines) == raw + [LINE_FEED] + Terminated(moreLines);
        assert events == body + [Ended];
      }
    }
  }

  /** Nothing is accepted unless it starts with the start marker. */
  lemma {:induction false} StartsWithMarker(limits: ParserLimits, stream: Bytes, m: nat)
    requires Push(limits, FRESH, stream).Parsed? && m <= |stream| && m <= |CONTROL_START|
    ensures stream[..m] == CONTROL_START[..m]
  {
    hide Feed;
    if m > 0 {
      StartsWithMarker(limits, stream, m - 1);
      StartMarkerIsMatched(limits, m - 1);
      PushSnoc(limits, FRESH, stream[..m - 1], stream[m - 1]);
      assert stream[..m] == stream[..m - 1] + [stream[m - 1]];
      assert stream == stream[..m] + stream[m..];
      PushAppend(limits, FRESH, stream[..m], stream[m..]);
      assert CONTROL_START[..m] == CONTROL_START[..m - 1] + [CONTROL_START[m - 1]];
    }
  }

  /**
    * The parser accepts exactly the format: it ends without error on a byte string, with these
    * events, if and only if the string is a stream whose lines spell them.
    */
  lemma AcceptsExactlyStreams(limits: ParserLimits, stream: Bytes, events: seq<ControlEvent>)
    ensures (exists q :: Push(limits, FRESH, stream) == Parsed(q, events) && Finish(q).Ok?)
       <==> StreamSpells(limits, stream, events)
  {
    hide Feed, ReadsTo;
    var idle := Parser(Records, [], None);
    StartMarkerIsMatched(limits, |CONTROL_START|);
    assert CONTROL_START[..|CONTROL_START|] == CONTROL_START;
    if q :| Push(limits, FRESH, stream) == Parsed(q, events) && Finish(q).Ok? {
      if |stream| < |CONTROL_START| {
        assert stream[..|stream|] == stream;
        StartsWithMarker(limits, stream, |stream|);
        StartMarkerIsMatched(limits, |stream|);
      } else {
        StartsWithMarker(limits, stream, |CONTROL_START|);
        var rest := stream[|CONTROL_START|..];
        assert stream == CONTROL_START + rest;
        PushAppend(limits, FRESH, CONTROL_START, rest);
        var lines, body := EndedBody(limits, None, rest, q, Push(limits, idle, rest).events);
        assert CONTROL_START + (Terminated(lines) + [ESCAPE, BACKSLASH]) == CONTROL_START + Terminated(lines) + [ESCAPE, BACKSLASH];
        assert [Started] + (body + [Ended]) == [Started] + body + [Ended];
      }
    }
    if StreamSpells(limits, stream, events) {
      var lines, body :| stream == CONTROL_START + Terminated(lines) + [ESCAPE, BACKSLASH]
                         && events == [Started] + body + [Ended] && ReadsTo(limits, None, lines, None, body);
      var rest := Terminated(lines) + [ESCAPE, BACKSLASH];
      assert stream == CONTROL_START + rest;
      LinesAreTaken(limits, None, lines, None, body, [ESCAPE, BACKSLASH]);
      EndMarker(limits);
      PushAppend(limits, FRESH, CONTROL_START, rest);
      assert [Started] + (body + [Ended]) == [Started] + body + [Ended];
    }
  }

  /** What a stream cut off behind whole lines was in the middle of. */
  function CutState(open: Option<PendingCommand>, partial: Bytes): UnterminatedState {
    if partial == [ESCAPE] && open.None? then StringTerminator
    else if partial != [] then Record
    else if open.Some? then UnfinishedCommand
    else ControlStream
  }

  /** A stream cut off inside its start marker is reported as that; cut off later, as what was being read. */
  lemma CutNamesTheUnfinished(limits: ParserLimits, lines: seq<Bytes>, open: Option<PendingCommand>,
                              body: seq<ControlEvent>, partial: Bytes, m: nat)
    requires ReadsTo(limits, None, lines, open, body) && LINE_FEED !in partial && |partial| <= limits.maxLineBytes
    requires open.None? && partial != [] && partial[0] == ESCAPE ==> partial == [ESCAPE]
    requires m < |CONTROL_START|
    ensures var o := Push(limits, FRESH, CONTROL_START[..m]);
      o.Parsed? && o.events == [] && Finish(o.parser) == Err(Unterminated(StartMarker))
    ensures var o := Push(limits, FRESH, CONTROL_START + Terminated(lines) + partial);
      && o.Parsed? && o.events == [Started] + body && Finish(o.parser) == Err(Unterminated(CutState(open, partial)))
  {
    hide Feed, ReadsTo, ProcessLine, PendingFits;
    StartMarkerIsMatched(limits, m);
    StartMarkerIsMatched(limits, |CONTROL_START|);
    assert CONTROL_START[..|CONTROL_START|] == CONTROL_START;
    assert PendingFits(limits, None) by { NothingPendingFits(limits); }
    LinesAreTaken(limits, None, lines, open, body, partial);
    var idle := Parser(Records, [], open);
    if open.None? && partial == [ESCAPE] {
      NothingFed(limits, idle);
      assert [] + [ESCAPE] == [ESCAPE];
      PushSnoc(limits, idle, [], ESCAPE);
    } else {
      PushContent(limits, open, partial);
    }
    assert CONTROL_START + Terminated(lines) + partial == CONTROL_START + (Terminated(lines) + partial);
    PushAppend(limits, FRESH, CONTROL_START, Terminated(lines) + partial);
  }

  lemma NothingPendingFits(limits: ParserLimits)
    ensures PendingFits(limits, None)
  {
  }
}

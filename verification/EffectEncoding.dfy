/** What an effect costs, what is kept of one that is too long, and what is sent for it. */
module EffectEncoding {
  import opened Common
  import opened TerminalEvents

  // ----- cost -----

  function ContentsPayload(contents: seq<ClipboardContent>): Bytes {
    if contents == [] then [] else contents[0].mime + contents[0].data + ContentsPayload(contents[1..])
  }

  /** Everything of variable length that an effect carries. */
  function Payload(event: TerminalEvent): Bytes {
    match event
    case TitleChanged(title) => title
    case WorkingDirectoryChanged(directory) => directory
    case ClipboardWrite(contents) => ContentsPayload(contents)
    case DesktopNotification(heading, body) => heading + body
    case PtyReply(reply) => reply
    case UnknownSequence(content, _) => content
    case Bell => []
    case ProgressReport(_, _) => []
    case Query(_) => []
  }

  lemma {:induction false} ContentsCost(contents: seq<ClipboardContent>)
    ensures ContentsLength(contents) == |ContentsPayload(contents)|
  {
    if contents != [] {
      ContentsCost(contents[1..]);
    }
  }

  /** An effect is charged for every byte it carries and sixteen besides. */
  lemma ChargedForItsPayload(event: TerminalEvent)
    ensures RetainedBytes(event) == 16 + |Payload(event)|
  {
    if event.ClipboardWrite? {
      ContentsCost(event.contents);
    }
  }

  // ----- bounding -----

  /** `cut` is the longest part from the front of `value`, at most `limit` bytes, that splits no character. */
  predicate IsLongestCut(cut: Bytes, value: Bytes, limit: nat) {
    && cut <= value && |cut| <= limit
    && (cut == value || forall k :: |cut| < k <= limit && k < |value| ==> 0x80 <= value[k] < 0xc0)
    && (|cut| < |value| && cut != [] ==> !(0x80 <= value[|cut|] < 0xc0))
    && (|value| <= limit ==> cut == value)
  }

  lemma TruncatingKeepsTheMost(value: Bytes, limit: nat)
    ensures IsLongestCut(TruncateString(value, limit), value, limit)
  {
    var cut := TruncateString(value, limit);
    if |value| > limit {
      forall k | |cut| < k <= limit && k < |value|
        ensures 0x80 <= value[k] < 0xc0
      {
        assert !IsCharBoundary(value, k);
      }
    }
  }

  function NonEmpty(contents: seq<ClipboardContent>): seq<ClipboardContent> {
    Filter(contents, (c: ClipboardContent) => c.mime != [] || c.data != [])
  }

  lemma {:induction false} FittingContentsStay(contents: seq<ClipboardContent>, limit: nat)
    requires ContentsLength(contents) <= limit
    ensures BoundContents(contents, limit) == NonEmpty(contents)
  {
    if contents != [] {
      FittingContentsStay(contents[1..], limit - |contents[0].mime| - |contents[0].data|);
    }
  }

  /** An effect that fits is kept as it is, except for empty clipboard entries. */
  lemma FittingEffectsStay(event: TerminalEvent, maximum: nat)
    requires RetainedBytes(event) <= maximum
    ensures Bound(event, maximum) == if event.ClipboardWrite? then ClipboardWrite(NonEmpty(event.contents)) else event
  {
    if event.ClipboardWrite? {
      FittingContentsStay(event.contents, maximum - 16);
    }
  }

  /**
    * Entry by entry, in order, each within what the earlier ones left: the type as a longest cut, then
    * as many bytes of data as fit; entries of which nothing is left are dropped.
    */
  predicate AreCuts(cuts: seq<ClipboardContent>, contents: seq<ClipboardContent>, limit: nat)
    decreases |contents|
  {
    if contents == [] then cuts == []
    else
      var mime := TruncateString(contents[0].mime, limit);
      var data := contents[0].data[..Min(|contents[0].data|, limit - |mime|)];
      && IsLongestCut(mime, contents[0].mime, limit)
      && if mime == [] && data == [] then AreCuts(cuts, contents[1..], limit)
         else cuts != [] && cuts[0] == ClipboardContent(mime, data)
              && AreCuts(cuts[1..], contents[1..], limit - |mime| - |data|)
  }

  lemma CutFits(value: Bytes, limit: nat)
    ensures |TruncateString(value, limit)| <= limit
  {
  }

  lemma TruncateIs(bytes: Bytes, limit: nat)
    ensures Truncate(bytes, limit) == bytes[..Min(|bytes|, limit)]
  {
  }

  lemma BoundContentsIs(contents: seq<ClipboardContent>, limit: nat)
    requires contents != []
    ensures |TruncateString(contents[0].mime, limit)| <= limit
    ensures var mime := TruncateString(contents[0].mime, limit);
      var data := contents[0].data[..Min(|contents[0].data|, limit - |mime|)];
      var rest := BoundContents(contents[1..], limit - |mime| - |data|);
      BoundContents(contents, limit) == if mime == [] && data == [] then rest else [ClipboardContent(mime, data)] + rest
  {
    hide TruncateString, Truncate;
    CutFits(contents[0].mime, limit);
    TruncateIs(contents[0].data, limit - |TruncateString(contents[0].mime, limit)|);
  }

  lemma {:induction false} ContentsAreCut(contents: seq<ClipboardContent>, limit: nat)
    ensures AreCuts(BoundContents(contents, limit), contents, limit)
  {
    hide IsLongestCut, TruncateString, BoundContents;
    BoundNothing(limit);
    if contents != [] {
      BoundContentsIs(contents, limit);
      TruncatingKeepsTheMost(contents[0].mime, limit);
      var mime := TruncateString(contents[0].mime, limit);
      var data := contents[0].data[..Min(|contents[0].data|, limit - |mime|)];
      var rest := BoundContents(contents[1..], limit - |mime| - |data|);
      ContentsAreCut(contents[1..], limit - |mime| - |data|);
      assert ([ClipboardContent(mime, data)] + rest)[1..] == rest;
    }
  }

  lemma BoundNothing(limit: nat)
    ensures BoundContents([], limit) == []
  {
  }

  /** Of an effect that is too long the front is kept, whole characters of text and as many bytes as fit. */
  lemma LongEffectsAreCut(event: TerminalEvent, maximum: nat)
    ensures var bound, limit := Bound(event, maximum), if maximum >= 16 then maximum - 16 else 0;
      match event
      case TitleChanged(title) => bound.TitleChanged? && IsLongestCut(bound.title, title, limit)
      case WorkingDirectoryChanged(directory) =>
        bound.WorkingDirectoryChanged? && IsLongestCut(bound.directory, directory, limit)
      case DesktopNotification(heading, body) =>
        bound.DesktopNotification? && IsLongestCut(bound.heading, heading, limit)
        && IsLongestCut(bound.body, body, limit - |bound.heading|)
      case PtyReply(reply) => bound == PtyReply(if |reply| <= limit then reply else reply[..limit])
      case UnknownSequence(content, truncated) =>
        bound == UnknownSequence(if |content| <= limit then content else content[..limit], truncated)
      case ClipboardWrite(contents) => bound.ClipboardWrite? && AreCuts(bound.contents, contents, limit)
      case _ => bound == event
  {
    var limit := if maximum >= 16 then maximum - 16 else 0;
    match event
    case TitleChanged(title) => TruncatingKeepsTheMost(title, limit);
    case WorkingDirectoryChanged(directory) => TruncatingKeepsTheMost(directory, limit);
    case DesktopNotification(heading, body) =>
      TruncatingKeepsTheMost(heading, limit);
      TruncatingKeepsTheMost(body, limit - |TruncateString(heading, limit)|);
    case ClipboardWrite(contents) => ContentsAreCut(contents, limit);
    case _ =>
  }

  // ----- encoding -----

  /** The bytes of `value` that are not control characters. */
  function Clean(value: Bytes): Bytes {
    Filter(value, (b: Byte) => b >= 0x20 && b != 0x7f)
  }

  lemma {:induction false} PrintableIsClean(value: Bytes)
    ensures Printable(value) == Clean(value)
    ensures forall b :: b in Clean(value) ==> b >= 0x20 && b != 0x7f
  {
    if value != [] {
      PrintableIsClean(value[1..]);
    }
  }

  /** The number a row of ASCII digits stands for. */
  function NumberOf(digits: Bytes): int {
    if digits == [] then 0 else NumberOf(digits[..|digits| - 1]) * 10 + (digits[|digits| - 1] as int - 0x30)
  }

  lemma DecimalIsTheNumber(n: nat)
    requires n < 1000
    ensures NumberOf(Decimal(n)) == n
    ensures forall d :: d in Decimal(n) ==> 0x30 <= d <= 0x39
    ensures |Decimal(n)| > 1 ==> Decimal(n)[0] != 0x30
  {
    hide NumberOf;
    if n >= 100 {
      MoreDigits([0x30 + n / 100], 0x30 + n / 10 % 10);
      MoreDigits([0x30 + n / 100] + [0x30 + n / 10 % 10], 0x30 + n % 10);
      OneDigit(0x30 + n / 100);
      assert Decimal(n) == [0x30 + n / 100] + [0x30 + n / 10 % 10] + [0x30 + n % 10];
    } else if n >= 10 {
      MoreDigits([0x30 + n / 10], 0x30 + n % 10);
      assert Decimal(n) == [0x30 + n / 10] + [0x30 + n % 10];
      OneDigit(0x30 + n / 10);
    } else {
      OneDigit(0x30 + n);
      assert Decimal(n) == [0x30 + n];
    }
  }

  lemma MoreDigits(digits: Bytes, last: Byte)
    ensures NumberOf(digits + [last]) == NumberOf(digits) * 10 + (last as int - 0x30)
  {
    assert (digits + [last])[..|digits|] == digits;
  }

  lemma OneDigit(digit: Byte)
    ensures NumberOf([digit]) == digit as int - 0x30
  {
    assert [digit][..0] == [];
  }

  /** OSC 9;4 with the number of the state and, if there is a percentage, its digits. */
  ghost predicate IsProgress(bytes: Bytes, number: Byte, progress: Option<Byte>) {
    if progress.None? then bytes == [0x1b, 0x5d, 0x39, 0x3b, 0x34, 0x3b, number, 0x1b, 0x5c]
    else
      exists digits: Bytes ::
        && bytes == [0x1b, 0x5d, 0x39, 0x3b, 0x34, 0x3b, number, 0x3b] + digits + [0x1b, 0x5c]
        && NumberOf(digits) == (if progress.value <= 100 then progress.value as int else 100)
        && forall d :: d in digits ==> 0x30 <= d <= 0x39
  }

  lemma ProgressEncoding(state: ProgressState, progress: Option<Byte>)
    ensures IsProgress(Encode(ProgressReport(state, progress)), ProgressDigit(state), progress)
  {
    if progress.Some? {
      var digits := Decimal(Min(progress.value, 100));
      DecimalIsTheNumber(Min(progress.value, 100));
      assert Encode(ProgressReport(state, progress))
          == [0x1b, 0x5d, 0x39, 0x3b, 0x34, 0x3b, ProgressDigit(state), 0x3b] + digits + [0x1b, 0x5c];
    }
  }

  /**
    * What is sent: titles and directories as OSC 2 and 7, with nothing in them that could end the
    * string or start another control function; progress as OSC 9;4 with the number of its state and at
    * most 100 per cent; a bell as BEL; and nothing for any other effect.
    */
  lemma EncodingLaw(event: TerminalEvent)
    ensures match event
            case TitleChanged(title) => Encode(event) == [0x1b, 0x5d, 0x32, 0x3b] + Clean(title) + [0x1b, 0x5c]
            case WorkingDirectoryChanged(directory) =>
              Encode(event) == [0x1b, 0x5d, 0x37, 0x3b] + Clean(directory) + [0x1b, 0x5c]
            case ProgressReport(Remove, progress) => IsProgress(Encode(event), 0x30, progress)
            case ProgressReport(Set, progress) => IsProgress(Encode(event), 0x31, progress)
            case ProgressReport(Error, progress) => IsProgress(Encode(event), 0x32, progress)
            case ProgressReport(Indeterminate, progress) => IsProgress(Encode(event), 0x33, progress)
            case ProgressReport(Pause, progress) => IsProgress(Encode(event), 0x34, progress)
            case Bell => Encode(event) == [7]
            case ClipboardWrite(_) => Encode(event) == []
            case DesktopNotification(_, _) => Encode(event) == []
            case Query(_) => Encode(event) == []
            case PtyReply(_) => Encode(event) == []
            case UnknownSequence(_, _) => Encode(event) == []
  {
    hide IsProgress;
    match event
    case TitleChanged(title) => PrintableIsClean(title);
    case WorkingDirectoryChanged(directory) => PrintableIsClean(directory);
    case ProgressReport(state, progress) => ProgressEncoding(state, progress);
    case _ =>
  }
}

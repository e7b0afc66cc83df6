/**
  * Terminal effects as the output scheduler sees them: their kind, what they cost while retained,
  * how they are bounded, and the bytes they become. Strings are their UTF-8 bytes.
  */
module TerminalEvents {
  import opened Common

  datatype ProgressState = Remove | Set | Error | Indeterminate | Pause

  datatype ClipboardContent = ClipboardContent(mime: Bytes, data: Bytes)

  datatype TerminalEvent =
    | Bell
    | TitleChanged(title: Bytes)
    | WorkingDirectoryChanged(directory: Bytes)
    | ClipboardWrite(contents: seq<ClipboardContent>)
    | DesktopNotification(heading: Bytes, body: Bytes)
    | ProgressReport(state: ProgressState, progress: Option<Byte>)
    | Query(query: nat)
    | PtyReply(reply: Bytes)
    | UnknownSequence(content: Bytes, truncated: bool)

  datatype EventKind =
    | BellKind | TitleKind | WorkingDirectoryKind | ClipboardKind | NotificationKind
    | ProgressKind | QueryKind | ReplyKind | UnknownKind

  function Kind(event: TerminalEvent): EventKind {
    match event
    case Bell => BellKind
    case TitleChanged(_) => TitleKind
    case WorkingDirectoryChanged(_) => WorkingDirectoryKind
    case ClipboardWrite(_) => ClipboardKind
    case DesktopNotification(_, _) => NotificationKind
    case ProgressReport(_, _) => ProgressKind
    case Query(_) => QueryKind
    case PtyReply(_) => ReplyKind
    case UnknownSequence(_, _) => UnknownKind
  }

  const ESC: Byte := 0x1b

  const EVENT_OVERHEAD := 16

  function ContentsLength(contents: seq<ClipboardContent>): nat {
    if contents == [] then 0
    else |contents[0].mime| + |contents[0].data| + ContentsLength(contents[1..])
  }

  function RetainedBytes(event: TerminalEvent): nat {
    EVENT_OVERHEAD +
    match event
    case TitleChanged(value) => |value|
    case WorkingDirectoryChanged(value) => |value|
    case ClipboardWrite(contents) => ContentsLength(contents)
    case DesktopNotification(title, body) => |title| + |body|
    case PtyReply(bytes) => |bytes|
    case UnknownSequence(bytes, _) => |bytes|
    case Bell => 0
    case ProgressReport(_, _) => 0
    case Query(_) => 0
  }

  // ----- encoding -----

  function Printable(value: Bytes): (r: Bytes)
    ensures |r| <= |value|
  {
    if value == [] then []
    else (if value[0] >= 0x20 && value[0] != 0x7f then [value[0]] else []) + Printable(value[1..])
  }

  function StringTerminator(): Bytes {
    [ESC, 0x5c]
  }

  /** An OSC string whose code is a single digit. */
  function Osc(code: Byte, value: Bytes): Bytes
    requires code < 10
  {
    [ESC, 0x5d, 0x30 + code, 0x3b] + Printable(value) + StringTerminator()
  }

  function ProgressDigit(state: ProgressState): Byte {
    match state
    case Remove => 0x30
    case Set => 0x31
    case Error => 0x32
    case Indeterminate => 0x33
    case Pause => 0x34
  }

  /** Decimal digits of a number of at most three digits, without leading zeros. */
  function Decimal(n: nat): (r: Bytes)
    requires n < 1000
    ensures 1 <= |r| <= 3
  {
    (if n >= 100 then [(0x30 + n / 100) as Byte] else []) +
    (if n >= 10 then [(0x30 + n / 10 % 10) as Byte] else []) +
    [(0x30 + n % 10) as Byte]
  }

  function Encode(event: TerminalEvent): Bytes {
    match event
    case TitleChanged(title) => Osc(2, title)
    case WorkingDirectoryChanged(directory) => Osc(7, directory)
    case ProgressReport(state, progress) =>
      [ESC, 0x5d, 0x39, 0x3b, 0x34, 0x3b, ProgressDigit(state)] +
      (match progress
       case None => []
       case Some(value) => [0x3b] + Decimal(Min(value, 100))) +
      StringTerminator()
    case Bell => [0x07]
    case ClipboardWrite(_) => []
    case DesktopNotification(_, _) => []
    case Query(_) => []
    case PtyReply(_) => []
    case UnknownSequence(_, _) => []
  }

  /** Activation never grows the backlog: an encoded effect fits in what it was charged. */
  lemma EncodedEffectFits(event: TerminalEvent)
    ensures |Encode(event)| <= RetainedBytes(event)
  {
    match event
    case ProgressReport(state, Some(value)) => assert |Decimal(Min(value, 100))| <= 3;
    case _ =>
  }

  // ----- bounding -----

  predicate IsContinuationByte(b: Byte) {
    0x80 <= b < 0xc0
  }

  predicate IsCharBoundary(value: Bytes, index: nat) {
    index == 0 || index == |value| || (index < |value| && !IsContinuationByte(value[index]))
  }

  /** The last character boundary at or before `index`. */
  function BoundaryBefore(value: Bytes, index: nat): (r: nat)
    requires index <= |value|
    ensures r <= index && IsCharBoundary(value, r)
    ensures forall k :: r < k <= index ==> !IsCharBoundary(value, k)
  {
    if IsCharBoundary(value, index) then index else BoundaryBefore(value, index - 1)
  }

  function TruncateString(value: Bytes, maximum: nat): (r: Bytes)
    ensures |r| <= maximum && r <= value
    ensures IsCharBoundary(value, |r|)
    ensures |value| <= maximum ==> r == value
  {
    if |value| <= maximum then value else value[..BoundaryBefore(value, maximum)]
  }

  function Truncate(bytes: Bytes, maximum: nat): Bytes {
    if |bytes| <= maximum then bytes else bytes[..maximum]
  }

  function BoundContents(contents: seq<ClipboardContent>, remaining: nat): (r: seq<ClipboardContent>)
    ensures ContentsLength(r) <= remaining
  {
    if contents == [] then []
    else
      var mime := TruncateString(contents[0].mime, remaining);
      var data := Truncate(contents[0].data, remaining - |mime|);
      var rest := BoundContents(contents[1..], remaining - |mime| - |data|);
      if mime == [] && data == [] then rest
      else
        var kept := [ClipboardContent(mime, data)] + rest;
        assert kept[1..] == rest;
        kept
  }

  /** An effect cut down so that it can be retained within `maximum` bytes, if any effect can. */
  function Bound(event: TerminalEvent, maximum: nat): (r: TerminalEvent)
    ensures Kind(r) == Kind(event)
    ensures RetainedBytes(r) <= Max(maximum, EVENT_OVERHEAD)
    ensures event.TitleChanged? && RetainedBytes(event) <= maximum ==> r == event
  {
    var limit := Sub(maximum, EVENT_OVERHEAD);
    match event
    case TitleChanged(value) => TitleChanged(TruncateString(value, limit))
    case WorkingDirectoryChanged(value) => WorkingDirectoryChanged(TruncateString(value, limit))
    case ClipboardWrite(contents) => ClipboardWrite(BoundContents(contents, limit))
    case DesktopNotification(title, body) =>
      var bounded := TruncateString(title, limit);
      DesktopNotification(bounded, TruncateString(body, limit - |bounded|))
    case PtyReply(bytes) => PtyReply(Truncate(bytes, limit))
    case UnknownSequence(bytes, truncated) => UnknownSequence(Truncate(bytes, limit), truncated)
    case Bell => event
    case ProgressReport(_, _) => event
    case Query(_) => event
  }
}

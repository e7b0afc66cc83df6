/**
  * The startup probe broker: a byte-at-a-time filter between the physical terminal and the
  * application. The reference is a lexer over the whole input since the last timeout.
  */
module ProbeBroker {
  import opened Common

  const ESC: Byte := 0x1b
  const BEL: Byte := 0x07
  const BACKSLASH: Byte := 0x5c
  const LEFT_BRACKET: Byte := 0x5b
  const RIGHT_BRACKET: Byte := 0x5d
  const UPPER_P: Byte := 0x50
  const UNDERSCORE: Byte := 0x5f

  const MAX_PROBE_REPLY_BYTES: nat := 4096
  const PROBE_INACTIVITY_TIMEOUT_MS: nat := 50

  // ----- what an escape sequence is -----

  predicate IsFinal(b: Byte) {
    0x40 <= b <= 0x7e
  }

  predicate IsStringIntroducer(b: Byte) {
    b == RIGHT_BRACKET || b == UPPER_P || b == UNDERSCORE
  }

  /** The first `n` bytes of a string sequence end with BEL or with ESC backslash. */
  predicate StringEndsAt(t: Bytes, n: nat)
    requires n <= |t|
  {
    n >= 3 && (t[n - 1] == BEL || (n >= 4 && t[n - 2] == ESC && t[n - 1] == BACKSLASH))
  }

  predicate EndsAt(t: Bytes, n: nat)
    requires n <= |t|
  {
    n >= 2 &&
    if t[1] == LEFT_BRACKET then n >= 3 && IsFinal(t[n - 1])
    else if IsStringIntroducer(t[1]) then StringEndsAt(t, n)
    else n == 2
  }

  /** A whole escape sequence: it ends at its last byte and at no earlier one. */
  predicate IsEscape(t: Bytes) {
    && |t| >= 2 && t[0] == ESC
    && EndsAt(t, |t|)
    && forall n :: 2 <= n < |t| ==> !EndsAt(t, n)
  }

  /** ESC [ and a final byte, with no final byte before it. */
  ghost predicate IsControlSequence(t: Bytes) {
    && |t| >= 3 && t[..2] == [0x1b, 0x5b] && 0x40 <= t[|t| - 1] <= 0x7e
    && forall i :: 2 <= i < |t| - 1 ==> !(0x40 <= t[i] <= 0x7e)
  }

  /** BEL, or ESC backslash behind the introducer, stands at `i`. */
  ghost predicate TerminatorAt(t: Bytes, i: nat) {
    i < |t| && (t[i] == 0x07 || (i >= 3 && t[i - 1] == 0x1b && t[i] == 0x5c))
  }

  /** ESC ], ESC P or ESC _, and anything up to the first terminator. */
  ghost predicate IsControlString(t: Bytes) {
    && |t| >= 3 && t[0] == 0x1b && (t[1] == 0x5d || t[1] == 0x50 || t[1] == 0x5f) && TerminatorAt(t, |t| - 1)
    && forall i :: 2 <= i < |t| - 1 ==> !TerminatorAt(t, i)
  }

  lemma SequenceForm(t: Bytes)
    requires |t| >= 3 && t[0] == 0x1b && t[1] == 0x5b
    ensures IsEscape(t) <==> IsControlSequence(t)
  {
    if IsEscape(t) {
      forall i | 2 <= i < |t| - 1
        ensures !(0x40 <= t[i] <= 0x7e)
      {
        assert !EndsAt(t, i + 1);
      }
    }
  }

  lemma StringForm(t: Bytes)
    requires |t| >= 3 && t[0] == 0x1b && (t[1] == 0x5d || t[1] == 0x50 || t[1] == 0x5f)
    ensures IsEscape(t) <==> IsControlString(t)
  {
    if IsEscape(t) {
      forall i | 2 <= i < |t| - 1
        ensures !TerminatorAt(t, i)
      {
        assert !EndsAt(t, i + 1);
      }
    }
    if IsControlString(t) {
      forall n | 2 <= n < |t|
        ensures !EndsAt(t, n)
      {
        assert n >= 3 ==> !TerminatorAt(t, n - 1);
      }
    }
  }

  /** Whole escape sequences are control sequences, control strings, and ESC with any other byte. */
  lemma EscapesHaveThreeForms(t: Bytes)
    ensures IsEscape(t) <==>
            || IsControlSequence(t) || IsControlString(t)
            || (|t| == 2 && t[0] == 0x1b && t[1] !in [0x5b, 0x5d, 0x50, 0x5f])
  {
    if |t| >= 3 && t[0] == 0x1b {
      if t[1] == 0x5b {
        SequenceForm(t);
      } else if t[1] == 0x5d || t[1] == 0x50 || t[1] == 0x5f {
        StringForm(t);
      } else {
        assert EndsAt(t, 2);
      }
    }
  }

  // ----- the scan of the source -----

  function FinalIndex(bytes: Bytes, index: nat): Option<nat>
    requires index <= |bytes|
    decreases |bytes| - index
  {
    if index == |bytes| then None
    else if IsFinal(bytes[index]) then Some(index + 1)
    else FinalIndex(bytes, index + 1)
  }

  function StringEnd(bytes: Bytes, index: nat): Option<nat>
    requires index <= |bytes|
    decreases |bytes| - index
  {
    if index == |bytes| then None
    else if bytes[index] == BEL then Some(index + 1)
    else if bytes[index] == ESC && index + 1 < |bytes| && bytes[index + 1] == BACKSLASH then Some(index + 2)
    else StringEnd(bytes, index + 1)
  }

  function CompleteEscapeLength(bytes: Bytes): Option<nat> {
    if |bytes| < 2 then None
    else if bytes[1] == LEFT_BRACKET then FinalIndex(bytes, 2)
    else if IsStringIntroducer(bytes[1]) then StringEnd(bytes, 2)
    else Some(2)
  }

  lemma {:induction false} FinalIndexIsFirst(bytes: Bytes, index: nat)
    requires 2 <= index <= |bytes| && bytes[1] == LEFT_BRACKET
    requires forall n :: 2 <= n <= index ==> !EndsAt(bytes, n)
    ensures match FinalIndex(bytes, index)
            case None => forall n :: 2 <= n <= |bytes| ==> !EndsAt(bytes, n)
            case Some(end) => 2 <= end <= |bytes| && EndsAt(bytes, end)
                              && forall n :: 2 <= n < end ==> !EndsAt(bytes, n)
    decreases |bytes| - index
  {
    if index < |bytes| && !IsFinal(bytes[index]) {
      FinalIndexIsFirst(bytes, index + 1);
    }
  }

  lemma {:induction false} StringEndIsFirst(bytes: Bytes, index: nat)
    requires 2 <= index <= |bytes| && IsStringIntroducer(bytes[1])
    requires forall n :: 2 <= n <= index ==> !EndsAt(bytes, n)
    requires index < |bytes| && index > 2 && bytes[index - 1] == ESC ==> bytes[index] != BACKSLASH
    ensures match StringEnd(bytes, index)
            case None => forall n :: 2 <= n <= |bytes| ==> !EndsAt(bytes, n)
            case Some(end) => 2 <= end <= |bytes| && EndsAt(bytes, end)
                              && forall n :: 2 <= n < end ==> !EndsAt(bytes, n)
    decreases |bytes| - index
  {
    if index == |bytes| {
    } else if bytes[index] == BEL {
    } else if bytes[index] == ESC && index + 1 < |bytes| && bytes[index + 1] == BACKSLASH {
    } else {
      StringEndIsFirst(bytes, index + 1);
    }
  }

  /** The scan finds the shortest prefix at which the sequence ends, and fails only when there is none. */
  lemma ScanFindsTheEnd(bytes: Bytes)
    ensures match CompleteEscapeLength(bytes)
            case None => forall n :: 2 <= n <= |bytes| ==> !EndsAt(bytes, n)
            case Some(end) => 2 <= end <= |bytes| && EndsAt(bytes, end)
                              && forall n :: 2 <= n < end ==> !EndsAt(bytes, n)
  {
    if |bytes| >= 2 && bytes[1] == LEFT_BRACKET {
      FinalIndexIsFirst(bytes, 2);
    } else if |bytes| >= 2 && IsStringIntroducer(bytes[1]) {
      StringEndIsFirst(bytes, 2);
    }
  }

  lemma EndsAtDependsOnPrefix(a: Bytes, b: Bytes, n: nat)
    requires n <= |a| && n <= |b| && a[..n] == b[..n] && n >= 2
    ensures EndsAt(a, n) <==> EndsAt(b, n)
  {
    assert a[1] == a[..n][1] && b[1] == b[..n][1] && a[n - 1] == a[..n][n - 1] && b[n - 1] == b[..n][n - 1];
    if n >= 4 {
      assert a[n - 2] == a[..n][n - 2] && b[n - 2] == b[..n][n - 2];
    }
  }

  /** Exactly the prefixes that are whole escape sequences are cut off. */
  lemma CutsExactlyEscapes(bytes: Bytes, n: nat)
    requires bytes != [] && bytes[0] == ESC && n <= |bytes|
    ensures CompleteEscapeLength(bytes) == Some(n) <==> IsEscape(bytes[..n])
  {
    ScanFindsTheEnd(bytes);
    forall k | 2 <= k <= n
      ensures EndsAt(bytes, k) <==> EndsAt(bytes[..n], k)
    {
      assert bytes[..n][..k] == bytes[..k];
      EndsAtDependsOnPrefix(bytes, bytes[..n], k);
    }
  }

  lemma MoreInputKeepsTheEnd(bytes: Bytes, more: Bytes)
    requires CompleteEscapeLength(bytes).Some?
    ensures CompleteEscapeLength(bytes + more) == CompleteEscapeLength(bytes)
  {
    ScanFindsTheEnd(bytes);
    ScanFindsTheEnd(bytes + more);
    var end := CompleteEscapeLength(bytes).value;
    forall n | 2 <= n <= end
      ensures EndsAt(bytes, n) <==> EndsAt(bytes + more, n)
    {
      assert (bytes + more)[..n] == bytes[..n];
      EndsAtDependsOnPrefix(bytes, bytes + more, n);
    }
  }

  /** An unfinished sequence can only be completed by the byte that arrives. */
  lemma OneByteCompletesAtItself(bytes: Bytes, b: Byte)
    requires CompleteEscapeLength(bytes).None?
    ensures CompleteEscapeLength(bytes + [b]).Some? ==> CompleteEscapeLength(bytes + [b]) == Some(|bytes| + 1)
    ensures CompleteEscapeLength(bytes + [b]).Some? <==> |bytes| > 0 && EndsAt(bytes + [b], |bytes| + 1)
  {
    ScanFindsTheEnd(bytes);
    ScanFindsTheEnd(bytes + [b]);
    forall n | 2 <= n <= |bytes|
      ensures !EndsAt(bytes + [b], n)
    {
      assert (bytes + [b])[..n] == bytes[..n];
      EndsAtDependsOnPrefix(bytes, bytes + [b], n);
    }
  }

  // ----- the whole-input lexer -----

  /** A token is a plain byte or a whole escape sequence. */
  function Tokens(input: Bytes): seq<Bytes>
    decreases |input|
  {
    if input == [] then []
    else if input[0] != ESC then [input[..1]] + Tokens(input[1..])
    else
      ScanFindsTheEnd(input);
      match CompleteEscapeLength(input)
      case None => []
      case Some(n) => [input[..n]] + Tokens(input[n..])
  }

  /** The unfinished escape sequence at the end of the input. */
  function Residue(input: Bytes): Bytes
    decreases |input|
  {
    if input == [] then []
    else if input[0] != ESC then Residue(input[1..])
    else
      ScanFindsTheEnd(input);
      match CompleteEscapeLength(input)
      case None => input
      case Some(n) => Residue(input[n..])
  }

  predicate Unfinished(bytes: Bytes) {
    bytes == [] || (bytes[0] == ESC && forall n :: 0 <= n <= |bytes| ==> !IsEscape(bytes[..n]))
  }

  lemma {:induction false} LexingLosesNothing(input: Bytes)
    ensures Concat(Tokens(input)) + Residue(input) == input
    ensures forall t :: t in Tokens(input) ==> (|t| == 1 && t[0] != ESC) || IsEscape(t)
    ensures Unfinished(Residue(input))
    decreases |input|
  {
    if input != [] {
      ScanFindsTheEnd(input);
      var end := if input[0] != ESC then Some(1) else CompleteEscapeLength(input);
      if end.Some? {
        var n := end.value;
        LexingLosesNothing(input[n..]);
        if input[0] == ESC {
          CutsExactlyEscapes(input, n);
        }
        assert Tokens(input) == [input[..n]] + Tokens(input[n..]);
        Reassociate(input[..n], Concat(Tokens(input[n..])), Residue(input[n..]));
        assert input == input[..n] + input[n..];
      } else {
        forall n | 0 <= n <= |input|
          ensures !IsEscape(input[..n])
        {
          CutsExactlyEscapes(input, n);
        }
      }
    }
  }

  /** The next token of the input, if it is complete. */
  function FirstEnd(input: Bytes): (end: Option<nat>)
    requires input != []
    ensures end.Some? ==> 0 < end.value <= |input|
  {
    ScanFindsTheEnd(input);
    if input[0] != ESC then Some(1) else CompleteEscapeLength(input)
  }

  lemma LexStep(input: Bytes)
    requires input != []
    ensures FirstEnd(input).None? ==> Tokens(input) == [] && Residue(input) == input
    ensures FirstEnd(input).Some? ==>
              var n := FirstEnd(input).value;
              Tokens(input) == [input[..n]] + Tokens(input[n..]) && Residue(input) == Residue(input[n..])
  {
    ScanFindsTheEnd(input);
  }

  lemma FirstEndStays(input: Bytes, more: Bytes)
    requires input != [] && FirstEnd(input).Some?
    ensures FirstEnd(input + more) == FirstEnd(input)
  {
    if input[0] == ESC {
      MoreInputKeepsTheEnd(input, more);
    }
  }

  /** Lexing may stop anywhere and resume from the residue. */
  lemma {:induction false} LexingResumesFromResidue(input: Bytes, more: Bytes)
    ensures Tokens(input + more) == Tokens(input) + Tokens(Residue(input) + more)
    ensures Residue(input + more) == Residue(Residue(input) + more)
    decreases |input|
  {
    hide Tokens, Residue, FirstEnd;
    if input == [] {
      NothingLexed();
      assert input + more == more && Residue(input) + more == more;
    } else {
      LexStep(input);
      if FirstEnd(input).Some? {
        var n := FirstEnd(input).value;
        FirstEndInside(input);
        FirstEndStays(input, more);
        LexStep(input + more);
        assert (input + more)[n..] == input[n..] + more && (input + more)[..n] == input[..n];
        LexingResumesFromResidue(input[n..], more);
        Reassociate([input[..n]], Tokens(input[n..]), Tokens(Residue(input) + more));
      } else {
        assert [] + Tokens(input + more) == Tokens(input + more);
      }
    }
  }

  lemma FirstEndInside(input: Bytes)
    requires input != []
    ensures FirstEnd(input).Some? ==> 0 < FirstEnd(input).value <= |input|
  {
  }

  lemma NothingLexed()
    ensures Tokens([]) == [] && Residue([]) == []
  {
  }

  // ----- the filter -----

  predicate Oversized(token: Bytes) {
    |token| > MAX_PROBE_REPLY_BYTES
  }

  /** What reaches the application: every token but oversized ones and recognized replies. */
  function Passed(tokens: seq<Bytes>, recognizes: Bytes -> bool): Bytes {
    if tokens == [] then []
    else
      Passed(tokens[..|tokens| - 1], recognizes) +
      var last := tokens[|tokens| - 1];
      if |last| > 1 && (Oversized(last) || recognizes(last)) then [] else last
  }

  /** The replies taken by the broker, in order. */
  function Taken(tokens: seq<Bytes>, recognizes: Bytes -> bool): seq<Bytes> {
    if tokens == [] then []
    else
      Taken(tokens[..|tokens| - 1], recognizes) +
      var last := tokens[|tokens| - 1];
      if |last| > 1 && !Oversized(last) && recognizes(last) then [last] else []
  }

  function OversizedCount(tokens: seq<Bytes>): nat {
    if tokens == [] then 0
    else OversizedCount(tokens[..|tokens| - 1]) + if Oversized(tokens[|tokens| - 1]) then 1 else 0
  }

  /**
    * Every token goes one way: plain bytes and short sequences nobody recognizes pass, in order;
    * short recognized ones are taken, in order; the long ones are counted.
    */
  lemma {:induction false} EveryTokenGoesOneWay(tokens: seq<Bytes>, recognizes: Bytes -> bool)
    requires forall t :: t in tokens ==> t != []
    ensures Passed(tokens, recognizes) == Concat(Filter(tokens, (t: Bytes) => |t| == 1 || (|t| <= 4096 && !recognizes(t))))
    ensures Taken(tokens, recognizes) == Filter(tokens, (t: Bytes) => 2 <= |t| <= 4096 && recognizes(t))
    ensures OversizedCount(tokens) == |Filter(tokens, (t: Bytes) => |t| > 4096)|
  {
    var passes := (t: Bytes) => |t| == 1 || (|t| <= 4096 && !recognizes(t));
    var takes := (t: Bytes) => 2 <= |t| <= 4096 && recognizes(t);
    var oversized := (t: Bytes) => |t| > 4096;
    if tokens != [] {
      var front, last := tokens[..|tokens| - 1], tokens[|tokens| - 1];
      assert tokens == front + [last];
      assert forall t :: t in front ==> t in tokens;
      assert last in tokens && Concat([last]) == last + [] == last;
      EveryTokenGoesOneWay(front, recognizes);
      PassedPush(front, last, recognizes);
      FilterSnoc(front, last, passes);
      FilterSnoc(front, last, takes);
      FilterSnoc(front, last, oversized);
      ConcatAppend(Filter(front, passes), [last]);
      var kept := if passes(last) then last else [];
      assert Passed(tokens, recognizes) == Passed(front, recognizes) + kept;
      assert Filter(front, passes) + [] == Filter(front, passes);
      assert Concat(Filter(tokens, passes)) == Concat(Filter(front, passes)) + kept;
    }
  }

  lemma PassedPush(tokens: seq<Bytes>, last: Bytes, recognizes: Bytes -> bool)
    ensures Passed(tokens + [last], recognizes) == Passed(tokens, recognizes) +
            if |last| > 1 && (Oversized(last) || recognizes(last)) then [] else last
    ensures Taken(tokens + [last], recognizes) ==
            if |last| > 1 && !Oversized(last) && recognizes(last) then Taken(tokens, recognizes) + [last]
            else Taken(tokens, recognizes)
    ensures OversizedCount(tokens + [last]) == OversizedCount(tokens) + if Oversized(last) then 1 else 0
  {
    assert (tokens + [last])[..|tokens|] == tokens;
  }

  // ----- the streaming state -----

  datatype OversizedSequence = Csi | String(previousWasEscape: bool)

  /** The end of the input has been seen up to `residue`; an oversized residue is only tracked. */
  predicate Tracks(residue: Bytes, pending: Bytes, discarding: Option<OversizedSequence>) {
    if Oversized(residue) then
      && pending == []
      && discarding == if residue[1] == LEFT_BRACKET then Some(Csi)
                       else Some(String(residue[|residue| - 1] == ESC))
    else pending == residue && discarding == None
  }

  /** What one byte does to the lexer: it extends the residue or completes one token. */
  lemma OneByte(input: Bytes, b: Byte)
    ensures var r := Residue(input);
            var completes := if r == [] then b != ESC else CompleteEscapeLength(r + [b]).Some?;
            && Tokens(input + [b]) == (if completes then Tokens(input) + [r + [b]] else Tokens(input))
            && Residue(input + [b]) == (if completes then [] else r + [b])
  {
    LexingLosesNothing(input);
    LexingResumesFromResidue(input, [b]);
    var r := Residue(input);
    var all := r + [b];
    if r == [] {
      assert all == [b];
      assert all[1..] == [] && all[..1] == all;
      assert Tokens(input) + [] == Tokens(input);
    } else {
      assert CompleteEscapeLength(r) == None by {
        if CompleteEscapeLength(r).Some? {
          ScanFindsTheEnd(r);
          CutsExactlyEscapes(r, CompleteEscapeLength(r).value);
        }
      }
      OneByteCompletesAtItself(r, b);
      assert Tokens(input) + [] == Tokens(input);
      if CompleteEscapeLength(all).Some? {
        assert all[..|all|] == all && all[|all|..] == [];
      }
    }
  }

  /** While an oversized sequence is being dropped, its tracker recognizes the same end as the scan. */
  lemma TrackerSeesTheEnd(residue: Bytes, b: Byte)
    requires Oversized(residue) && CompleteEscapeLength(residue).None?
    ensures residue[1] == LEFT_BRACKET || IsStringIntroducer(residue[1])
    ensures CompleteEscapeLength(residue + [b]).Some? <==>
            if residue[1] == LEFT_BRACKET then IsFinal(b)
            else b == BEL || (residue[|residue| - 1] == ESC && b == BACKSLASH)
  {
    OneByteCompletesAtItself(residue, b);
  }

  lemma ResidueIsIncomplete(input: Bytes)
    ensures CompleteEscapeLength(Residue(input)).None?
    ensures Residue(input) != [] ==> Residue(input)[0] == ESC
  {
    LexingLosesNothing(input);
    var r := Residue(input);
    if r != [] && CompleteEscapeLength(r).Some? {
      ScanFindsTheEnd(r);
      CutsExactlyEscapes(r, CompleteEscapeLength(r).value);
    }
  }

  lemma WithheldBytes(input: Bytes, pending: Bytes, discarding: Option<OversizedSequence>)
    requires Tracks(Residue(input), pending, discarding)
    ensures |pending| <= MAX_PROBE_REPLY_BYTES && Unfinished(pending)
  {
    LexingLosesNothing(input);
  }

  class StartupProbeBroker {
    /** Whether the reply parsers claim a sequence; fixed by the probe policy. */
    const recognizes: Bytes -> bool
    /** Whether a claimed sequence is the primary device attributes reply that ends the probe. */
    const isFence: Bytes -> bool
    var pending: Bytes
    var discarding: Option<OversizedSequence>
    var finished: bool
    var lastActivityAtMs: nat
    var malformedReplies: nat
    /** The claimed replies in order: the terminal profile is a function of them. */
    var replies: seq<Bytes>
    /** Everything ingested since the start or the last timeout. */
    ghost var stream: Bytes
    ghost var repliesBefore: seq<Bytes>
    ghost var malformedBefore: nat

    ghost predicate Valid()
      reads this
    {
      && Tracks(Residue(stream), pending, discarding)
      && replies == repliesBefore + Taken(Tokens(stream), recognizes)
      && malformedReplies == malformedBefore + OversizedCount(Tokens(stream))
                             + if Oversized(Residue(stream)) then 1 else 0
    }

    constructor (recognizes: Bytes -> bool, isFence: Bytes -> bool, startedAtMs: nat)
      ensures Valid() && stream == [] && replies == [] && malformedReplies == 0 && !finished
      ensures this.recognizes == recognizes && this.isFence == isFence && lastActivityAtMs == startedAtMs
    {
      this.recognizes := recognizes;
      this.isFence := isFence;
      pending, discarding, finished := [], None, false;
      lastActivityAtMs, malformedReplies, replies := startedAtMs, 0, [];
      stream, repliesBefore, malformedBefore := [], [], 0;
    }

    method IngestByte(byte: Byte) returns (output: Bytes)
      requires Valid()
      modifies `pending, `discarding, `finished, `malformedReplies, `replies, `stream
      ensures Valid() && stream == old(stream) + [byte]
      ensures Passed(Tokens(stream), recognizes) == Passed(Tokens(old(stream)), recognizes) + output
      ensures old(replies) <= replies
      ensures finished <==> old(finished) || exists r :: r in replies[|old(replies)|..] && isFence(r)
    {
      ghost var before, r := stream, Residue(stream);
      ghost var tokens := Tokens(before);
      OneByte(before, byte);
      ResidueIsIncomplete(before);
      PassedPush(tokens, r + [byte], recognizes);
      hide Tokens, Residue, CompleteEscapeLength, Passed, Taken, OversizedCount, EndsAt, StringEndsAt, IsEscape, Unfinished;
      output := [];
      stream := stream + [byte];
      if discarding.Some? {
        TrackerSeesTheEnd(r, byte);
        var complete;
        match discarding.value {
          case Csi =>
            complete := IsFinal(byte);
          case String(previousWasEscape) =>
            complete := byte == BEL || (previousWasEscape && byte == BACKSLASH);
            discarding := Some(String(byte == ESC));
        }
        if complete {
          discarding := None;
        }
        return;
      }
      pending := pending + [byte];
      if pending[0] != ESC {
        output, pending := pending, [];
        return;
      }
      if r == [] {
        NotYet(pending);
      }
      match CompleteEscapeLength(pending) {
        case None =>
          if |pending| > MAX_PROBE_REPLY_BYTES {
            discarding := if pending[1] == LEFT_BRACKET then Some(Csi)
                          else if IsStringIntroducer(pending[1]) then Some(String(pending[|pending| - 1] == ESC))
                          else None;
            LongAndUnfinished(pending);
            pending := [];
            malformedReplies := malformedReplies + 1;
          }
        case Some(length) =>
          OneByteCompletesAtItself(r, byte);
          var sequence := pending[..length];
          pending := pending[length..];
          assert sequence == r + [byte] && Tokens(stream) == tokens + [sequence];
          if |sequence| > MAX_PROBE_REPLY_BYTES {
            malformedReplies := malformedReplies + 1;
          } else if recognizes(sequence) {
            Reassociate(repliesBefore, Taken(tokens, recognizes), [sequence]);
            replies := replies + [sequence];
            finished := finished || isFence(sequence);
          } else {
            output := sequence;
            assert Taken(Tokens(stream), recognizes) == Taken(tokens, recognizes);
          }
      }
    }

    /**
      * Streaming equals batch: however the bytes since the last timeout were cut into calls, the
      * total output is the filtered lexing of their concatenation.
      */
    method Ingest(input: Bytes, nowMs: nat) returns (output: Bytes)
      requires Valid()
      modifies `pending, `discarding, `finished, `malformedReplies, `replies, `stream, `lastActivityAtMs
      ensures Valid() && stream == old(stream) + input
      ensures Passed(Tokens(stream), recognizes) == Passed(Tokens(old(stream)), recognizes) + output
      ensures |pending| <= MAX_PROBE_REPLY_BYTES && Unfinished(pending)
      ensures lastActivityAtMs == if input == [] then old(lastActivityAtMs) else nowMs
    {
      hide Tokens, Residue, Passed, Taken, OversizedCount, Tracks;
      if input != [] {
        lastActivityAtMs := nowMs;
      }
      output := [];
      for i := 0 to |input|
        invariant Valid() && stream == old(stream) + input[..i]
        invariant lastActivityAtMs == if input == [] then old(lastActivityAtMs) else nowMs
        invariant Passed(Tokens(stream), recognizes) == Passed(Tokens(old(stream)), recognizes) + output
      {
        assert input[..i + 1] == input[..i] + [input[i]];
        ghost var earlier := output;
        var passed := IngestByte(input[i]);
        output := output + passed;
        Reassociate(Passed(Tokens(old(stream)), recognizes), earlier, passed);
      }
      assert input[..|input|] == input;
      WithheldBytes(stream, pending, discarding);
    }

    /** A timeout releases a withheld partial sequence unchanged, and lexing starts afresh. */
    method FinishIfTimedOut(nowMs: nat) returns (output: Bytes)
      requires Valid()
      modifies `pending, `discarding, `finished, `stream, `repliesBefore, `malformedBefore
      ensures Valid()
      ensures var deadline := old(NextDeadlineMs());
        if deadline.Some? && nowMs >= deadline.value then finished && NextDeadlineMs() == None
        else output == [] && pending == old(pending) && discarding == old(discarding) && finished == old(finished)
      ensures var due := nowMs >= lastActivityAtMs + PROBE_INACTIVITY_TIMEOUT_MS + 1;
        && (due ==> finished && pending == [] && discarding == None)
        && (due ==> output == if Oversized(Residue(old(stream))) then [] else Residue(old(stream)))
        && (!due ==> output == [] && stream == old(stream) && finished == old(finished))
        && (due ==> Residue(stream) == [])
    {
      if Sub(nowMs, lastActivityAtMs) <= PROBE_INACTIVITY_TIMEOUT_MS {
        return [];
      }
      if finished && pending == [] && discarding.None? {
        return [];
      }
      finished, discarding := true, None;
      output, pending := pending, [];
      stream, repliesBefore, malformedBefore := [], replies, malformedReplies;
    }

    /** The next moment at which a timeout would have an effect. */
    function NextDeadlineMs(): (deadline: Option<nat>)
      reads this
    {
      if finished && pending == [] && discarding.None? then None
      else Some(lastActivityAtMs + PROBE_INACTIVITY_TIMEOUT_MS + 1)
    }
  }

  lemma NotYet(bytes: Bytes)
    requires |bytes| == 1
    ensures CompleteEscapeLength(bytes).None?
  {
  }

  lemma LongAndUnfinished(bytes: Bytes)
    requires |bytes| >= 2 && CompleteEscapeLength(bytes).None?
    ensures bytes[1] == LEFT_BRACKET || IsStringIntroducer(bytes[1])
  {
  }
}

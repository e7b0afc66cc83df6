/**
  * The single pass that removes synchronized-output markers: when its output is free of markers,
  * and when removing markers, or joining transactions, makes a new one.
  */
module MarkerStripping {
  import opened Common
  import opened TerminalEvents
  import opened SchedulerSteps

  predicate ContainsMarker(source: Bytes) {
    exists index :: 0 <= index < |source| && MarkerLength(source[index..]) > 0
  }

  lemma ContainsMarkerStep(source: Bytes)
    requires source != []
    ensures ContainsMarker(source) <==> MarkerLength(source) > 0 || ContainsMarker(source[1..])
  {
    hide MarkerLength;
    assert source[0..] == source;
    if ContainsMarker(source[1..]) {
      var index :| 0 <= index < |source[1..]| && MarkerLength(source[1..][index..]) > 0;
      assert source[1..][index..] == source[index + 1..];
    }
    if ContainsMarker(source) && MarkerLength(source) == 0 {
      var index :| 0 <= index < |source| && MarkerLength(source[index..]) > 0;
      assert source[index..] == source[1..][index - 1..];
    }
  }

  /** Without a marker the stripped bytes are the bytes, so a frame may be moved instead of copied. */
  lemma {:induction false} NothingToStrip(source: Bytes)
    requires !ContainsMarker(source)
    ensures StripMarkers(source) == source
  {
    hide ContainsMarker, MarkerLength;
    if source != [] {
      ContainsMarkerStep(source);
      NothingToStrip(source[1..]);
    }
  }

  lemma PlainByte(source: Bytes)
    requires source != [] && source[0] != ESC
    ensures StripMarkers(source) == [source[0]] + StripMarkers(source[1..])
  {
    assert MarkerLength(source) == 0;
  }

  /** Up to the next escape nothing can be a marker. */
  lemma {:induction false} PlainBytesPass(source: Bytes, offset: nat, escape: nat)
    requires offset <= escape <= |source| && forall k :: offset <= k < escape ==> source[k] != ESC
    ensures StripMarkers(source[offset..]) == source[offset..escape] + StripMarkers(source[escape..])
    decreases escape - offset
  {
    hide StripMarkers;
    if offset < escape {
      var rest, tail := source[offset..], StripMarkers(source[escape..]);
      PlainBytesPass(source, offset + 1, escape);
      assert rest[0] == source[offset] && rest[1..] == source[offset + 1..];
      PlainByte(rest);
      assert source[offset..escape] == [source[offset]] + source[offset + 1..escape];
      Reassociate([source[offset]], source[offset + 1..escape], tail);
    } else {
      assert source[offset..escape] == [];
      assert [] + StripMarkers(source[escape..]) == StripMarkers(source[escape..]);
    }
  }

  // ----- walking through a list of transactions -----

  /** The transactions without their first `n` bytes, which lie in the first one. */
  function Advance(transactions: seq<Bytes>, n: nat): (rest: seq<Bytes>)
    requires transactions != [] && n <= |transactions[0]|
    ensures TotalLength(rest) + n == TotalLength(transactions) && |rest| == |transactions|
  {
    [transactions[0][n..]] + transactions[1..]
  }

  lemma StripStep(transactions: seq<Bytes>)
    requires transactions != []
    ensures transactions[0] == [] ==> StripAll(transactions) == StripAll(transactions[1..])
    ensures transactions[0] != [] ==>
              var length := MarkerLength(transactions[0]);
              if length > 0 then StripAll(transactions) == StripAll(Advance(transactions, length))
              else StripAll(transactions) == [transactions[0][0]] + StripAll(Advance(transactions, 1))
  {
    hide MarkerLength;
    var first, others := transactions[0], transactions[1..];
    if first != [] {
      var length := MarkerLength(first);
      var n := if length > 0 then length else 1;
      var rest := Advance(transactions, n);
      assert rest[0] == first[n..] && rest[1..] == others;
      if length == 0 {
        Reassociate([first[0]], StripMarkers(first[1..]), StripAll(others));
      }
    }
  }

  /** The first seven bytes of both markers. */
  function Stem(): Bytes {
    SyncStart()[..7]
  }

  /**
    * A kept fragment of `matched` bytes of a marker is completed by the transactions that follow it,
    * whole markers in between being removed.
    */
  predicate Completes(matched: nat, transactions: seq<Bytes>)
    requires 1 <= matched <= 7
    decreases TotalLength(transactions), |transactions|
  {
    if transactions == [] then false
    else if transactions[0] == [] then Completes(matched, transactions[1..])
    else if MarkerLength(transactions[0]) > 0 then
      Completes(matched, Advance(transactions, MarkerLength(transactions[0])))
    else if matched == 7 then transactions[0][0] == SyncStart()[7] || transactions[0][0] == SyncEnd()[7]
    else transactions[0][0] == SyncStart()[matched] && Completes(matched + 1, Advance(transactions, 1))
  }

  /** Some escape that is kept starts a fragment that the rest completes. */
  predicate SplicesMarker(transactions: seq<Bytes>)
    decreases TotalLength(transactions), |transactions|
  {
    if transactions == [] then false
    else if transactions[0] == [] then SplicesMarker(transactions[1..])
    else if MarkerLength(transactions[0]) > 0 then SplicesMarker(Advance(transactions, MarkerLength(transactions[0])))
    else
      || (transactions[0][0] == ESC && Completes(1, Advance(transactions, 1)))
      || SplicesMarker(Advance(transactions, 1))
  }

  lemma MarkerAfter(matched: nat, more: Bytes)
    requires 1 <= matched <= 7
    ensures more == [] ==> MarkerLength(Stem()[..matched] + more) == 0
    ensures more != [] && matched < 7 && more[0] == SyncStart()[matched] ==>
              Stem()[..matched] + more == Stem()[..matched + 1] + more[1..]
    ensures more != [] && matched < 7 && more[0] != SyncStart()[matched] ==> MarkerLength(Stem()[..matched] + more) == 0
    ensures more != [] && matched == 7 ==>
              (MarkerLength(Stem()[..matched] + more) > 0 <==> more[0] == SyncStart()[7] || more[0] == SyncEnd()[7])
  {
    var all := Stem()[..matched] + more;
    if more != [] {
      assert all[matched] == more[0];
      if matched < 7 && more[0] == SyncStart()[matched] {
        assert Stem()[..matched + 1] == Stem()[..matched] + [more[0]];
      }
      if matched == 7 {
        assert all[..8] == SyncStart()[..7] + [more[0]];
        assert SyncEnd()[..7] == SyncStart()[..7];
        assert SyncStart() == SyncStart()[..7] + [SyncStart()[7]] && SyncEnd() == SyncStart()[..7] + [SyncEnd()[7]];
      }
    }
    if SyncStart() <= all {
      assert |all| >= 8 && all[matched] == SyncStart()[matched];
    }
    if SyncEnd() <= all {
      assert |all| >= 8 && all[matched] == SyncEnd()[matched];
      assert matched < 7 ==> SyncEnd()[matched] == SyncStart()[matched];
    }
  }

  lemma {:induction false} CompletesMakesAMarker(matched: nat, transactions: seq<Bytes>)
    requires 1 <= matched <= 7
    ensures MarkerLength(Stem()[..matched] + StripAll(transactions)) > 0 <==> Completes(matched, transactions)
    decreases TotalLength(transactions), |transactions|
  {
    hide MarkerLength, StripAll, Advance;
    if transactions == [] {
      NothingStripped();
      MarkerAfter(matched, []);
    } else {
      StripStep(transactions);
      TotalStep(transactions);
      if transactions[0] == [] {
        CompletesMakesAMarker(matched, transactions[1..]);
      } else {
        MarkersAreShort(transactions[0]);
        var length := MarkerLength(transactions[0]);
        if length > 0 {
          AdvanceShortens(transactions, length);
          CompletesMakesAMarker(matched, Advance(transactions, length));
        } else {
          var tail := StripAll(Advance(transactions, 1));
          AdvanceShortens(transactions, 1);
          assert StripAll(transactions)[0] == transactions[0][0] && StripAll(transactions)[1..] == tail;
          MarkerAfter(matched, StripAll(transactions));
          if matched < 7 {
            CompletesMakesAMarker(matched + 1, Advance(transactions, 1));
          }
        }
      }
    }
  }

  lemma NothingStripped()
    ensures StripAll([]) == []
  {
  }

  lemma TotalStep(transactions: seq<Bytes>)
    requires transactions != []
    ensures TotalLength(transactions) == |transactions[0]| + TotalLength(transactions[1..])
  {
  }

  lemma MarkersAreShort(source: Bytes)
    ensures MarkerLength(source) <= |source|
  {
  }

  lemma AdvanceShortens(transactions: seq<Bytes>, n: nat)
    requires transactions != [] && n <= |transactions[0]|
    ensures TotalLength(Advance(transactions, n)) + n == TotalLength(transactions)
    ensures |Advance(transactions, n)| == |transactions|
  {
  }

  /**
    * The exact condition: the stripped bytes of a render contain a marker if and only if a kept
    * fragment of one is completed across removed markers or across the end of a transaction.
    */
  lemma {:induction false} OutputHasMarkerIff(transactions: seq<Bytes>)
    ensures ContainsMarker(StripAll(transactions)) <==> SplicesMarker(transactions)
    decreases TotalLength(transactions), |transactions|
  {
    hide MarkerLength, StripAll, Advance, ContainsMarker, Completes;
    if transactions == [] {
      NothingStripped();
      NoMarkerInNothing();
    } else {
      StripStep(transactions);
      TotalStep(transactions);
      if transactions[0] == [] {
        OutputHasMarkerIff(transactions[1..]);
      } else {
        MarkersAreShort(transactions[0]);
        var length := MarkerLength(transactions[0]);
        if length > 0 {
          AdvanceShortens(transactions, length);
          OutputHasMarkerIff(Advance(transactions, length));
        } else {
          var rest := Advance(transactions, 1);
          AdvanceShortens(transactions, 1);
          OutputHasMarkerIff(rest);
          var output := StripAll(transactions);
          assert output[0] == transactions[0][0] && output[1..] == StripAll(rest);
          ContainsMarkerStep(output);
          if transactions[0][0] == ESC {
            CompletesMakesAMarker(1, rest);
            assert Stem()[..1] == [ESC];
          } else {
            NoEscapeNoMarker(output);
          }
        }
      }
    }
  }

  lemma NoMarkerInNothing()
    ensures !ContainsMarker([])
  {
  }

  lemma NoEscapeNoMarker(source: Bytes)
    requires source != [] && source[0] != ESC
    ensures MarkerLength(source) == 0
  {
  }

  // ----- a simple sufficient condition -----

  /** A nonempty proper prefix of a marker lies from `start` up to `end`. */
  predicate FragmentAt(source: Bytes, start: nat, end: nat) {
    start < end <= |source| && end <= start + 7 && source[start..end] == Stem()[..end - start]
  }

  /** No fragment of a marker stands at the end of the transaction or directly before a marker. */
  predicate NoFragments(source: Bytes) {
    forall start, end | 0 <= start < end <= |source| ::
      FragmentAt(source, start, end) ==> end < |source| && MarkerLength(source[end..]) == 0
  }

  lemma NoFragmentsLater(source: Bytes, n: nat)
    requires NoFragments(source) && n <= |source|
    ensures NoFragments(source[n..])
  {
    hide MarkerLength;
    var later := source[n..];
    forall start, end | 0 <= start < end <= |later| && FragmentAt(later, start, end)
      ensures end < |later| && MarkerLength(later[end..]) == 0
    {
      assert later[start..end] == source[n + start..n + end] && later[end..] == source[n + end..];
      assert FragmentAt(source, n + start, n + end);
    }
  }

  /** A fragment inside such a transaction is broken by a byte that is kept. */
  lemma {:induction false} FragmentsBreak(source: Bytes, matched: nat, transactions: seq<Bytes>)
    requires FragmentAt(source, 0, matched) && MarkerLength(source) == 0 && NoFragments(source)
    requires transactions != [] && transactions[0] == source[matched..]
    ensures !Completes(matched, transactions)
    decreases 7 - matched
  {
    assert matched < |source| && MarkerLength(source[matched..]) == 0;
    var next := source[matched];
    assert transactions[0][0] == next;
    if matched == 7 {
      MarkerAfter(7, source[7..]);
      assert Stem()[..7] + source[7..] == source;
    } else if next == SyncStart()[matched] {
      assert source[..matched + 1] == source[..matched] + [next];
      assert Stem()[..matched + 1] == Stem()[..matched] + [Stem()[matched]];
      assert source[matched..][1..] == source[matched + 1..];
      FragmentsBreak(source, matched + 1, Advance(transactions, 1));
    }
  }

  /** Markers may be removed anywhere: without fragments no new one appears. */
  lemma {:induction false} NoFragmentsNoMarker(transactions: seq<Bytes>)
    requires forall i :: 0 <= i < |transactions| ==> NoFragments(transactions[i])
    ensures !SplicesMarker(transactions) && !ContainsMarker(StripAll(transactions))
    decreases TotalLength(transactions), |transactions|
  {
    hide NoFragments, Completes, MarkerLength, ContainsMarker, StripAll;
    OutputHasMarkerIff(transactions);
    if transactions != [] {
      var first := transactions[0];
      MarkersAreShort(first);
      if first == [] {
        NoFragmentsNoMarker(transactions[1..]);
      } else {
        var n := if MarkerLength(first) > 0 then MarkerLength(first) else 1;
        var rest := Advance(transactions, n);
        NoFragmentsLater(first, n);
        forall i | 0 <= i < |rest|
          ensures NoFragments(rest[i])
        {
          assert i > 0 ==> rest[i] == transactions[i];
        }
        NoFragmentsNoMarker(rest);
        if MarkerLength(first) == 0 && first[0] == ESC {
          assert first[..1] == [ESC] && Stem()[..1] == [ESC];
          FragmentsBreak(first, 1, rest);
        }
      }
    }
  }

  // ----- the failing inputs -----

  /** An escape six bytes further on shows that no marker starts here. */
  lemma EscapeAfterSix(source: Bytes)
    requires |source| > 6 && source[0] == source[6] == ESC
    ensures StripMarkers(source) == [ESC] + StripMarkers(source[1..])
  {
    assert SyncStart()[6] != ESC && SyncEnd()[6] != ESC;
    assert MarkerLength(source) == 0;
  }

  lemma LeadingMarkerGoes(tail: Bytes)
    ensures StripMarkers(SyncStart() + tail) == StripMarkers(tail)
  {
    var source := SyncStart() + tail;
    assert SyncStart() <= source && source[8..] == tail;
  }

  /** Removing a marker splices the two halves of another one together. */
  lemma RemovalSplices()
    ensures var source := SyncStart()[..6] + SyncStart() + SyncStart()[6..];
            StripMarkers(source) == SyncStart()
  {
    hide StripMarkers, MarkerLength, ContainsMarker;
    var head, tail := SyncStart()[..6], SyncStart()[6..];
    var source := head + SyncStart() + tail;
    EscapeAfterSix(source);
    PlainBytesPass(source, 1, 6);
    assert source[1..6] == head[1..] && source[6..] == SyncStart() + tail;
    LeadingMarkerGoes(tail);
    ShortHasNoMarker(tail);
    NothingToStrip(tail);
    assert [ESC] + (head[1..] + tail) == SyncStart();
  }

  /** Two transactions without any marker can join into one. */
  lemma JoiningSplices()
    ensures var transactions := [SyncStart()[..4], SyncStart()[4..]];
      && !ContainsMarker(transactions[0]) && !ContainsMarker(transactions[1])
      && StripAll(transactions) == SyncStart()
  {
    var head, tail := SyncStart()[..4], SyncStart()[4..];
    ShortHasNoMarker(head);
    ShortHasNoMarker(tail);
    NothingToStrip(head);
    NothingToStrip(tail);
    var none: seq<Bytes> := [];
    assert [head, tail][1..] == [tail] && [tail][1..] == none;
    assert StripAll([tail]) == tail + [];
    assert head + (tail + []) == SyncStart();
  }

  lemma ShortHasNoMarker(source: Bytes)
    requires |source| < 8
    ensures !ContainsMarker(source)
  {
  }
}

/**
  * Row damage: lists of inclusive row ranges, and the merge that keeps the accumulated list
  * canonical while reusing its storage.
  */
module RowRanges {
  import opened Common

  const LAST_ROW: nat := 65535

  type Row = r: int | 0 <= r <= LAST_ROW

  datatype RowRange = RowRange(start: Row, end: Row)

  /** The row after `end`, saturating at the largest 16-bit row. */
  function Next(end: Row): Row {
    if end == LAST_ROW then LAST_ROW else end + 1
  }

  predicate AllNonempty(ranges: seq<RowRange>) {
    forall r :: r in ranges ==> r.start <= r.end
  }

  predicate Covers(ranges: seq<RowRange>, row: int) {
    exists r :: r in ranges && r.start <= row <= r.end
  }

  predicate SortedByStart(ranges: seq<RowRange>) {
    forall i, j :: 0 <= i < j < |ranges| ==> ranges[i].start <= ranges[j].start
  }

  /** What the source tests before it skips a sort: every range starts beyond its predecessor's neighbour. */
  predicate Normalized(ranges: seq<RowRange>) {
    forall i :: 0 < i < |ranges| ==> ranges[i].start > Next(ranges[i - 1].end)
  }

  /** No two ranges share, or touch, a row. */
  predicate Separated(ranges: seq<RowRange>) {
    forall i, j :: 0 <= i < j < |ranges| ==> ranges[j].start > ranges[i].end + 1
  }

  ghost predicate SameRows(a: seq<RowRange>, b: seq<RowRange>) {
    forall row :: Covers(a, row) <==> Covers(b, row)
  }

  ghost predicate CoversUnion(result: seq<RowRange>, a: seq<RowRange>, b: seq<RowRange>) {
    forall row :: Covers(result, row) <==> Covers(a, row) || Covers(b, row)
  }

  predicate IsCanonical(ranges: seq<RowRange>) {
    Normalized(ranges) && AllNonempty(ranges)
  }

  // ----- specification functions -----

  function Last(ranges: seq<RowRange>): RowRange
    requires ranges != []
  {
    ranges[|ranges| - 1]
  }

  function AppendSorted(ranges: seq<RowRange>, r: RowRange): seq<RowRange> {
    if ranges != [] && r.start <= Next(Last(ranges).end) then
      ranges[..|ranges| - 1] + [RowRange(Last(ranges).start, Max(Last(ranges).end, r.end))]
    else ranges + [r]
  }

  function AppendAllSorted(ranges: seq<RowRange>, source: seq<RowRange>): seq<RowRange> {
    if source == [] then ranges
    else AppendSorted(AppendAllSorted(ranges, source[..|source| - 1]), Last(source))
  }

  function Coalesced(ranges: seq<RowRange>): seq<RowRange> {
    AppendAllSorted([], ranges)
  }

  function Canonical(ranges: seq<RowRange>): seq<RowRange> {
    if Normalized(ranges) then ranges
    else Coalesced(SortByKey(ranges, (r: RowRange) => r.start))
  }

  predicate TakesLeft(left: seq<RowRange>, right: seq<RowRange>) {
    right == [] || (left != [] && Last(left).start > Last(right).start)
  }

  /** The merge of two lists, chosen from the back; equal starts keep the left range in front. */
  function MergeFromBack(left: seq<RowRange>, right: seq<RowRange>): (merged: seq<RowRange>)
    ensures |merged| == |left| + |right|
    decreases |left| + |right|
  {
    if left == [] && right == [] then []
    else if TakesLeft(left, right) then
      MergeFromBack(left[..|left| - 1], right) + [Last(left)]
    else
      MergeFromBack(left, right[..|right| - 1]) + [Last(right)]
  }

  /** The list held after merging `source` into `target`. */
  function Merged(target: seq<RowRange>, source: seq<RowRange>): seq<RowRange> {
    var left, right := Canonical(target), Canonical(source);
    if right == [] then left
    else if left == [] then right
    else if right[0].start >= Last(left).start then AppendAllSorted(left, right)
    else Coalesced(MergeFromBack(left, right))
  }

  /** One step of the backwards merge moves the larger last range in front of the tail. */
  lemma MergeStep(left: seq<RowRange>, right: seq<RowRange>, tail: seq<RowRange>)
    requires left != [] || right != []
    ensures TakesLeft(left, right) ==>
              MergeFromBack(left, right) + tail == MergeFromBack(left[..|left| - 1], right) + ([Last(left)] + tail)
    ensures !TakesLeft(left, right) ==>
              MergeFromBack(left, right) + tail == MergeFromBack(left, right[..|right| - 1]) + ([Last(right)] + tail)
  {
    hide Normalized;
  }

  lemma NothingToMerge(left: seq<RowRange>, right: seq<RowRange>)
    requires left == [] && right == []
    ensures MergeFromBack(left, right) == []
  {
  }

  lemma LastOfPrefix(contents: seq<RowRange>, prefix: seq<RowRange>, length: nat)
    requires length <= |contents| && contents[..length] == prefix
    ensures length > 0 ==> contents[length - 1] == Last(prefix)
  {
  }

  lemma WriteBehindPrefix(before: seq<RowRange>, after: seq<RowRange>, left: nat, write: nat)
    requires left <= write < |before| && |after| == |before|
    requires after == before[write := after[write]]
    ensures after[..left] == before[..left]
    ensures after[write..] == [after[write]] + before[write + 1..]
  {
  }

  // ----- the in-place algorithms -----

  /** Compacts the array in place; the first `kept` slots are the result. */
  method CoalesceInPlace(a: array<RowRange>) returns (kept: nat)
    modifies a
    ensures kept <= a.Length
    ensures a[..kept] == Coalesced(old(a[..]))
  {
    kept := 0;
    ghost var was := a[..];
    for read := 0 to a.Length
      invariant kept <= read
      invariant a[..kept] == Coalesced(was[..read])
      invariant a[read..] == was[read..]
    {
      var next := a[read];
      assert next == was[read] by {
        assert a[read..][0] == was[read..][0];
      }
      assert was[..read + 1][..read] == was[..read];
      if kept > 0 && next.start <= Next(a[kept - 1].end) {
        a[kept - 1] := RowRange(a[kept - 1].start, Max(a[kept - 1].end, next.end));
      } else {
        if kept != read {
          a[kept] := next;
        }
        kept := kept + 1;
      }
      assert a[read + 1..] == was[read + 1..];
    }
    assert was[..a.Length] == was;
  }

  /**
    * The backwards merge: the left list already lies in the front of the grown array, and each
    * write lands at or above every left element still to be read.
    */
  method MergeBackwards(a: array<RowRange>, leftLength: nat, source: seq<RowRange>)
    requires a.Length == leftLength + |source|
    modifies a
    ensures a[..] == MergeFromBack(old(a[..leftLength]), source)
  {
    hide MergeFromBack;
    ghost var was := a[..leftLength];
    var left, right, write := leftLength, |source|, a.Length;
    assert was[..left] == was && source[..right] == source && a[write..] == [];
    while left > 0 || right > 0
      invariant 0 <= left <= leftLength && 0 <= right <= |source| && write == left + right
      invariant a[..left] == was[..left]
      invariant MergeFromBack(was, source) == MergeFromBack(was[..left], source[..right]) + a[write..]
      decreases left + right
    {
      ghost var before, l, r := a[..], was[..left], source[..right];
      LastOfPrefix(before, l, left);
      MergeStep(l, r, a[write..]);
      write := write - 1;
      if right == 0 || (left > 0 && a[left - 1].start > source[right - 1].start) {
        left := left - 1;
        if write != left {
          a[write] := a[left];
        }
        assert a[..] == before[write := Last(l)];
        assert l[..left] == was[..left];
      } else {
        right := right - 1;
        a[write] := source[right];
        assert a[..] == before[write := Last(r)];
        assert r[..right] == source[..right];
      }
      WriteBehindPrefix(before, a[..], left, write);
      assert a[write..] == a[..][write..] && a[..left] == a[..][..left];
    }
    assert MergeFromBack(was[..0], source[..0]) == [] by {
      NothingToMerge(was[..0], source[..0]);
    }
    assert a[..] == a[write..];
  }

  /** The growable list of changed rows held by an update summary. */
  class ChangedRows {
    var ranges: seq<RowRange>

    constructor (initial: seq<RowRange>)
      ensures ranges == initial
    {
      ranges := initial;
    }

    method Coalesce()
      modifies this
      ensures ranges == Coalesced(old(ranges))
    {
      var n := |ranges|;
      var a := new RowRange[n](i requires 0 <= i < n reads this => if i < |ranges| then ranges[i] else RowRange(0, 0));
      assert a[..] == ranges;
      var kept := CoalesceInPlace(a);
      ranges := a[..kept];
    }

    method Normalize()
      modifies this
      ensures ranges == Canonical(old(ranges))
    {
      if !Normalized(ranges) {
        ranges := SortByKey(ranges, (r: RowRange) => r.start);
        Coalesce();
      }
    }

    method Append(r: RowRange)
      modifies this
      ensures ranges == AppendSorted(old(ranges), r)
    {
      if ranges != [] && r.start <= Next(Last(ranges).end) {
        var previous := Last(ranges);
        ranges := ranges[|ranges| - 1 := RowRange(previous.start, Max(previous.end, r.end))];
      } else {
        ranges := ranges + [r];
      }
    }

    method Merge(source: seq<RowRange>)
      modifies this
      ensures ranges == Merged(old(ranges), source)
    {
      hide Canonical, AppendSorted, MergeFromBack, Normalized;
      Normalize();
      var other := new ChangedRows(source);
      other.Normalize();
      var left, right := ranges, other.ranges;
      if right == [] {
        return;
      }
      if left == [] {
        ranges := right;
        return;
      }
      if right[0].start >= Last(left).start {
        for i := 0 to |right|
          invariant ranges == AppendAllSorted(left, right[..i])
        {
          assert right[..i + 1][..i] == right[..i];
          Append(right[i]);
        }
        assert right[..|right|] == right;
        return;
      }
      var n := |left| + |right|;
      var a := new RowRange[n](i => if 0 <= i < |left| then left[i] else RowRange(0, 0));
      assert a[..|left|] == left;
      MergeBackwards(a, |left|, right);
      ranges := a[..];
      Coalesce();
    }
  }

  // ----- what the result means -----

  lemma CoversAppend(ranges: seq<RowRange>, r: RowRange, row: int)
    ensures Covers(ranges + [r], row) <==> Covers(ranges, row) || r.start <= row <= r.end
  {
    if Covers(ranges, row) {
      var w :| w in ranges && w.start <= row <= w.end;
      assert w in ranges + [r];
    }
    if r.start <= row <= r.end {
      assert r in ranges + [r];
    }
  }

  lemma AppendSortedCovers(ranges: seq<RowRange>, r: RowRange, row: int)
    requires AllNonempty(ranges) && r.start <= r.end
    requires ranges == [] || Last(ranges).start <= r.start
    ensures Covers(AppendSorted(ranges, r), row) <==> Covers(ranges, row) || r.start <= row <= r.end
  {
    hide Covers;
    if ranges != [] && r.start <= Next(Last(ranges).end) {
      var front, last := ranges[..|ranges| - 1], Last(ranges);
      assert ranges == front + [last];
      CoversAppend(front, last, row);
      CoversAppend(front, RowRange(last.start, Max(last.end, r.end)), row);
    } else {
      CoversAppend(ranges, r, row);
    }
  }

  lemma AppendSortedIsCanonical(ranges: seq<RowRange>, r: RowRange)
    requires IsCanonical(ranges) && r.start <= r.end
    requires ranges == [] || Last(ranges).start <= r.start
    ensures IsCanonical(AppendSorted(ranges, r))
    ensures AppendSorted(ranges, r) != [] && Last(AppendSorted(ranges, r)).start <= r.start
  {
  }

  lemma NothingToAdd(ranges: seq<RowRange>)
    ensures forall row :: !Covers([], row)
    ensures CoversUnion(ranges, ranges, []) && CoversUnion(ranges, [], ranges)
  {
  }

  lemma SplitLast(ranges: seq<RowRange>)
    requires ranges != []
    ensures ranges == ranges[..|ranges| - 1] + [Last(ranges)]
    ensures AllNonempty(ranges) ==> AllNonempty(ranges[..|ranges| - 1]) && Last(ranges).start <= Last(ranges).end
    ensures SortedByStart(ranges) ==> SortedByStart(ranges[..|ranges| - 1])
    ensures SortedByStart(ranges) ==> forall r :: r in ranges ==> r.start <= Last(ranges).start
  {
    assert Last(ranges) in ranges;
  }

  /** Appending sorted ranges to a canonical list keeps it canonical and adds exactly their rows. */
  lemma {:induction false} AppendAllSortedIsUnion(ranges: seq<RowRange>, source: seq<RowRange>)
    requires IsCanonical(ranges) && SortedByStart(source) && AllNonempty(source)
    requires ranges == [] || source == [] || Last(ranges).start <= source[0].start
    ensures var result := AppendAllSorted(ranges, source);
      && IsCanonical(result)
      && (source != [] ==> result != [] && Last(result).start <= Last(source).start)
      && CoversUnion(result, ranges, source)
  {
    hide Covers, IsCanonical, SortedByStart, AllNonempty, AppendSorted;
    if source == [] {
      NothingToAdd(ranges);
    } else {
      var front, last := source[..|source| - 1], Last(source);
      SplitLast(source);
      AppendAllSortedIsUnion(ranges, front);
      var before := AppendAllSorted(ranges, front);
      assert IsCanonical(before);
      assert before == [] || Last(before).start <= last.start by {
        if front != [] {
          assert Last(front) in source;
        }
      }
      assert AllNonempty(before) by { CanonicalParts(before); }
      AppendSortedIsCanonical(before, last);
      forall row
        ensures Covers(AppendSorted(before, last), row) <==> Covers(ranges, row) || Covers(source, row)
      {
        AppendSortedCovers(before, last, row);
        CoversAppend(front, last, row);
      }
    }
  }

  lemma CanonicalParts(ranges: seq<RowRange>)
    requires IsCanonical(ranges)
    ensures Normalized(ranges) && AllNonempty(ranges)
  {
  }

  predicate StartAtMost(ranges: seq<RowRange>, bound: Row) {
    forall i :: 0 <= i < |ranges| ==> ranges[i].start <= bound
  }

  lemma {:induction false} MergeFromBackIsBounded(left: seq<RowRange>, right: seq<RowRange>, bound: Row)
    requires StartAtMost(left, bound) && StartAtMost(right, bound)
    ensures StartAtMost(MergeFromBack(left, right), bound)
    decreases |left| + |right|
  {
    if left == [] && right == [] {
    } else if TakesLeft(left, right) {
      MergeFromBackIsBounded(left[..|left| - 1], right, bound);
    } else {
      MergeFromBackIsBounded(left, right[..|right| - 1], bound);
    }
  }

  lemma {:induction false} MergeFromBackIsSorted(left: seq<RowRange>, right: seq<RowRange>)
    requires SortedByStart(left) && SortedByStart(right)
    ensures SortedByStart(MergeFromBack(left, right))
    decreases |left| + |right|
  {
    if left == [] && right == [] {
    } else if TakesLeft(left, right) {
      var front := left[..|left| - 1];
      MergeFromBackIsSorted(front, right);
      assert StartAtMost(front, Last(left).start) && StartAtMost(right, Last(left).start);
      MergeFromBackIsBounded(front, right, Last(left).start);
      AppendLargest(MergeFromBack(front, right), Last(left));
    } else {
      var front := right[..|right| - 1];
      MergeFromBackIsSorted(left, front);
      assert StartAtMost(left, Last(right).start) && StartAtMost(front, Last(right).start);
      MergeFromBackIsBounded(left, front, Last(right).start);
      AppendLargest(MergeFromBack(left, front), Last(right));
    }
  }

  lemma AppendLargest(ranges: seq<RowRange>, r: RowRange)
    requires SortedByStart(ranges) && StartAtMost(ranges, r.start)
    ensures SortedByStart(ranges + [r])
  {
  }

  lemma {:induction false} MergeFromBackIsUnion(left: seq<RowRange>, right: seq<RowRange>)
    requires AllNonempty(left) && AllNonempty(right)
    ensures AllNonempty(MergeFromBack(left, right))
    ensures CoversUnion(MergeFromBack(left, right), left, right)
    decreases |left| + |right|
  {
    hide Covers, AllNonempty;
    if left == [] && right == [] {
      NothingToAdd([]);
    } else if TakesLeft(left, right) {
      var front := left[..|left| - 1];
      SplitLast(left);
      MergeFromBackIsUnion(front, right);
      AppendNonempty(MergeFromBack(front, right), Last(left));
      forall row
        ensures Covers(MergeFromBack(left, right), row) <==> Covers(left, row) || Covers(right, row)
      {
        CoversAppend(MergeFromBack(front, right), Last(left), row);
        CoversAppend(front, Last(left), row);
      }
    } else {
      var front := right[..|right| - 1];
      SplitLast(right);
      MergeFromBackIsUnion(left, front);
      AppendNonempty(MergeFromBack(left, front), Last(right));
      forall row
        ensures Covers(MergeFromBack(left, right), row) <==> Covers(left, row) || Covers(right, row)
      {
        CoversAppend(MergeFromBack(left, front), Last(right), row);
        CoversAppend(front, Last(right), row);
      }
    }
  }

  lemma AppendNonempty(ranges: seq<RowRange>, r: RowRange)
    requires AllNonempty(ranges) && r.start <= r.end
    ensures AllNonempty(ranges + [r])
  {
  }

  lemma {:induction false} LaterRangesStartBeyond(ranges: seq<RowRange>, i: nat, j: nat)
    requires IsCanonical(ranges) && i < j < |ranges|
    ensures ranges[j].start > ranges[i].end + 1
  {
    assert ranges[j - 1] in ranges && ranges[j] in ranges;
    if i < j - 1 {
      LaterRangesStartBeyond(ranges, i, j - 1);
    }
  }

  lemma CanonicalIsSorted(ranges: seq<RowRange>)
    requires IsCanonical(ranges)
    ensures SortedByStart(ranges) && Separated(ranges)
  {
    hide Normalized;
    forall i, j | 0 <= i < j < |ranges|
      ensures ranges[i].start <= ranges[j].start && ranges[j].start > ranges[i].end + 1
    {
      assert ranges[i] in ranges;
      LaterRangesStartBeyond(ranges, i, j);
    }
  }

  lemma SortedCopy(ranges: seq<RowRange>) returns (sorted: seq<RowRange>)
    requires AllNonempty(ranges)
    ensures sorted == SortByKey(ranges, (r: RowRange) => r.start)
    ensures SortedByStart(sorted) && AllNonempty(sorted) && SameRows(sorted, ranges)
  {
    hide Covers;
    var key := (r: RowRange) => r.start;
    sorted := SortByKey(ranges, key);
    SortIsOrdered(ranges, key);
    SameElements(sorted, ranges);
    assert SortedByStart(sorted) by {
      assert forall i :: 0 <= i < |sorted| ==> key(sorted[i]) == sorted[i].start;
    }
    forall row
      ensures Covers(sorted, row) <==> Covers(ranges, row)
    {
      CoversSameElements(sorted, ranges, row);
    }
  }

  lemma CoversSameElements(a: seq<RowRange>, b: seq<RowRange>, row: int)
    requires forall r :: r in a <==> r in b
    ensures Covers(a, row) <==> Covers(b, row)
  {
  }

  lemma CanonicalKeepsRows(ranges: seq<RowRange>)
    requires AllNonempty(ranges)
    ensures IsCanonical(Canonical(ranges)) && SameRows(Canonical(ranges), ranges)
  {
    hide Covers, SortedByStart, AppendAllSorted;
    if !Normalized(ranges) {
      var sorted := SortedCopy(ranges);
      AppendAllSortedIsUnion([], sorted);
      NothingToAdd([]);
    }
  }

  /** The three ways the lists are joined all build the canonical union. */
  lemma JoinIsCanonicalUnion(left: seq<RowRange>, right: seq<RowRange>)
    requires IsCanonical(left) && IsCanonical(right) && left != [] && right != []
    ensures right[0].start >= Last(left).start ==>
              IsCanonical(AppendAllSorted(left, right)) && CoversUnion(AppendAllSorted(left, right), left, right)
    ensures var merged := Coalesced(MergeFromBack(left, right));
      IsCanonical(merged) && CoversUnion(merged, left, right)
  {
    hide Covers, AppendAllSorted, MergeFromBack;
    CanonicalIsSorted(left);
    CanonicalIsSorted(right);
    if right[0].start >= Last(left).start {
      AppendAllSortedIsUnion(left, right);
    }
    MergeFromBackIsSorted(left, right);
    MergeFromBackIsUnion(left, right);
    AppendAllSortedIsUnion([], MergeFromBack(left, right));
    NothingToAdd([]);
  }

  /** Merging any nonempty ranges leaves a sorted, disjoint, non-adjacent list of exactly the union of the rows. */
  lemma MergedIsCanonicalUnion(target: seq<RowRange>, source: seq<RowRange>)
    requires AllNonempty(target) && AllNonempty(source)
    ensures IsCanonical(Merged(target, source)) && Separated(Merged(target, source))
    ensures CoversUnion(Merged(target, source), target, source)
  {
    hide Covers, AppendAllSorted, Canonical, MergeFromBack, IsCanonical;
    var left, right := Canonical(target), Canonical(source);
    CanonicalKeepsRows(target);
    CanonicalKeepsRows(source);
    NothingToAdd(left);
    NothingToAdd(right);
    if right != [] && left != [] {
      JoinIsCanonicalUnion(left, right);
    }
    CanonicalIsSorted(Merged(target, source));
  }

  lemma RowOf(ranges: seq<RowRange>, row: int) returns (k: nat)
    requires Covers(ranges, row)
    ensures k < |ranges| && ranges[k].start <= row <= ranges[k].end
  {
    var r :| r in ranges && r.start <= row <= r.end;
    k :| 0 <= k < |ranges| && ranges[k] == r;
  }

  lemma FirstRangeIsLowest(ranges: seq<RowRange>, row: int)
    requires IsCanonical(ranges) && Covers(ranges, row)
    ensures ranges != [] && ranges[0].start <= row
    ensures row <= ranges[0].end || (row > ranges[0].end + 1 && Covers(ranges[1..], row))
  {
    CanonicalIsSorted(ranges);
    var k := RowOf(ranges, row);
    if k > 0 {
      assert ranges[0].start <= ranges[k].start;
      assert ranges[1..][k - 1] == ranges[k];
    }
  }

  lemma TailCovers(ranges: seq<RowRange>, row: int)
    requires ranges != [] && IsCanonical(ranges)
    ensures Covers(ranges[1..], row) <==> Covers(ranges, row) && row > ranges[0].end
  {
    if Covers(ranges[1..], row) {
      CanonicalIsSorted(ranges);
      var k := RowOf(ranges[1..], row);
      assert ranges[k + 1] in ranges;
    }
    if Covers(ranges, row) {
      FirstRangeIsLowest(ranges, row);
    }
  }

  lemma FirstCovers(ranges: seq<RowRange>, row: int)
    requires ranges != [] && ranges[0].start <= row <= ranges[0].end
    ensures Covers(ranges, row)
  {
    assert ranges[0] in ranges;
  }

  lemma FirstRangesAgree(a: seq<RowRange>, b: seq<RowRange>)
    requires IsCanonical(a) && a != [] && IsCanonical(b) && b != [] && SameRows(a, b)
    ensures a[0].start >= b[0].start && a[0].end <= b[0].end
  {
    hide Covers;
    assert a[0] in a && b[0] in b;
    FirstCovers(a, a[0].start);
    FirstRangeIsLowest(b, a[0].start);
    if a[0].end > b[0].end {
      FirstCovers(b, b[0].start);
      FirstRangeIsLowest(a, b[0].start);
      FirstCovers(a, b[0].end + 1);
      FirstRangeIsLowest(b, b[0].end + 1);
    }
  }

  /** A set of rows has one canonical list. */
  lemma {:induction false} CanonicalListIsUnique(a: seq<RowRange>, b: seq<RowRange>)
    requires IsCanonical(a) && IsCanonical(b) && SameRows(a, b)
    ensures a == b
  {
    hide Covers;
    if a == [] && b != [] {
      FirstCovers(b, b[0].start);
      NothingToAdd([]);
      assert false by { NothingCovered(b[0].start); }
    } else if b == [] && a != [] {
      FirstCovers(a, a[0].start);
      assert false by { NothingCovered(a[0].start); }
    } else if a != [] {
      FirstRangesAgree(a, b);
      FirstRangesAgree(b, a);
      forall row
        ensures Covers(a[1..], row) <==> Covers(b[1..], row)
      {
        TailCovers(a, row);
        TailCovers(b, row);
      }
      CanonicalListIsUnique(a[1..], b[1..]);
      assert a == [a[0]] + a[1..] && b == [b[0]] + b[1..];
    }
  }

  lemma NothingCovered(row: int)
    ensures !Covers([], row)
  {
  }

  /** Updates may be merged in any order and any grouping, and repeating one changes nothing. */
  lemma MergeOrderAndGroupingAreIrrelevant(a: seq<RowRange>, b: seq<RowRange>, c: seq<RowRange>)
    requires AllNonempty(a) && AllNonempty(b) && AllNonempty(c)
    ensures Merged(a, b) == Merged(b, a)
    ensures Merged(Merged(a, b), c) == Merged(a, Merged(b, c))
    ensures Merged(Merged(a, b), b) == Merged(a, b)
  {
    hide Covers, Merged;
    MergedIsCanonicalUnion(a, b);
    MergedIsCanonicalUnion(b, a);
    MergedIsCanonicalUnion(b, c);
    MergedIsCanonicalUnion(Merged(a, b), c);
    MergedIsCanonicalUnion(a, Merged(b, c));
    MergedIsCanonicalUnion(Merged(a, b), b);
    CanonicalListIsUnique(Merged(a, b), Merged(b, a));
    CanonicalListIsUnique(Merged(Merged(a, b), c), Merged(a, Merged(b, c)));
    CanonicalListIsUnique(Merged(Merged(a, b), b), Merged(a, b));
  }

  /** The unstable sort may order equal starts either way: the normalized list is the same. */
  lemma TiesDoNotMatter(sorted: seq<RowRange>, alsoSorted: seq<RowRange>)
    requires AllNonempty(sorted) && SortedByStart(sorted) && SortedByStart(alsoSorted)
    requires forall r :: r in sorted <==> r in alsoSorted
    ensures Coalesced(sorted) == Coalesced(alsoSorted)
  {
    hide Covers, AppendAllSorted;
    AppendAllSortedIsUnion([], sorted);
    AppendAllSortedIsUnion([], alsoSorted);
    NothingToAdd([]);
    forall row
      ensures Covers(sorted, row) <==> Covers(alsoSorted, row)
    {
      CoversSameElements(sorted, alsoSorted, row);
    }
    CanonicalListIsUnique(Coalesced(sorted), Coalesced(alsoSorted));
  }

  // ----- terminal damage -----

  datatype Damage = NoDamage | FullDamage | Rows(rows: seq<RowRange>)

  function MergeDamage(left: Damage, right: Damage): Damage {
    if left.FullDamage? || right.FullDamage? then FullDamage
    else if left.NoDamage? then right
    else if right.NoDamage? then left
    else Rows(Merged(left.rows, right.rows))
  }

  predicate Damages(d: Damage, row: int) {
    d.FullDamage? || (d.Rows? && Covers(d.rows, row))
  }

  predicate GoodDamage(d: Damage) {
    d.Rows? ==> AllNonempty(d.rows)
  }

  /** Damage merging forgets no row, invents none, and does not depend on grouping. */
  lemma DamageMergesAsAUnion(a: Damage, b: Damage, c: Damage)
    requires GoodDamage(a) && GoodDamage(b) && GoodDamage(c)
    ensures forall row :: Damages(MergeDamage(a, b), row) <==> Damages(a, row) || Damages(b, row)
    ensures MergeDamage(MergeDamage(a, b), c) == MergeDamage(a, MergeDamage(b, c))
    ensures MergeDamage(a, b) == MergeDamage(b, a)
  {
    hide Covers, Merged;
    if a.Rows? && b.Rows? {
      MergedIsCanonicalUnion(a.rows, b.rows);
      MergeOrderAndGroupingAreIrrelevant(a.rows, b.rows, if c.Rows? then c.rows else []);
    }
  }
}

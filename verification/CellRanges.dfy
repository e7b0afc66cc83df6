/** The columns of a row that have to be rewritten, widened until they cut no wide character. */
module CellRanges {
  import opened Common
  import opened Grid
  import opened Simulation

  /** Columns [start, end). */
  datatype CellRange = CellRange(start: nat, end: nat)

  predicate InRange(range: CellRange, c: int) {
    range.start <= c < range.end
  }

  predicate InRanges(ranges: seq<CellRange>, c: int) {
    exists k :: 0 <= k < |ranges| && InRange(ranges[k], c)
  }

  /** Nonempty ranges inside the row. */
  predicate Proper(ranges: seq<CellRange>, cols: nat) {
    forall k :: 0 <= k < |ranges| ==> ranges[k].start < ranges[k].end <= cols
  }

  /** In order, and with at least one column between neighbours. */
  predicate Separated(ranges: seq<CellRange>) {
    forall i, j :: 0 <= i < j < |ranges| ==> ranges[i].end < ranges[j].start
  }

  lemma FirstStartIsCovered(ranges: seq<CellRange>, cols: nat)
    requires Proper(ranges, cols) && ranges != []
    ensures InRanges(ranges, ranges[0].start)
  {
    assert InRange(ranges[0], ranges[0].start);
  }

  // ----- the columns that differ -----

  method ChangedCellRanges(previous: Cells, intended: Cells, start: nat, end: nat) returns (ranges: seq<CellRange>)
    requires start <= end <= |previous| && end <= |intended|
    ensures Proper(ranges, end) && Separated(ranges)
    ensures forall c :: InRanges(ranges, c) <==> start <= c < end && !CellsPhysicallyMatch(previous[c], intended[c])
  {
    ranges := [];
    var runStart: Option<nat> := None;
    for col := start to end
      invariant Proper(ranges, col) && Separated(ranges)
      invariant runStart.Some? ==> start <= runStart.value < col
      invariant runStart.Some? ==> forall k :: 0 <= k < |ranges| ==> ranges[k].end < runStart.value
      invariant runStart.None? ==> forall k :: 0 <= k < |ranges| ==> ranges[k].end < col
      invariant forall c :: InRanges(ranges, c) || (runStart.Some? && runStart.value <= c < col)
                  <==> start <= c < col && !CellsPhysicallyMatch(previous[c], intended[c])
    {
      var changed := !CellsPhysicallyMatch(previous[col], intended[col]);
      if runStart.None? && changed {
        runStart := Some(col);
      } else if runStart.Some? && !changed {
        var run := CellRange(runStart.value, col);
        InRangesSnoc(ranges, run);
        ranges := ranges + [run];
        runStart := None;
      }
    }
    if runStart.Some? {
      InRangesSnoc(ranges, CellRange(runStart.value, end));
      ranges := ranges + [CellRange(runStart.value, end)];
    }
  }

  lemma InRangesSnoc(ranges: seq<CellRange>, last: CellRange)
    ensures forall c :: InRanges(ranges + [last], c) <==> InRanges(ranges, c) || InRange(last, c)
  {
    forall c
      ensures InRanges(ranges + [last], c) <==> InRanges(ranges, c) || InRange(last, c)
    {
      if InRanges(ranges, c) {
        var k :| 0 <= k < |ranges| && InRange(ranges[k], c);
        assert InRange((ranges + [last])[k], c);
      }
      if InRange(last, c) {
        assert InRange((ranges + [last])[|ranges|], c);
      }
    }
  }

  // ----- widening -----

  /**
    * No wide character is cut at column `c`. The previous row may be damaged, so that its first
    * column is a continuation without a lead; of a well-formed one nothing is cut anywhere.
    */
  predicate CutsNothing(previous: Cells, intended: Cells, c: nat) {
    (c > 0 ==> IsBoundary(previous, c)) && IsBoundary(intended, c)
  }

  /** Part of a wide character in one of the rows. */
  predicate WideInEither(previous: Cells, intended: Cells, c: nat) {
    (c < |previous| && CellIsWide(previous[c])) || (c < |intended| && CellIsWide(intended[c]))
  }

  method FirstColumn(start: nat, previous: Cells, intended: Cells) returns (first: nat)
    requires start < |previous| == |intended| && WellFormed(intended)
    ensures first <= start && CutsNothing(previous, intended, first)
    ensures WellFormed(previous) ==> forall c :: first <= c < start ==> WideInEither(previous, intended, c)
  {
    first := start;
    while first > 0 && (previous[first].continuation || intended[first].continuation)
      invariant first <= start
      invariant WellFormed(previous) ==> forall c :: first <= c < start ==> WideInEither(previous, intended, c)
    {
      assert WellFormed(previous) ==> !IsOrphan(previous, first);
      assert !IsOrphan(intended, first);
      first := first - 1;
    }
    assert !IsOrphan(intended, first);
  }

  /** One row's demand on the end of a range: past the character at its start and past continuations. */
  method ExtendEnd(start: nat, end: nat, row: Cells) returns (expanded: nat)
    requires start < end && start < |row|
    ensures end <= expanded && IsBoundary(row, expanded)
    ensures WellFormed(row) && end <= |row| ==> expanded <= |row| && forall c :: end <= c < expanded ==> CellIsWide(row[c])
  {
    assert WellFormed(row) ==> !IsOrphan(row, start);
    expanded := Max(end, start + Max(row[start].width, 1));
    while expanded < |row| && row[expanded].continuation
      invariant end <= expanded
      invariant WellFormed(row) && end <= |row| ==> expanded <= |row| && forall c :: end <= c < expanded ==> CellIsWide(row[c])
    {
      expanded := expanded + 1;
    }
  }

  method LastColumn(start: nat, end: nat, previous: Cells, intended: Cells) returns (last: nat)
    requires start < end <= |previous| == |intended| && WellFormed(intended)
    ensures end <= last <= |previous| && CutsNothing(previous, intended, last)
    ensures WellFormed(previous) ==> forall c :: end <= c < last ==> WideInEither(previous, intended, c)
  {
    last := end;
    while true
      invariant end <= last <= |previous|
      invariant WellFormed(previous) ==> forall c :: end <= c < last ==> WideInEither(previous, intended, c)
      decreases |previous| - last
    {
      var forPrevious := ExtendEnd(start, last, previous);
      var expanded := ExtendEnd(start, forPrevious, intended);
      expanded := Min(expanded, |previous|);
      if expanded == last {
        return;
      }
      last := expanded;
    }
  }

  // ----- order -----

  function SortByStart(ranges: seq<CellRange>): seq<CellRange> {
    SortByKey(ranges, (r: CellRange) => r.start)
  }

  predicate OrderedByStart(ranges: seq<CellRange>) {
    forall i, j :: 0 <= i < j < |ranges| ==> ranges[i].start <= ranges[j].start
  }

  lemma SortedByStart(ranges: seq<CellRange>)
    ensures var sorted := SortByStart(ranges);
            && OrderedByStart(sorted)
            && (forall r :: r in sorted <==> r in ranges)
            && (forall c :: InRanges(sorted, c) <==> InRanges(ranges, c))
  {
    var sorted := SortByStart(ranges);
    SortIsOrdered(ranges, (r: CellRange) => r.start);
    SameElements(sorted, ranges);
    forall c
      ensures InRanges(sorted, c) <==> InRanges(ranges, c)
    {
      if InRanges(sorted, c) {
        var k :| 0 <= k < |sorted| && InRange(sorted[k], c);
        assert sorted[k] in ranges;
      }
      if InRanges(ranges, c) {
        var k :| 0 <= k < |ranges| && InRange(ranges[k], c);
        assert ranges[k] in sorted;
      }
    }
  }

  // ----- the whole -----

  /** Ranges whose ends cut no wide character of either row. */
  predicate AllCutNothing(ranges: seq<CellRange>, previous: Cells, intended: Cells) {
    forall r :: r in ranges ==> CutsNothing(previous, intended, r.start) && CutsNothing(previous, intended, r.end)
  }

  method ExpandAll(ranges: seq<CellRange>, previous: Cells, intended: Cells) returns (expanded: seq<CellRange>)
    requires |previous| == |intended| && WellFormed(intended) && Proper(ranges, |previous|)
    ensures Proper(expanded, |previous|) && AllCutNothing(expanded, previous, intended)
    ensures forall c :: InRanges(ranges, c) ==> InRanges(expanded, c)
    ensures ranges == [] ==> expanded == []
    ensures WellFormed(previous) ==>
              forall c: nat :: InRanges(expanded, c) ==> InRanges(ranges, c) || WideInEither(previous, intended, c)
  {
    expanded := [];
    for k := 0 to |ranges|
      invariant Proper(expanded, |previous|) && AllCutNothing(expanded, previous, intended)
      invariant forall c :: InRanges(ranges[..k], c) ==> InRanges(expanded, c)
      invariant |expanded| == k
      invariant WellFormed(previous) ==>
                  forall c: nat :: InRanges(expanded, c) ==> InRanges(ranges[..k], c) || WideInEither(previous, intended, c)
    {
      var first := FirstColumn(ranges[k].start, previous, intended);
      var last := LastColumn(first, ranges[k].end, previous, intended);
      InRangesSnoc(ranges[..k], ranges[k]);
      InRangesSnoc(expanded, CellRange(first, last));
      assert ranges[..k + 1] == ranges[..k] + [ranges[k]];
      expanded := expanded + [CellRange(first, last)];
    }
    assert ranges[..|ranges|] == ranges;
  }

  /** The last range stretched to reach `end`. */
  lemma StretchLast(merged: seq<CellRange>, range: CellRange)
    requires merged != [] && Separated(merged)
    requires var last := merged[|merged| - 1]; last.start < last.end && last.start <= range.start <= last.end && range.start < range.end
    ensures var last := merged[|merged| - 1];
            var stretched := merged[|merged| - 1 := CellRange(last.start, Max(last.end, range.end))];
            && Separated(stretched)
            && forall c :: InRanges(stretched, c) <==> InRanges(merged, c) || InRange(range, c)
  {
    var front, last := merged[..|merged| - 1], merged[|merged| - 1];
    var joined := CellRange(last.start, Max(last.end, range.end));
    assert merged == front + [last] && merged[|merged| - 1 := joined] == front + [joined];
    InRangesSnoc(front, last);
    InRangesSnoc(front, joined);
  }

  /** Joins ordered ranges that overlap or touch. */
  method MergeOrdered(ranges: seq<CellRange>, cols: nat, ghost previous: Cells, ghost intended: Cells)
    returns (merged: seq<CellRange>)
    requires Proper(ranges, cols) && OrderedByStart(ranges) && AllCutNothing(ranges, previous, intended)
    ensures Proper(merged, cols) && Separated(merged) && AllCutNothing(merged, previous, intended)
    ensures forall c :: InRanges(merged, c) <==> InRanges(ranges, c)
  {
    hide CutsNothing;
    merged := [];
    for k := 0 to |ranges|
      invariant Proper(merged, cols) && Separated(merged) && AllCutNothing(merged, previous, intended)
      invariant k < |ranges| && merged != [] ==> merged[|merged| - 1].start <= ranges[k].start
      invariant forall c :: InRanges(merged, c) <==> InRanges(ranges[..k], c)
    {
      var range := ranges[k];
      assert range in ranges && ranges[..k + 1] == ranges[..k] + [range];
      InRangesSnoc(ranges[..k], range);
      if merged != [] && range.start <= merged[|merged| - 1].end {
        var last := merged[|merged| - 1];
        assert last in merged;
        StretchLast(merged, range);
        merged := merged[|merged| - 1 := CellRange(last.start, Max(last.end, range.end))];
      } else {
        InRangesSnoc(merged, range);
        merged := merged + [range];
      }
    }
    assert ranges[..|ranges|] == ranges;
  }

  /**
    * The ranges a repaint has to print: in order, apart, covering every given column, cutting no
    * wide character of either row, and with no extra column that is not half of a wide character.
    */
  method ExpandAndMergeCellRanges(ranges: seq<CellRange>, previous: Cells, intended: Cells) returns (merged: seq<CellRange>)
    requires |previous| == |intended| && WellFormed(intended) && Proper(ranges, |previous|)
    ensures Proper(merged, |previous|) && Separated(merged) && AllCutNothing(merged, previous, intended)
    ensures forall c :: InRanges(ranges, c) ==> InRanges(merged, c)
    ensures ranges == [] ==> merged == []
    ensures WellFormed(previous) ==>
              forall c: nat :: InRanges(merged, c) ==> InRanges(ranges, c) || WideInEither(previous, intended, c)
  {
    var expanded := ExpandAll(ranges, previous, intended);
    var sorted := SortByStart(expanded);
    SortedByStart(expanded);
    forall k | 0 <= k < |sorted|
      ensures sorted[k].start < sorted[k].end <= |previous|
    {
      assert sorted[k] in expanded;
    }
    merged := MergeOrdered(sorted, |previous|, previous, intended);
    if merged != [] {
      FirstStartIsCovered(merged, |previous|);
    }
  }
}

/** Repainting rows: the runs that turn one row into another, and the incremental batch built from them. */
module Rendering {
  import opened Common
  import opened Grid
  import opened VtMachine
  import opened Simulation
  import opened SceneOperations
  import opened CellRanges

  // ----- one run -----

  method WriteIncrementalRun(row: nat, start: nat, end: nat, cells: Cells) returns (commands: seq<Command>)
    requires start <= end <= |cells|
    ensures commands == RunCommands(row, start, end, cells) && |commands| > 0
  {
    commands := [Cup(row, start), ResetStyle, SetLink(None)];
    var activeStyle, activeLink := DEFAULT_STYLE, None;
    for c := start to end
      invariant commands + RunBody(cells, c, end, activeStyle, activeLink) + [ResetStyle] == RunCommands(row, start, end, cells)
    {
      var cell := cells[c];
      if !cell.continuation {
        ghost var before, style, link := commands, activeStyle, activeLink;
        if cell.hyperlink != activeLink {
          commands := commands + [SetLink(cell.hyperlink)];
          activeLink := cell.hyperlink;
        }
        if cell.style != activeStyle {
          commands := commands + [SetStyle(cell.style)];
          activeStyle := cell.style;
        }
        assert commands == before + PenCommands(cell, style, link);
        commands := commands + [Print(CellText(cell), TextWidth(cell))];
        ghost var rest := RunBody(cells, c + 1, end, activeStyle, activeLink);
        assert before + (PenCommands(cell, style, link) + [Print(CellText(cell), TextWidth(cell))] + rest) == commands + rest;
      }
    }
    if activeLink.Some? {
      commands := commands + [SetLink(None)];
    }
    commands := commands + [ResetStyle];
  }

  // ----- one row -----

  /** On every upright terminal showing a row with cells `before` at `r`, the commands make it `after`. */
  ghost predicate Repaints(commands: seq<Command>, r: nat, before: Cells, after: Cells) {
    |after| == |before| &&
    forall vt: Vt, rows: seq<Row> {:trigger Play(vt, commands), Shows(vt, rows)} ::
      Upright(vt) && Shows(vt, rows) && r < |rows| && rows[r].cells == before ==>
        var vt' := Play(vt, commands);
        && Upright(vt') && SameFrame(vt, vt') && (PenReset(vt) ==> PenReset(vt'))
        && Shows(vt', WithRowCells(rows, r, after))
  }

  lemma RepaintsNothing(r: nat, cells: Cells)
    ensures Repaints([], r, cells, cells)
  {
    forall vt: Vt, rows: seq<Row> | Upright(vt) && Shows(vt, rows) && r < |rows| && rows[r].cells == cells
      ensures Shows(Play(vt, []), WithRowCells(rows, r, cells))
    {
      assert WithRowCells(rows, r, cells) == rows;
    }
  }

  lemma RepaintsThen(c1: seq<Command>, c2: seq<Command>, r: nat, a: Cells, b: Cells, c: Cells)
    requires Repaints(c1, r, a, b) && Repaints(c2, r, b, c)
    ensures Repaints(c1 + c2, r, a, c)
  {
    forall vt: Vt, rows: seq<Row> | Upright(vt) && Shows(vt, rows) && r < |rows| && rows[r].cells == a
      ensures var vt' := Play(vt, c1 + c2);
              && Upright(vt') && SameFrame(vt, vt') && (PenReset(vt) ==> PenReset(vt'))
              && Shows(vt', WithRowCells(rows, r, c))
    {
      PlayAppend(vt, c1, c2);
      var middle := WithRowCells(rows, r, b);
      assert Shows(Play(vt, c1), middle) && middle[r].cells == b;
      assert WithRowCells(middle, r, c) == WithRowCells(rows, r, c);
    }
  }

  lemma RunRepaints(r: nat, start: nat, end: nat, before: Cells, intended: Cells)
    requires |before| == |intended| && WellFormed(intended) && start < end <= |intended|
    requires IsBoundary(intended, start) && IsBoundary(intended, end)
    ensures Repaints(RunCommands(r, start, end, intended), r, before, Overlay(before, start, intended[start..end]))
  {
    hide RunCommands, Overlay, WellFormed, Play;
    forall vt: Vt, rows: seq<Row> | Upright(vt) && Shows(vt, rows) && r < |rows| && rows[r].cells == before
      ensures var vt' := Play(vt, RunCommands(r, start, end, intended));
              && Upright(vt') && SameFrame(vt, vt') && PenReset(vt')
              && Shows(vt', WithRowCells(rows, r, Overlay(before, start, intended[start..end])))
    {
      assert vt.rows[r] == ShownRow(rows[r], vt.filler);
      RunShows(vt, rows, r, start, end, intended);
    }
    OverlayLength(before, start, intended[start..end]);
  }

  /** Every cell is the old one or the intended one, and those in [left, right) look as intended. */
  predicate Repainted(previous: Cells, intended: Cells, left: nat, right: nat, cells: Cells) {
    && |cells| == |intended| == |previous| && right <= |cells|
    && (forall c :: 0 <= c < |cells| ==> cells[c] == previous[c] || cells[c] == intended[c])
    && (forall c :: left <= c < right ==> CellsPhysicallyMatch(cells[c], intended[c]))
  }

  /** In a row of whole characters, a changed column is one of [left, right) or part of a wide character. */
  predicate TouchesOnly(previous: Cells, intended: Cells, left: nat, right: nat, cells: Cells) {
    && |cells| == |previous| == |intended|
    && (WellFormed(previous) ==>
          forall c: nat :: c < |cells| && cells[c] != previous[c] ==> left <= c < right || WideInEither(previous, intended, c))
  }

  lemma MixedTouchesOnly(cells: Cells, previous: Cells, intended: Cells, ranges: seq<CellRange>, left: nat, right: nat)
    requires Mixed(cells, previous, intended, ranges)
    requires WellFormed(previous) ==>
               forall c: nat :: InRanges(ranges, c) ==> left <= c < right || WideInEither(previous, intended, c)
    ensures TouchesOnly(previous, intended, left, right, cells)
  {
    hide InRanges, WellFormed, WideInEither;
  }

  method PaintRow(r: nat, left: nat, right: nat, previous: Cells, intended: Cells) returns (commands: seq<Command>, cells: Cells)
    requires |previous| == |intended| && WellFormed(intended) && left <= right <= |intended|
    ensures Repaints(commands, r, previous, cells)
    ensures Repainted(previous, intended, left, right, cells)
    ensures commands == [] ==> cells == previous
    ensures TouchesOnly(previous, intended, left, right, cells)
    ensures (forall c :: left <= c < right ==> CellsPhysicallyMatch(previous[c], intended[c])) ==> commands == []
  {
    hide Repaints, RunCommands, WellFormed, InRanges, Mixed, Overlay, Repainted, TouchesOnly;
    var ranges := ChangedCellRanges(previous, intended, left, right);
    var merged := ExpandAndMergeCellRanges(ranges, previous, intended);
    if ranges != [] {
      FirstStartIsCovered(ranges, |previous|);
    }
    commands, cells := [], previous;
    RepaintsNothing(r, previous);
    MixedNothing(previous, intended);
    assert merged[..0] == [];
    for k := 0 to |merged|
      invariant Repaints(commands, r, previous, cells)
      invariant |cells| == |previous| && Mixed(cells, previous, intended, merged[..k])
      invariant commands == [] <==> k == 0
      invariant k == 0 ==> cells == previous
    {
      var range := merged[k];
      assert range in merged && merged[..k + 1] == merged[..k] + [range];
      var run := WriteIncrementalRun(r, range.start, range.end, intended);
      assert IsBoundary(intended, range.start) && IsBoundary(intended, range.end);
      RunRepaints(r, range.start, range.end, cells, intended);
      var next := Overlay(cells, range.start, intended[range.start..range.end]);
      MixedStep(cells, previous, intended, merged[..k], range);
      RepaintsThen(commands, run, r, previous, cells, next);
      commands, cells := commands + run, next;
    }
    assert merged[..|merged|] == merged;
    MixedIsRepainted(cells, previous, intended, merged, left, right);
    MixedTouchesOnly(cells, previous, intended, merged, left, right);
  }

  /** The intended cells inside the ranges, the previous ones outside. */
  ghost predicate Mixed(cells: Cells, previous: Cells, intended: Cells, ranges: seq<CellRange>) {
    && |cells| == |previous| == |intended|
    && forall c: nat :: c < |cells| ==> cells[c] == if InRanges(ranges, c) then intended[c] else previous[c]
  }

  lemma MixedNothing(previous: Cells, intended: Cells)
    requires |previous| == |intended|
    ensures Mixed(previous, previous, intended, [])
  {
  }

  lemma MixedStep(cells: Cells, previous: Cells, intended: Cells, ranges: seq<CellRange>, range: CellRange)
    requires Mixed(cells, previous, intended, ranges) && range.start <= range.end <= |intended|
    ensures var next := Overlay(cells, range.start, intended[range.start..range.end]);
            |next| == |previous| && Mixed(next, previous, intended, ranges + [range])
  {
    hide InRanges;
    InRangesSnoc(ranges, range);
  }

  lemma MixedIsRepainted(cells: Cells, previous: Cells, intended: Cells, ranges: seq<CellRange>, left: nat, right: nat)
    requires Mixed(cells, previous, intended, ranges) && right <= |cells|
    requires forall c :: left <= c < right && !CellsPhysicallyMatch(previous[c], intended[c]) ==> InRanges(ranges, c)
    ensures Repainted(previous, intended, left, right, cells)
  {
    hide InRanges;
  }

  // ----- candidate columns of every row -----

  type Candidates = seq<Option<CellRange>>

  /** Rows and columns of the span are inside the candidate columns. */
  predicate CandidatesCover(candidates: Candidates, span: Span) {
    && span.bottom <= |candidates|
    && forall r :: span.top <= r < span.bottom ==>
         candidates[r].Some? && candidates[r].value.start <= span.left && span.right <= candidates[r].value.end
  }

  predicate CandidatesFit(candidates: Candidates, g: Geometry) {
    |candidates| == g.rows && forall r :: 0 <= r < |candidates| && candidates[r].Some? ==>
      candidates[r].value.start < candidates[r].value.end <= g.cols
  }

  function WidenedRange(candidate: Option<CellRange>, span: Span, r: int): Option<CellRange> {
    if !(span.top <= r < span.bottom) then candidate
    else if candidate.None? then Some(CellRange(span.left, span.right))
    else Some(CellRange(Min(candidate.value.start, span.left), Max(candidate.value.end, span.right)))
  }

  method Widen(candidates: Candidates, span: Span, g: Geometry) returns (wider: Candidates)
    requires CandidatesFit(candidates, g) && span.top < span.bottom <= g.rows && span.left < span.right <= g.cols
    ensures CandidatesFit(wider, g) && CandidatesCover(wider, span)
    ensures forall other :: CandidatesCover(candidates, other) ==> CandidatesCover(wider, other)
    ensures forall r :: 0 <= r < g.rows ==> (wider[r].Some? <==> candidates[r].Some? || span.top <= r < span.bottom)
    ensures forall r :: 0 <= r < g.rows ==> wider[r] == WidenedRange(candidates[r], span, r)
  {
    wider := candidates;
    for r := span.top to span.bottom
      invariant CandidatesFit(wider, g)
      invariant forall k :: 0 <= k < g.rows && !(span.top <= k < r) ==> wider[k] == candidates[k]
      invariant forall k :: span.top <= k < r ==>
                  wider[k] == Some(if candidates[k].Some?
                                   then CellRange(Min(candidates[k].value.start, span.left), Max(candidates[k].value.end, span.right))
                                   else CellRange(span.left, span.right))
    {
      var range := if wider[r].Some?
                   then CellRange(Min(wider[r].value.start, span.left), Max(wider[r].value.end, span.right))
                   else CellRange(span.left, span.right);
      wider := wider[r := Some(range)];
    }
  }

  function NoCandidates(rows: nat): (r: Candidates)
    ensures |r| == rows && forall i :: 0 <= i < rows ==> r[i] == None
  {
    seq(rows, _ => None)
  }
}

/** The incremental batch: repaint the damaged columns of every damaged row, then place the cursor. */
module IncrementalRendering {
  import opened Common
  import opened Grid
  import opened VtMachine
  import opened Simulation
  import opened SceneOperations
  import opened CellRanges
  import opened Rendering

  // ----- screens -----

  datatype CursorShape = Bar | Block | Underline | BlockHollow

  datatype Cursor = Cursor(row: nat, col: nat, visible: bool, shape: CursorShape)

  datatype Screen = Screen(rows: seq<Row>, cursor: Cursor)

  function ShapeCode(shape: CursorShape): nat {
    match shape
    case Block => 2
    case BlockHollow => 2
    case Underline => 4
    case Bar => 6
  }

  function WriteCursor(cursor: Cursor): seq<Command> {
    [Cup(cursor.row, cursor.col), ShowCursor(cursor.visible, ShapeCode(cursor.shape))]
  }

  ghost predicate ShowsCursor(vt: Vt, cursor: Cursor) {
    && vt.row == Min(cursor.row, |vt.rows| - 1) && vt.col == Min(cursor.col, vt.cols - 1)
    && vt.cursorVisible == cursor.visible
    && vt.cursorShape == (if cursor.shape == Bar then 6 else if cursor.shape == Underline then 4 else 2)
  }

  ghost predicate ShowsScreen(vt: Vt, screen: Screen) {
    Shows(vt, screen.rows) && ShowsCursor(vt, screen.cursor)
  }

  lemma CursorPlay(vt: Vt, cursor: Cursor)
    requires Upright(vt)
    ensures var vt' := Play(vt, WriteCursor(cursor));
            && Upright(vt') && ShowsCursor(vt', cursor) && vt'.rows == vt.rows && vt'.filler == vt.filler
            && vt'.pen == vt.pen && vt'.link == vt.link && vt'.top == vt.top && vt'.bottom == vt.bottom
  {
    var show := ShowCursor(cursor.visible, ShapeCode(cursor.shape));
    assert WriteCursor(cursor) == [Cup(cursor.row, cursor.col)] + [show];
    PlayCons(vt, Cup(cursor.row, cursor.col), [show]);
    PlayOne(Place(vt, cursor.row, cursor.col), show);
  }

  /** What the terminal shows depends on the looks of the cells only. */
  lemma ShownByLooks(vt: Vt, rows: seq<Row>, intended: seq<Row>)
    requires Shows(vt, rows) && RowsPhysicallyMatch(rows, intended)
    ensures Shows(vt, intended)
  {
    forall i | 0 <= i < |rows|
      ensures vt.rows[i] == ShownRow(intended[i], vt.filler)
    {
      var a, b := rows[i].cells, intended[i].cells;
      forall c | 0 <= c < |a|
        ensures Clean(a, vt.filler)[c] == Clean(b, vt.filler)[c]
      {
        assert CellsPhysicallyMatch(a[c], b[c]);
        assert c > 0 ==> CellsPhysicallyMatch(a[c - 1], b[c - 1]);
        assert c + 1 < |a| ==> CellsPhysicallyMatch(a[c + 1], b[c + 1]);
      }
      assert Clean(a, vt.filler) == Clean(b, vt.filler);
    }
  }

  // ----- damage -----

  /** Column `c` of row `r` lies in a region, clipped to the screen. */
  predicate Damaged(regions: seq<GridRect>, g: Geometry, r: nat, c: nat) {
    exists k :: 0 <= k < |regions| && ClipGridRect(regions[k], g).Some? && Covers(ClipGridRect(regions[k], g).value, r, c)
  }

  predicate RowDamaged(regions: seq<GridRect>, g: Geometry, r: nat) {
    exists k :: 0 <= k < |regions| && ClipGridRect(regions[k], g).Some?
             && var rect := ClipGridRect(regions[k], g).value; rect.origin.row <= r < rect.origin.row + rect.rows
  }

  /** Damage is what the regions cover, and a row is damaged when one of its cells is. */
  lemma DamageIsCovered(regions: seq<GridRect>, g: Geometry, r: nat)
    requires g.rows <= 0xffff && g.cols <= 0xffff && r < g.rows
    ensures forall c: nat :: c < g.cols ==> (Damaged(regions, g, r, c) <==> Covered(regions, r, c))
    ensures RowDamaged(regions, g, r) <==> exists c: nat :: c < g.cols && Covered(regions, r, c)
  {
    hide ClipGridRect;
    forall c: nat, k | c < g.cols && 0 <= k < |regions|
      ensures ClipGridRect(regions[k], g).Some? && Covers(ClipGridRect(regions[k], g).value, r, c) <==> Covers(regions[k], r, c)
    {
      ClipKeepsCellsOnScreen(regions[k], g, r, c);
    }
    if RowDamaged(regions, g, r) {
      var k :| 0 <= k < |regions| && ClipGridRect(regions[k], g).Some?
               && var rect := ClipGridRect(regions[k], g).value; rect.origin.row <= r < rect.origin.row + rect.rows;
      ClipIsOnScreen(regions[k], g);
      var c: nat := ClipGridRect(regions[k], g).value.origin.col;
      assert Covers(ClipGridRect(regions[k], g).value, r, c);
      assert Covered(regions, r, c);
    }
    if c: nat :| c < g.cols && Covered(regions, r, c) {
      var k :| 0 <= k < |regions| && Covers(regions[k], r, c);
      assert Covers(ClipGridRect(regions[k], g).value, r, c);
    }
  }

  lemma ClipIsOnScreen(rect: GridRect, g: Geometry)
    requires ClipGridRect(rect, g).Some?
    ensures var clipped := ClipGridRect(rect, g).value;
      && 0 <= clipped.origin.col < g.cols && clipped.cols > 0 && 0 <= clipped.origin.row < g.rows && clipped.rows > 0
      && rect.origin.col <= clipped.origin.col && clipped.origin.col + clipped.cols <= rect.origin.col + rect.cols
      && rect.origin.row <= clipped.origin.row && clipped.origin.row + clipped.rows <= rect.origin.row + rect.rows
  {
  }

  /** The damage is complete: outside it the two grids look the same. */
  ghost predicate DamageCovers(regions: seq<GridRect>, g: Geometry, presented: seq<Row>, intended: seq<Row>)
    requires HasShape(presented, g) && HasShape(intended, g)
  {
    && (forall r, c :: 0 <= r < g.rows && 0 <= c < g.cols && !Damaged(regions, g, r, c) ==>
          CellsPhysicallyMatch(presented[r].cells[c], intended[r].cells[c]))
    && (forall r :: 0 <= r < g.rows && !RowDamaged(regions, g, r) ==> presented[r].wrapped == intended[r].wrapped)
  }

  function SpanOf(rect: GridRect): Span
    requires rect.origin.row >= 0 && rect.origin.col >= 0
  {
    Span(rect.origin.row, rect.origin.row + rect.rows, rect.origin.col, rect.origin.col + rect.cols)
  }

  /** The candidate columns that the clipped regions ask for. */
  method DamageCandidates(regions: seq<GridRect>, g: Geometry) returns (candidates: Candidates)
    ensures CandidatesFit(candidates, g)
    ensures forall k :: 0 <= k < |regions| && ClipGridRect(regions[k], g).Some? ==>
              CandidatesCover(candidates, SpanOf(ClipGridRect(regions[k], g).value))
    ensures forall r :: 0 <= r < g.rows ==> (candidates[r].Some? <==> RowDamaged(regions, g, r))
    ensures forall r :: 0 <= r < g.rows && candidates[r].Some? ==> EndsAreDamaged(regions, g, r, candidates[r].value)
  {
    hide RowDamaged, CandidatesCover, EndsAreDamaged, WidenedRange;
    NoRowDamaged(g);
    assert regions[..0] == [];
    candidates := NoCandidates(g.rows);
    for k := 0 to |regions|
      invariant CandidatesFit(candidates, g)
      invariant forall j :: 0 <= j < k && ClipGridRect(regions[j], g).Some? ==>
                  CandidatesCover(candidates, SpanOf(ClipGridRect(regions[j], g).value))
      invariant forall r :: 0 <= r < g.rows ==> (candidates[r].Some? <==> RowDamaged(regions[..k], g, r))
      invariant forall r :: 0 <= r < g.rows && candidates[r].Some? ==> EndsAreDamaged(regions[..k], g, r, candidates[r].value)
    {
      assert regions[..k + 1] == regions[..k] + [regions[k]];
      forall r: nat
        ensures RowDamaged(regions[..k + 1], g, r) <==> RowDamaged(regions[..k], g, r) || DamagesRow(regions[k], g, r)
      {
        RowDamagedSnoc(regions[..k], regions[k], g, r);
        RegionDamagesItsRows(regions[k], g, r);
      }
      ghost var before := candidates;
      match ClipGridRect(regions[k], g) {
        case None =>
        case Some(rect) =>
          candidates := Widen(candidates, SpanOf(rect), g);
      }
      forall r: nat | r < g.rows
        ensures candidates[r].Some? <==> RowDamaged(regions[..k + 1], g, r)
        ensures candidates[r].Some? ==> EndsAreDamaged(regions[..k + 1], g, r, candidates[r].value)
      {
        assert before[r].Some? <==> RowDamaged(regions[..k], g, r);
        match ClipGridRect(regions[k], g) {
          case None => assert candidates[r] == before[r];
          case Some(rect) => assert candidates[r] == WidenedRange(before[r], SpanOf(rect), r);
        }
        EndsSnoc(regions[..k], regions[k], g, r, before[r]);
      }
    }
    assert regions[..|regions|] == regions;
  }

  /** Both ends of the range are ends of regions in this row. */
  predicate EndsAreDamaged(regions: seq<GridRect>, g: Geometry, r: nat, range: CellRange) {
    && (exists k :: 0 <= k < |regions| && DamagesRow(regions[k], g, r) && SpanOf(ClipGridRect(regions[k], g).value).left == range.start)
    && (exists k :: 0 <= k < |regions| && DamagesRow(regions[k], g, r) && SpanOf(ClipGridRect(regions[k], g).value).right == range.end)
  }

  lemma EndsSnoc(regions: seq<GridRect>, last: GridRect, g: Geometry, r: nat, before: Option<CellRange>)
    requires before.Some? ==> EndsAreDamaged(regions, g, r, before.value)
    ensures var after := match ClipGridRect(last, g)
                         case None => before
                         case Some(rect) => WidenedRange(before, SpanOf(rect), r);
            after.Some? ==> EndsAreDamaged(regions + [last], g, r, after.value)
  {
    hide ClipGridRect;
    var all := regions + [last];
    assert all[|regions|] == last;
    if before.Some? {
      var i :| 0 <= i < |regions| && DamagesRow(regions[i], g, r) && SpanOf(ClipGridRect(regions[i], g).value).left == before.value.start;
      var j :| 0 <= j < |regions| && DamagesRow(regions[j], g, r) && SpanOf(ClipGridRect(regions[j], g).value).right == before.value.end;
      assert all[i] == regions[i] && all[j] == regions[j];
    }
  }

  lemma NoRowDamaged(g: Geometry)
    ensures forall r: nat :: !RowDamaged([], g, r)
  {
  }

  predicate DamagesRow(region: GridRect, g: Geometry, r: nat) {
    match ClipGridRect(region, g)
    case None => false
    case Some(rect) => rect.origin.row <= r < rect.origin.row + rect.rows
  }

  lemma RegionDamagesItsRows(region: GridRect, g: Geometry, r: nat)
    ensures RowDamaged([region], g, r) <==> DamagesRow(region, g, r)
  {
    assert [region][0] == region;
  }

  lemma RowDamagedSnoc(regions: seq<GridRect>, last: GridRect, g: Geometry, r: nat)
    ensures RowDamaged(regions + [last], g, r) <==> RowDamaged(regions, g, r) || RowDamaged([last], g, r)
  {
    var all := regions + [last];
    if RowDamaged(regions, g, r) {
      var k :| 0 <= k < |regions| && ClipGridRect(regions[k], g).Some?
            && var rect := ClipGridRect(regions[k], g).value; rect.origin.row <= r < rect.origin.row + rect.rows;
      assert all[k] == regions[k];
    }
    if RowDamaged([last], g, r) {
      assert all[|regions|] == last;
    }
    if RowDamaged(all, g, r) {
      var k :| 0 <= k < |all| && ClipGridRect(all[k], g).Some?
            && var rect := ClipGridRect(all[k], g).value; rect.origin.row <= r < rect.origin.row + rect.rows;
      if k < |regions| {
        assert regions[k] == all[k];
      } else {
        assert [last][0] == all[k];
      }
    }
  }

  // ----- the batch -----

  /** On every upright terminal showing `before`, the commands leave it upright and showing `after`. */
  ghost predicate Redraws(commands: seq<Command>, before: seq<Row>, after: seq<Row>) {
    |before| == |after| &&
    forall vt: Vt {:trigger Play(vt, commands)} :: Upright(vt) && Shows(vt, before) ==>
      var vt' := Play(vt, commands);
      Upright(vt') && SameFrame(vt, vt') && (PenReset(vt) ==> PenReset(vt')) && Shows(vt', after)
  }

  lemma RedrawsThen(c1: seq<Command>, c2: seq<Command>, r: nat, a: seq<Row>, b: seq<Row>, cells: Cells)
    requires Redraws(c1, a, b) && r < |b| && Repaints(c2, r, b[r].cells, cells)
    ensures Redraws(c1 + c2, a, WithRowCells(b, r, cells))
  {
    forall vt: Vt | Upright(vt) && Shows(vt, a)
      ensures var vt' := Play(vt, c1 + c2);
              && Upright(vt') && SameFrame(vt, vt') && (PenReset(vt) ==> PenReset(vt'))
              && Shows(vt', WithRowCells(b, r, cells))
    {
      PlayAppend(vt, c1, c2);
      assert Shows(Play(vt, c1), b);
    }
  }

  /** The rows painted so far: repainted inside their candidates, untouched below `upTo`. */
  ghost predicate PaintedTo(rows: seq<Row>, presented: seq<Row>, intended: seq<Row>, candidates: Candidates, upTo: nat) {
    && |rows| == |presented| == |intended| == |candidates| && upTo <= |rows|
    && (forall r :: 0 <= r < |rows| ==> rows[r].wrapped == presented[r].wrapped)
    && (forall r :: 0 <= r < |rows| && (r >= upTo || candidates[r].None?) ==> rows[r] == presented[r])
    && (forall r :: 0 <= r < upTo && candidates[r].Some? ==>
          Repainted(presented[r].cells, intended[r].cells, candidates[r].value.start, candidates[r].value.end, rows[r].cells))
  }

  /** Every cell is the old one or the intended one, and no soft-wrap mark changed. */
  ghost predicate OldOrIntended(before: seq<Row>, intended: seq<Row>, rows: seq<Row>) {
    && |rows| == |before| == |intended|
    && forall r :: 0 <= r < |rows| ==>
         && rows[r].wrapped == before[r].wrapped && |rows[r].cells| == |before[r].cells| == |intended[r].cells|
         && forall c :: 0 <= c < |rows[r].cells| ==>
              rows[r].cells[c] == before[r].cells[c] || rows[r].cells[c] == intended[r].cells[c]
  }

  /** The rows painted so far changed only in their candidate columns and in wide characters they cut. */
  ghost predicate PaintedWithin(rows: seq<Row>, before: seq<Row>, intended: seq<Row>, candidates: Candidates, upTo: nat) {
    && |rows| == |before| == |intended| == |candidates| && upTo <= |rows|
    && (forall r :: 0 <= r < |rows| && (r >= upTo || candidates[r].None?) ==> rows[r] == before[r])
    && forall r :: 0 <= r < upTo && candidates[r].Some? ==>
         TouchesOnly(before[r].cells, intended[r].cells, candidates[r].value.start, candidates[r].value.end, rows[r].cells)
  }

  /** A region covers a cell of this row at or before column `c`, and one at or behind it. */
  ghost predicate BetweenRegions(regions: seq<GridRect>, r: int, c: int) {
    (exists left :: left <= c && Covered(regions, r, left)) && exists right :: c <= right && Covered(regions, r, right)
  }

  /** A changed row meets a region; in a row of whole characters a changed cell lies between regions or is wide. */
  ghost predicate ChangesNearRegions(before: seq<Row>, intended: seq<Row>, rows: seq<Row>, regions: seq<GridRect>, g: Geometry)
    requires HasShape(before, g) && HasShape(intended, g) && HasShape(rows, g)
  {
    forall r: nat, c: nat :: r < g.rows && c < g.cols && rows[r].cells[c] != before[r].cells[c] ==>
      && (exists left :: Covered(regions, r, left))
      && (WellFormed(before[r].cells) ==>
            BetweenRegions(regions, r, c) || WideInEither(before[r].cells, intended[r].cells, c))
  }

  lemma PaintedNearRegions(
    rows: seq<Row>, before: seq<Row>, intended: seq<Row>, candidates: Candidates, regions: seq<GridRect>, g: Geometry)
    requires HasShape(before, g) && HasShape(intended, g) && HasShape(rows, g)
    requires PaintedWithin(rows, before, intended, candidates, g.rows)
    requires forall r :: 0 <= r < g.rows && candidates[r].Some? ==> EndsAreDamaged(regions, g, r, candidates[r].value)
    ensures ChangesNearRegions(before, intended, rows, regions, g)
  {
    hide WellFormed, WideInEither, EndsAreDamaged;
    forall r: nat, c: nat | r < g.rows && c < g.cols && rows[r].cells[c] != before[r].cells[c]
      ensures exists left :: Covered(regions, r, left)
      ensures WellFormed(before[r].cells) ==>
                BetweenRegions(regions, r, c) || WideInEither(before[r].cells, intended[r].cells, c)
    {
      assert candidates[r].Some?;
      EndsAreCovered(regions, g, r, candidates[r].value);
    }
  }

  lemma EndsAreCovered(regions: seq<GridRect>, g: Geometry, r: nat, range: CellRange)
    requires EndsAreDamaged(regions, g, r, range)
    ensures Covered(regions, r, range.start) && Covered(regions, r, range.end - 1)
  {
    var i :| 0 <= i < |regions| && DamagesRow(regions[i], g, r) && SpanOf(ClipGridRect(regions[i], g).value).left == range.start;
    var j :| 0 <= j < |regions| && DamagesRow(regions[j], g, r) && SpanOf(ClipGridRect(regions[j], g).value).right == range.end;
    ClipIsOnScreen(regions[i], g);
    ClipIsOnScreen(regions[j], g);
    assert Covers(regions[i], r, range.start) && Covers(regions[j], r, range.end - 1);
  }

  lemma NothingPainted(rows: seq<Row>, intended: seq<Row>, candidates: Candidates)
    requires |rows| == |intended| == |candidates|
    ensures PaintedTo(rows, rows, intended, candidates, 0) && PaintedWithin(rows, rows, intended, candidates, 0)
  {
  }

  lemma RowNotYetPainted(rows: seq<Row>, before: seq<Row>, intended: seq<Row>, candidates: Candidates, r: nat)
    requires PaintedTo(rows, before, intended, candidates, r) && PaintedWithin(rows, before, intended, candidates, r) && r < |rows|
    ensures |rows| == |before| == |intended| == |candidates| && rows[r] == before[r]
    ensures candidates[r].None? ==>
              PaintedTo(rows, before, intended, candidates, r + 1) && PaintedWithin(rows, before, intended, candidates, r + 1)
  {
    hide Repainted, TouchesOnly;
  }

  lemma OneRowPainted(rows: seq<Row>, before: seq<Row>, intended: seq<Row>, candidates: Candidates, r: nat, cells: Cells, g: Geometry)
    requires HasShape(rows, g) && HasShape(intended, g) && HasShape(before, g) && r < g.rows
    requires PaintedTo(rows, before, intended, candidates, r) && PaintedWithin(rows, before, intended, candidates, r)
    requires candidates[r].Some? && |candidates| == g.rows
    requires Repainted(rows[r].cells, intended[r].cells, candidates[r].value.start, candidates[r].value.end, cells)
    requires TouchesOnly(rows[r].cells, intended[r].cells, candidates[r].value.start, candidates[r].value.end, cells)
    ensures var after := WithRowCells(rows, r, cells);
      && HasShape(after, g) && PaintedTo(after, before, intended, candidates, r + 1)
      && PaintedWithin(after, before, intended, candidates, r + 1)
      && (cells == rows[r].cells ==> after == rows)
  {
    hide TouchesOnly;
  }

  lemma NothingChanged(rows: seq<Row>, intended: seq<Row>, g: Geometry)
    requires HasShape(rows, g) && HasShape(intended, g)
    ensures OldOrIntended(rows, intended, rows)
  {
  }

  lemma PaintedIsOldOrIntended(rows: seq<Row>, before: seq<Row>, intended: seq<Row>, candidates: Candidates, upTo: nat, g: Geometry)
    requires HasShape(before, g) && HasShape(intended, g) && HasShape(rows, g)
    requires PaintedTo(rows, before, intended, candidates, upTo)
    ensures OldOrIntended(before, intended, rows)
  {
  }

  /** Complete damage, painted, is the intended grid. */
  lemma PaintedIsIntended(
    rows: seq<Row>, presented: seq<Row>, intended: seq<Row>, candidates: Candidates, regions: seq<GridRect>, g: Geometry)
    requires HasShape(presented, g) && HasShape(intended, g) && CandidatesFit(candidates, g)
    requires PaintedTo(rows, presented, intended, candidates, g.rows)
    requires DamageCovers(regions, g, presented, intended)
    requires forall k :: 0 <= k < |regions| && ClipGridRect(regions[k], g).Some? ==>
               CandidatesCover(candidates, SpanOf(ClipGridRect(regions[k], g).value))
    requires forall r :: 0 <= r < g.rows ==> (candidates[r].Some? <==> RowDamaged(regions, g, r))
    requires forall r :: 0 <= r < g.rows && candidates[r].Some? ==> !presented[r].wrapped && !intended[r].wrapped
    ensures RowsPhysicallyMatch(rows, intended)
  {
    forall r, c | 0 <= r < g.rows && 0 <= c < g.cols
      ensures |rows[r].cells| == g.cols && CellsPhysicallyMatch(rows[r].cells[c], intended[r].cells[c])
    {
      if Damaged(regions, g, r, c) {
        var k :| 0 <= k < |regions| && ClipGridRect(regions[k], g).Some? && Covers(ClipGridRect(regions[k], g).value, r, c);
        assert CandidatesCover(candidates, SpanOf(ClipGridRect(regions[k], g).value));
      }
    }
  }

  /**
    * The incremental batch. It is refused exactly when a damaged row carries a soft-wrap mark.
    * Otherwise, if the damage is complete, every upright terminal that shows the presented screen
    * shows the intended one afterwards: rows, wide characters, soft-wrap marks and cursor.
    */
  method IncrementalBatch(regions: seq<GridRect>, presented: Screen, intended: Screen, g: Geometry)
    returns (batch: Option<seq<Command>>, ghost shown: seq<Row>)
    requires HasShape(presented.rows, g) && HasShape(intended.rows, g) && AllWellFormed(intended.rows)
    ensures batch.None? <==>
              exists r :: 0 <= r < g.rows && RowDamaged(regions, g, r) && (presented.rows[r].wrapped || intended.rows[r].wrapped)
    ensures batch.Some? && DamageCovers(regions, g, presented.rows, intended.rows) ==>
              forall vt :: Upright(vt) && ShowsScreen(vt, presented) ==> ShowsScreen(Play(vt, batch.value), intended)
    ensures batch.Some? ==> HasShape(shown, g) && OldOrIntended(presented.rows, intended.rows, shown)
                            && ChangesNearRegions(presented.rows, intended.rows, shown, regions, g)
    ensures batch.Some? ==>
              forall vt :: Upright(vt) && ShowsScreen(vt, presented) ==>
                ShowsScreen(Play(vt, batch.value), Screen(shown, intended.cursor))
    ensures batch.Some? && (regions == [] || RowsPhysicallyMatch(presented.rows, intended.rows)) ==>
              batch.value == if presented.cursor == intended.cursor then [] else WriteCursor(intended.cursor)
  {
    hide Repaints, Redraws, RowDamaged, CandidatesCover, OldOrIntended, EndsAreDamaged, ChangesNearRegions, TouchesOnly,
         PaintedTo, PaintedWithin, Repainted, ShowsScreen, DamageCovers, WriteCursor, WellFormed;
    var candidates := DamageCandidates(regions, g);
    var body: seq<Command> := [];
    ghost var rows := presented.rows;
    RedrawsNothing(rows);
    NothingPainted(rows, intended.rows, candidates);
    NoRowDamaged(g);
    var wroteCells := false;
    for r := 0 to g.rows
      invariant HasShape(rows, g) && PaintedTo(rows, presented.rows, intended.rows, candidates, r)
      invariant PaintedWithin(rows, presented.rows, intended.rows, candidates, r)
      invariant Redraws(body, presented.rows, rows)
      invariant forall k :: 0 <= k < r && candidates[k].Some? ==> !presented.rows[k].wrapped && !intended.rows[k].wrapped
      invariant wroteCells <==> body != []
      invariant regions == [] || RowsPhysicallyMatch(presented.rows, intended.rows) ==> body == [] && rows == presented.rows
    {
      RowNotYetPainted(rows, presented.rows, intended.rows, candidates, r);
      if candidates[r].Some? {
        if presented.rows[r].wrapped || intended.rows[r].wrapped {
          return None, presented.rows;
        }
        var commands, cells := PaintRow(r, candidates[r].value.start, candidates[r].value.end,
                                        presented.rows[r].cells, intended.rows[r].cells);
        RedrawsThen(body, commands, r, presented.rows, rows, cells);
        OneRowPainted(rows, presented.rows, intended.rows, candidates, r, cells, g);
        body := body + commands;
        wroteCells := wroteCells || commands != [];
        rows := WithRowCells(rows, r, cells);
      }
    }
    ghost var painted := body;
    if wroteCells || presented.cursor != intended.cursor {
      body := body + WriteCursor(intended.cursor);
    }
    batch, shown := Some(body), rows;
    PaintedIsOldOrIntended(rows, presented.rows, intended.rows, candidates, g.rows, g);
    PaintedNearRegions(rows, presented.rows, intended.rows, candidates, regions, g);
    if DamageCovers(regions, g, presented.rows, intended.rows) {
      PaintedIsIntended(rows, presented.rows, intended.rows, candidates, regions, g);
    }
    forall vt | Upright(vt) && ShowsScreen(vt, presented)
      ensures ShowsScreen(Play(vt, body), Screen(rows, intended.cursor))
      ensures DamageCovers(regions, g, presented.rows, intended.rows) ==> ShowsScreen(Play(vt, body), intended)
    {
      BatchShows(vt, presented, intended.cursor, painted, rows, body);
      if DamageCovers(regions, g, presented.rows, intended.rows) {
        ShownAsIntended(Play(vt, body), rows, intended);
      }
    }
  }

  lemma RedrawsNothing(rows: seq<Row>)
    ensures Redraws([], rows, rows)
  {
  }

  lemma BatchShows(vt: Vt, presented: Screen, cursor: Cursor, painted: seq<Command>, rows: seq<Row>, body: seq<Command>)
    requires Upright(vt) && ShowsScreen(vt, presented) && Redraws(painted, presented.rows, rows)
    requires body == painted + WriteCursor(cursor) || (body == painted == [] && presented.cursor == cursor)
    ensures ShowsScreen(Play(vt, body), Screen(rows, cursor))
  {
    var vt1 := Play(vt, painted);
    assert Shows(vt1, rows);
    if body != painted {
      PlayAppend(vt, painted, WriteCursor(cursor));
      CursorPlay(vt1, cursor);
    }
  }

  lemma ShownAsIntended(vt: Vt, rows: seq<Row>, intended: Screen)
    requires ShowsScreen(vt, Screen(rows, intended.cursor)) && RowsPhysicallyMatch(rows, intended.rows)
    ensures ShowsScreen(vt, intended)
  {
    ShownByLooks(vt, rows, intended.rows);
  }
}

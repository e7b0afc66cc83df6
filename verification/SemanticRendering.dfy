/** The semantic fast path: replay scene operations on the terminal, repair what they introduced, check. */
module SemanticRendering {
  import opened Common
  import opened Grid
  import opened VtMachine
  import opened Simulation
  import opened SceneOperations
  import opened SceneSimulation
  import opened RegionLimit
  import opened CellRanges
  import opened Rendering
  import opened IncrementalRendering

  // ----- repairs -----

  /** The cells an operation introduces, whose looks are only known from the intended grid. */
  predicate Introduces(op: SceneOperation, g: Geometry, row: int, col: int)
    requires ExactRegion(op.Region(), g).Some?
  {
    var span := ExactRegion(op.Region(), g).value;
    var n := Distance(op, span);
    if op.IsVertical() then
      0 <= col < g.cols && if op.MovesUp() then span.bottom - n <= row < span.bottom else span.top <= row < span.top + n
    else if op.InsertChars? then row == span.top && span.left <= col < span.left + n
    else if op.DeleteChars? then row == span.top && span.right - n <= col < span.right
    else Covers(op.Region(), row, col)
  }

  /** Where a pending repair of cell (`row`, `col`) came from before the operation. */
  ghost predicate WasCovered(before: seq<GridRect>, op: SceneOperation, g: Geometry, row: int, col: int)
    requires ExactRegion(op.Region(), g).Some?
  {
    var span := ExactRegion(op.Region(), g).value;
    if op.IsVertical() then
      exists r0: nat :: Covered(before, r0, col) && MovedRow(r0, span.top, span.bottom, Distance(op, span), op.MovesUp()) == Some(row)
    else Covered(before, row, col)
  }

  ghost predicate RepairsFollow(before: seq<GridRect>, op: SceneOperation, g: Geometry, after: seq<GridRect>)
    requires ExactRegion(op.Region(), g).Some?
  {
    forall row: nat, col: nat :: Covered(after, row, col) <==> WasCovered(before, op, g, row, col) || Introduces(op, g, row, col)
  }

  /**
    * Repairs follow the cells: after an accepted operation every cell either belongs to what the
    * operation introduced, or is a cell of the row its pending repair is carried along with.
    */
  lemma CellsMoveOrAreIntroduced(rows: seq<Row>, op: SceneOperation, g: Geometry, row: nat, col: nat)
    requires HasShape(rows, g) && Accepts(rows, op, g) && row < g.rows && col < g.cols
    ensures ExactRegion(op.Region(), g).Some?
    ensures !Introduces(op, g, row, col) ==>
              var span := ExactRegion(op.Region(), g).value;
              var after := Effect(rows, op, g)[row].cells[col];
              if op.IsVertical() then
                exists r0: nat :: r0 < g.rows && after == rows[r0].cells[col]
                                  && MovedRow(r0, span.top, span.bottom, Distance(op, span), op.MovesUp()) == Some(row)
              else exists c0: nat :: c0 < g.cols && after == rows[row].cells[c0]
  {
    hide Effect, Introduces, MovedRow, Distance;
    if !Introduces(op, g, row, col) {
      if op.IsVertical() {
        var r0 := CameFrom(op, g, row, col);
        RowCameFrom(rows, op, g, row, col, r0);
      } else {
        var c0 := ColumnCameFrom(rows, op, g, row, col);
      }
    }
  }

  /** The row that a moved row was before. */
  lemma CameFrom(op: SceneOperation, g: Geometry, row: nat, col: nat) returns (r0: nat)
    requires ExactRegion(op.Region(), g).Some? && op.IsVertical() && row < g.rows && col < g.cols
    requires !Introduces(op, g, row, col)
    ensures var span := ExactRegion(op.Region(), g).value;
      r0 < g.rows && MovedRow(r0, span.top, span.bottom, Distance(op, span), op.MovesUp()) == Some(row)
  {
    hide ExactRegion;
    ExactSpan(op.Region(), g);
    var span := ExactRegion(op.Region(), g).value;
    var n := Distance(op, span);
    r0 := if row < span.top || row >= span.bottom then row else if op.MovesUp() then row + n else row - n;
  }

  lemma ExactSpan(region: GridRect, g: Geometry)
    requires ExactRegion(region, g).Some?
    ensures var span := ExactRegion(region, g).value; span.top < span.bottom <= g.rows && span.left < span.right <= g.cols
  {
  }

  /** The row a repair is carried along with is the row the operation moves. */
  lemma RowCameFrom(rows: seq<Row>, op: SceneOperation, g: Geometry, row: nat, col: nat, r0: nat)
    requires HasShape(rows, g) && Accepts(rows, op, g) && op.IsVertical() && row < g.rows && col < g.cols && r0 < g.rows
    requires var span := ExactRegion(op.Region(), g).value;
      MovedRow(r0, span.top, span.bottom, Distance(op, span), op.MovesUp()) == Some(row)
    ensures Effect(rows, op, g)[row] == rows[r0] && Effect(rows, op, g)[row].cells[col] == rows[r0].cells[col]
  {
    hide BlankRow, ShiftUp, ShiftDown, RowsMovedUp, RowsMovedDown;
    var span := ExactRegion(op.Region(), g).value;
    var n := Distance(op, span);
    ShiftsMoveRows(rows, span.top, span.bottom, n, g.cols);
    MovedRowIsThere(rows, Effect(rows, op, g), span.top, span.bottom, n, g.cols, op.MovesUp(), r0, row);
  }

  lemma MovedRowIsThere(
    rows: seq<Row>, after: seq<Row>, top: nat, bottom: nat, n: nat, cols: nat, upward: bool, r0: nat, row: nat)
    requires if upward then RowsMovedUp(rows, after, top, bottom, n, cols) else RowsMovedDown(rows, after, top, bottom, n, cols)
    requires r0 < |rows| && n <= bottom - top && MovedRow(r0, top, bottom, n, upward) == Some(row)
    ensures row < |after| && after[row] == rows[r0]
  {
    hide BlankRow;
    assert upward && top <= r0 < bottom ==> row + n == r0;
    assert !upward && top <= r0 < bottom ==> row - n == r0;
  }

  lemma ColumnCameFrom(rows: seq<Row>, op: SceneOperation, g: Geometry, row: nat, col: nat) returns (c0: nat)
    requires HasShape(rows, g) && Accepts(rows, op, g) && !op.IsVertical() && row < g.rows && col < g.cols
    requires !Introduces(op, g, row, col)
    ensures c0 < g.cols && Effect(rows, op, g)[row].cells[col] == rows[row].cells[c0]
  {
    hide Effect, BlankCells, TextCells;
    EditMeaning(rows, op, g);
    AcceptedSpan(rows, op, g);
    var span := ExactRegion(op.Region(), g).value;
    var n := Distance(op, span);
    c0 := if row != span.top || col < span.left then col
          else if op.InsertChars? then col - n
          else if op.DeleteChars? then col + n
          else col;
    if row == span.top {
      EditedColumn(rows[row].cells, Effect(rows, op, g)[row].cells, op, col, c0);
    }
  }

  lemma EditedColumn(before: Cells, after: Cells, op: SceneOperation, col: nat, c0: nat)
    requires !op.IsVertical() && EditedCells(before, after, op) && col < |before| && c0 < |before|
    requires var (left, right) := (op.Region().origin.col, op.Region().origin.col + op.Region().cols);
      match op
      case InsertChars(region, count) =>
        if col < left then c0 == col else left + Min(count, region.cols) <= col && c0 == col - Min(count, region.cols)
      case DeleteChars(region, count) =>
        if col < left then c0 == col else col < |before| - Min(count, region.cols) && c0 == col + Min(count, region.cols)
      case _ => c0 == col && !(left <= col < right)
    ensures after[col] == before[c0]
  {
  }

  lemma CoveredSnoc(repairs: seq<GridRect>, last: GridRect)
    ensures forall row, col :: Covered(repairs + [last], row, col) <==> Covered(repairs, row, col) || Covers(last, row, col)
  {
    forall row, col
      ensures Covered(repairs + [last], row, col) <==> Covered(repairs, row, col) || Covers(last, row, col)
    {
      if Covered(repairs, row, col) {
        var k :| 0 <= k < |repairs| && Covers(repairs[k], row, col);
        assert Covers((repairs + [last])[k], row, col);
      }
      if Covers(last, row, col) {
        assert Covers((repairs + [last])[|repairs|], row, col);
      }
    }
  }

  /** Every pending region is a nonempty rectangle inside the screen. */
  predicate AllExact(repairs: seq<GridRect>, g: Geometry) {
    forall k :: 0 <= k < |repairs| ==> ExactRegion(repairs[k], g).Some?
  }

  /** One row of an exact region, moved to another row of the screen, is exact. */
  lemma MovedRowIsExact(repair: GridRect, moved: nat, g: Geometry)
    requires ExactRegion(repair, g).Some? && moved < g.rows && moved < MAX_I32
    ensures ExactRegion(GridRect(GridPoint(moved, repair.origin.col), 1, repair.cols), g).Some?
  {
  }

  lemma NothingIsExact(g: Geometry)
    ensures AllExact([], g)
  {
  }

  /** One pending rectangle, row by row, moved with the rows it lies in. */
  method ShiftRepair(repair: GridRect, top: nat, bottom: nat, count: nat, upward: bool, ghost g: Geometry)
    returns (shifted: seq<GridRect>)
    ensures ExactRegion(repair, g).Some? && bottom <= g.rows && bottom <= MAX_I32 ==> AllExact(shifted, g)
    ensures forall row: nat, col :: Covered(shifted, row, col) <==>
              exists r0: nat :: Covers(repair, r0, col) && MovedRow(r0, top, bottom, count, upward) == Some(row)
  {
    shifted := [];
    for offset := 0 to repair.rows
      invariant ExactRegion(repair, g).Some? && bottom <= g.rows && bottom <= MAX_I32 ==> AllExact(shifted, g)
      invariant forall row: nat, col :: Covered(shifted, row, col) <==>
                  exists r0: nat :: r0 < repair.origin.row + offset && Covers(repair, r0, col)
                                    && MovedRow(r0, top, bottom, count, upward) == Some(row)
    {
      var row := repair.origin.row + offset;
      if row >= 0 {
        match MovedRow(row, top, bottom, count, upward)
        case None =>
        case Some(moved) =>
          var rect := GridRect(GridPoint(moved, repair.origin.col), 1, repair.cols);
          CoveredSnoc(shifted, rect);
          if ExactRegion(repair, g).Some? && bottom <= g.rows && bottom <= MAX_I32 {
            MovedRowIsExact(repair, moved, g);
          }
          shifted := shifted + [rect];
      }
    }
  }

  method ShiftRepairRows(pending: seq<GridRect>, top: nat, bottom: nat, count: nat, upward: bool, ghost g: Geometry)
    returns (repairs: seq<GridRect>)
    ensures AllExact(pending, g) && bottom <= g.rows && bottom <= MAX_I32 ==> AllExact(repairs, g)
    ensures forall row: nat, col :: Covered(repairs, row, col) <==>
              exists r0: nat :: Covered(pending, r0, col) && MovedRow(r0, top, bottom, count, upward) == Some(row)
  {
    repairs := [];
    for k := 0 to |pending|
      invariant AllExact(pending, g) && bottom <= g.rows && bottom <= MAX_I32 ==> AllExact(repairs, g)
      invariant forall row: nat, col :: Covered(repairs, row, col) <==>
                  exists r0: nat :: Covered(pending[..k], r0, col) && MovedRow(r0, top, bottom, count, upward) == Some(row)
    {
      var shifted := ShiftRepair(pending[k], top, bottom, count, upward, g);
      assert pending[..k + 1] == pending[..k] + [pending[k]];
      CoveredSnoc(pending[..k], pending[k]);
      CoveredAppend(repairs, shifted);
      repairs := repairs + shifted;
    }
    assert pending[..|pending|] == pending;
  }

  lemma CoveredAppend(a: seq<GridRect>, b: seq<GridRect>)
    ensures forall row, col :: Covered(a + b, row, col) <==> Covered(a, row, col) || Covered(b, row, col)
  {
    forall row, col
      ensures Covered(a + b, row, col) <==> Covered(a, row, col) || Covered(b, row, col)
    {
      if Covered(a, row, col) {
        var k :| 0 <= k < |a| && Covers(a[k], row, col);
        assert Covers((a + b)[k], row, col);
      }
      if Covered(b, row, col) {
        var k :| 0 <= k < |b| && Covers(b[k], row, col);
        assert Covers((a + b)[|a| + k], row, col);
      }
    }
  }

  /** Rotating the rows of the region and blanking those that came round is the shift. */
  lemma RotationIsEffect(rows: seq<Row>, op: SceneOperation, g: Geometry, rotated: seq<Row>, blanked: seq<Row>)
    requires HasShape(rows, g) && op.IsVertical() && Accepts(rows, op, g)
    requires var span := ExactRegion(op.Region(), g).value;
      var n := Distance(op, span);
      var first := if op.MovesUp() then span.bottom - n else span.top;
      && rotated == SemanticReplay.Rotate(rows, span.top, span.bottom, n, op.MovesUp())
      && |blanked| == |rows|
      && forall i :: 0 <= i < |rows| ==> blanked[i] == if first <= i < first + n then BlankRow(g.cols) else rotated[i]
    ensures blanked == Effect(rows, op, g)
  {
    hide BlankRow;
    var effect := Effect(rows, op, g);
    forall i | 0 <= i < |rows|
      ensures blanked[i] == effect[i]
    {
    }
  }

  lemma MoveRepairsFollow(before: seq<GridRect>, op: SceneOperation, g: Geometry, shifted: seq<GridRect>, rect: GridRect)
    requires op.IsVertical() && ExactRegion(op.Region(), g).Some?
    requires var span := ExactRegion(op.Region(), g).value;
      var n := Distance(op, span);
      && n <= span.bottom
      && rect == GridRect(GridPoint(if op.MovesUp() then span.bottom - n else span.top, 0), n, g.cols)
      && forall row: nat, col :: Covered(shifted, row, col) <==>
           exists r0: nat :: Covered(before, r0, col) && MovedRow(r0, span.top, span.bottom, n, op.MovesUp()) == Some(row)
    ensures RepairsFollow(before, op, g, shifted + [rect])
  {
    hide Covered, MovedRow, ExactRegion;
    CoveredSnoc(shifted, rect);
  }

  /** The part of the region an edit introduces, as one rectangle. */
  function IntroducedRect(op: SceneOperation, span: Span, n: nat): GridRect
    requires n <= span.right
  {
    if op.InsertChars? then GridRect(GridPoint(span.top, span.left), 1, n)
    else if op.DeleteChars? then GridRect(GridPoint(span.top, span.right - n), 1, n)
    else op.Region()
  }

  lemma EditRepairsFollow(before: seq<GridRect>, op: SceneOperation, g: Geometry, rect: GridRect)
    requires !op.IsVertical() && ExactRegion(op.Region(), g).Some?
    requires var span := ExactRegion(op.Region(), g).value;
      && Distance(op, span) <= span.right
      && rect == IntroducedRect(op, span, Distance(op, span))
    ensures RepairsFollow(before, op, g, before + [rect])
  {
    hide Covered, ExactRegion;
    CoveredSnoc(before, rect);
  }

  /** The cells an operation introduces form an exact region. */
  lemma IntroducedIsExact(op: SceneOperation, g: Geometry)
    requires ExactRegion(op.Region(), g).Some?
    requires var span := ExactRegion(op.Region(), g).value;
      Distance(op, span) > 0 && (op.IsVertical() ==> span.left == 0 && span.right == g.cols)
    ensures var span := ExactRegion(op.Region(), g).value;
      var n := Distance(op, span);
      ExactRegion(if op.IsVertical() then GridRect(GridPoint(if op.MovesUp() then span.bottom - n else span.top, 0), n, g.cols)
                  else IntroducedRect(op, span, n), g).Some?
  {
  }

  lemma AcceptedEditFits(rows: seq<Row>, op: SceneOperation, g: Geometry)
    requires HasShape(rows, g) && !op.IsVertical() && Accepts(rows, op, g)
    ensures ExactRegion(op.Region(), g).Some?
    ensures var span := ExactRegion(op.Region(), g).value;
      && span.top < |rows| && span.left + Distance(op, span) <= span.right <= g.cols == |rows[span.top].cells|
      && Distance(op, span) > 0
      && (op.InsertChars? || op.DeleteChars? ==> span.right == g.cols)
      && (op.EraseChars? ==> Distance(op, span) == span.right - span.left)
      && (op.WriteRun? ==> span.left + |op.text| == span.right)
  {
  }

  /** Cutting the row apart and joining it again around the introduced cells is the meaning of the edit. */
  lemma EditIsEffect(rows: seq<Row>, op: SceneOperation, g: Geometry, edited: Cells)
    requires HasShape(rows, g) && !op.IsVertical() && Accepts(rows, op, g)
    requires ExactRegion(op.Region(), g).Some?
    requires var span := ExactRegion(op.Region(), g).value;
      var n := Distance(op, span);
      && span.top < |rows| && span.left + n <= span.right <= |rows[span.top].cells|
      && var cells := rows[span.top].cells;
         edited == if op.InsertChars? then cells[..span.left] + BlankCells(n) + cells[span.left..|cells| - n]
                   else if op.DeleteChars? then cells[..span.left] + cells[span.left + n..] + BlankCells(n)
                   else if op.EraseChars? then cells[..span.left] + BlankCells(n) + cells[span.right..]
                   else cells[..span.left] + TextCells(op.text) + cells[span.right..]
    ensures var top := ExactRegion(op.Region(), g).value.top;
            rows[top := rows[top].(cells := edited)] == Effect(rows, op, g)
  {
    hide ExactRegion, HasShape, Accepts, Distance, BlankCells, TextCells;
    AcceptedEditFits(rows, op, g);
    PieceLengths(Distance(op, ExactRegion(op.Region(), g).value), if op.WriteRun? then op.text else "");
  }

  lemma PieceLengths(n: nat, text: string)
    ensures |BlankCells(n)| == n && |TextCells(text)| == |text|
  {
  }

  // ----- the replay -----

  /** Modes and pen are put into a known state before the first operation. */
  function Prologue(): seq<Command> {
    [ResetOriginMode, ResetMargins, ResetStyle, SetLink(None)]
  }

  method ClearIntroducedRows(from: nat, until: nat) returns (commands: seq<Command>)
    requires from <= until
    ensures commands == ClearRows(from, until)
  {
    commands := [];
    for row := from to until
      invariant commands + ClearRows(row, until) == ClearRows(from, until)
    {
      assert commands + ([Cup(row, 0), EraseLine] + ClearRows(row + 1, until))
          == commands + [Cup(row, 0), EraseLine] + ClearRows(row + 1, until);
      commands := commands + [Cup(row, 0), EraseLine];
    }
  }

  method PrintsOf(text: string) returns (commands: seq<Command>)
    ensures commands == Prints(text)
  {
    commands := [];
    for k := 0 to |text|
      invariant commands + Prints(text[k..]) == Prints(text)
    {
      assert text[k..][1..] == text[k + 1..];
      assert commands + ([Print([text[k]], 1)] + Prints(text[k + 1..])) == commands + [Print([text[k]], 1)] + Prints(text[k + 1..]);
      commands := commands + [Print([text[k]], 1)];
    }
  }

  /**
    * The renderer's working copy of the screen, the commands emitted so far, and the regions whose
    * looks still have to be taken from the intended grid.
    */
  class SemanticReplay {
    const g: Geometry
    var rows: seq<Row>
    var body: seq<Command>
    var repairs: seq<GridRect>

    constructor (g: Geometry, presented: seq<Row>)
      ensures this.g == g && rows == presented && body == Prologue() && repairs == []
    {
      this.g := g;
      rows, body, repairs := presented, Prologue(), [];
    }

    /** Scrolling and line editing: rows rotate inside the region and the introduced ones are blanked. */
    method MoveRows(op: SceneOperation, span: Span, n: nat)
      requires HasShape(rows, g) && op.IsVertical() && ExactRegion(op.Region(), g) == Some(span)
      requires Accepts(rows, op, g) && n == Distance(op, span)
      modifies this
      ensures rows == Effect(old(rows), op, g)
      ensures body == old(body) + VerticalCommands(op, span, n)
      ensures RepairsFollow(old(repairs), op, g, repairs)
      ensures AllExact(old(repairs), g) ==> AllExact(repairs, g)
    {
      hide Covered, Covers, VerticalCommands, RepairsFollow, Effect;
      var shifted := ShiftRepairRows(repairs, span.top, span.bottom, n, op.MovesUp(), g);
      var commands := MoveCommands(op, span, n);
      var first := if op.MovesUp() then span.bottom - n else span.top;
      var rotated := Rotate(rows, span.top, span.bottom, n, op.MovesUp());
      var blanked := BlankRows(rotated, first, n, g.cols);
      var rect := GridRect(GridPoint(first, 0), n, g.cols);
      RotationIsEffect(rows, op, g, rotated, blanked);
      MoveRepairsFollow(repairs, op, g, shifted, rect);
      IntroducedIsExact(op, g);
      rows, body, repairs := blanked, body + commands, shifted + [rect];
    }

    static method MoveCommands(op: SceneOperation, span: Span, n: nat) returns (commands: seq<Command>)
      requires op.IsVertical() && 0 < n <= span.bottom - span.top
      ensures commands == VerticalCommands(op, span, n)
    {
      commands := [SetRegion(span.top, span.bottom)];
      if op.EditsLines() {
        commands := commands + [Cup(span.top, 0)] + [if op.DeleteLines? then DeleteLinesBy(n) else InsertLinesBy(n)];
      } else {
        commands := commands + [if op.ScrollUp? then ScrollUpBy(n) else ScrollDownBy(n)];
      }
      commands := commands + [ResetRegion];
      if !op.EditsLines() {
        var first := if op.MovesUp() then span.bottom - n else span.top;
        var clear := ClearIntroducedRows(first, first + n);
        commands := commands + clear;
      }
    }

    /** Rows [top, bottom) rotated by `n`, as `rotate_left` and `rotate_right` do. */
    static function Rotate(rows: seq<Row>, top: nat, bottom: nat, n: nat, upward: bool): (r: seq<Row>)
      requires top <= bottom <= |rows| && n <= bottom - top
      ensures |r| == |rows|
    {
      if upward then rows[..top] + rows[top + n..bottom] + rows[top..top + n] + rows[bottom..]
      else rows[..top] + rows[bottom - n..bottom] + rows[top..bottom - n] + rows[bottom..]
    }

    static method BlankRows(rows: seq<Row>, first: nat, n: nat, cols: nat) returns (blanked: seq<Row>)
      requires first + n <= |rows|
      ensures |blanked| == |rows|
      ensures forall i :: 0 <= i < |rows| ==> blanked[i] == if first <= i < first + n then BlankRow(cols) else rows[i]
    {
      blanked := rows;
      for k := 0 to n
        invariant |blanked| == |rows|
        invariant forall i :: 0 <= i < |rows| ==> blanked[i] == if first <= i < first + k then BlankRow(cols) else rows[i]
      {
        blanked := blanked[first + k := BlankRow(cols)];
      }
    }

    /** Character editing, erasing and writing change the cells of one row. */
    method EditCells(op: SceneOperation, span: Span, n: nat)
      requires HasShape(rows, g) && !op.IsVertical() && ExactRegion(op.Region(), g) == Some(span)
      requires Accepts(rows, op, g) && n == Distance(op, span)
      modifies this
      ensures rows == Effect(old(rows), op, g)
      ensures body == old(body) + Commands(op, g)
      ensures RepairsFollow(old(repairs), op, g, repairs)
      ensures AllExact(old(repairs), g) ==> AllExact(repairs, g)
    {
      hide RepairsFollow, Effect, Accepts, Covered, TextCells, BlankCells;
      AcceptedEditFits(rows, op, g);
      var cells := rows[span.top].cells;
      var edited, commands, rect := cells, [], op.Region();
      match op {
      case InsertChars(_, _) =>
        edited := cells[..span.left] + BlankCells(n) + cells[span.left..|cells| - n];
        commands := [InsertCharsBy(n)];
        rect := GridRect(GridPoint(span.top, span.left), 1, n);
      case DeleteChars(_, _) =>
        edited := cells[..span.left] + cells[span.left + n..] + BlankCells(n);
        commands := [DeleteCharsBy(n)];
        rect := GridRect(GridPoint(span.top, span.right - n), 1, n);
      case EraseChars(_) =>
        edited := cells[..span.left] + BlankCells(n) + cells[span.right..];
        commands := [EraseCharsBy(n)];
      case WriteRun(_, text) =>
        edited := cells[..span.left] + TextCells(text) + cells[span.right..];
        commands := PrintsOf(text);
      }
      EditRepairsFollow(repairs, op, g, rect);
      IntroducedIsExact(op, g);
      EditIsEffect(rows, op, g, edited);
      rows, repairs := rows[span.top := rows[span.top].(cells := edited)], repairs + [rect];
      body := body + ([Cup(span.top, span.left)] + commands);
    }

    /**
      * One operation: refused without a trace, or applied to the working rows, emitted, and its
      * introduced cells queued for repair.
      */
    method ApplySceneOperation(op: SceneOperation) returns (accepted: bool)
      requires HasShape(rows, g)
      modifies this
      ensures accepted == Accepts(old(rows), op, g)
      ensures accepted ==> rows == Effect(old(rows), op, g) && body == old(body) + Commands(op, g)
      ensures accepted ==> RepairsFollow(old(repairs), op, g, repairs)
      ensures accepted && AllExact(old(repairs), g) ==> AllExact(repairs, g)
      ensures !accepted ==> rows == old(rows) && body == old(body) && repairs == old(repairs)
    {
      match ExactRegion(op.Region(), g)
      case None =>
        accepted := false;
      case Some(span) =>
        accepted := IsReplayable(op, span);
        if accepted {
          if op.IsVertical() {
            MoveRows(op, span, Distance(op, span));
          } else {
            EditCells(op, span, Distance(op, span));
          }
        }
    }

    method IsReplayable(op: SceneOperation, span: Span) returns (ok: bool)
      requires HasShape(rows, g) && ExactRegion(op.Region(), g) == Some(span)
      ensures ok == Accepts(rows, op, g)
    {
      if op.IsVertical() {
        if span.left != 0 || span.right != g.cols || Distance(op, span) == 0 {
          return false;
        }
        ok := !op.EditsLines() || forall i :: span.top <= i < span.bottom ==> !rows[i].wrapped;
      } else if op.WriteRun? {
        ok := IsPrintableAscii(op.text);
      } else if span.bottom != span.top + 1 || rows[span.top].wrapped {
        ok := false;
      } else if op.EraseChars? {
        ok := true;
      } else {
        ok := span.right == g.cols && Distance(op, span) > 0
              && forall c :: span.left <= c < span.right ==> !CellIsWide(rows[span.top].cells[c]);
      }
    }

    /**
      * Repaints every region queued for repair from the intended grid. The working rows stay what the
      * emitted commands show; a region off the screen or a soft-wrap mark that differs is refused.
      */
    method RepairRegions(intended: seq<Row>) returns (ok: bool, ghost painted: seq<Command>)
      requires HasShape(rows, g) && HasShape(intended, g) && AllWellFormed(intended)
      modifies this
      ensures repairs == old(repairs) && body == old(body) + painted
      ensures AllExact(repairs, g) && RowsPhysicallyMatch(old(rows), intended) ==> ok && painted == [] && rows == old(rows)
      ensures OldOrIntended(old(rows), intended, rows)
      ensures ok ==> ChangesNearRegions(old(rows), intended, rows, repairs, g)
      ensures HasShape(rows, g) && Redraws(painted, old(rows), rows)
      ensures ok <==> AllExact(repairs, g)
                      && forall r :: 0 <= r < g.rows && RowDamaged(repairs, g, r) ==> old(rows)[r].wrapped == intended[r].wrapped
      ensures ok ==> forall r, c :: 0 <= r < g.rows && 0 <= c < g.cols && Covered(repairs, r, c) ==>
                CellsPhysicallyMatch(rows[r].cells[c], intended[r].cells[c])
    {
      hide Repaints, Redraws, RowDamaged, CandidatesCover, Covered, ExactRegion, ClipGridRect, WellFormed, OldOrIntended,
           EndsAreDamaged, ChangesNearRegions, TouchesOnly, PaintedTo, PaintedWithin, Repainted;
      painted := [];
      RedrawsNothing(rows);
      ghost var before := rows;
      NothingChanged(rows, intended, g);
      if !AllExact(repairs, g) {
        return false, painted;
      }
      var candidates := DamageCandidates(repairs, g);
      var working, commands := rows, body;
      NothingPainted(rows, intended, candidates);
      for r := 0 to g.rows
        invariant HasShape(working, g) && PaintedTo(working, before, intended, candidates, r)
        invariant Redraws(painted, before, working) && commands == body + painted
        invariant forall k :: 0 <= k < r && candidates[k].Some? ==> before[k].wrapped == intended[k].wrapped
        invariant RowsPhysicallyMatch(before, intended) ==> painted == [] && working == before
        invariant PaintedWithin(working, before, intended, candidates, r)
        invariant rows == before && body == old(body) && repairs == old(repairs)
      {
        RowNotYetPainted(working, before, intended, candidates, r);
        if candidates[r].Some? {
          if working[r].wrapped != intended[r].wrapped {
            rows, body := working, commands;
            PaintedIsOldOrIntended(working, before, intended, candidates, r, g);
            return false, painted;
          }
          var run, cells := PaintRow(r, candidates[r].value.start, candidates[r].value.end, working[r].cells, intended[r].cells);
          RedrawsThen(painted, run, r, before, working, cells);
          OneRowPainted(working, before, intended, candidates, r, cells, g);
          painted := painted + run;
          commands := commands + run;
          working := WithRowCells(working, r, cells);
        }
      }
      rows, body := working, commands;
      ok := true;
      PaintedIsOldOrIntended(working, before, intended, candidates, g.rows, g);
      RepairedEverywhere(working, before, intended, candidates, repairs, g);
      PaintedNearRegions(working, before, intended, candidates, repairs, g);
    }
  }

  lemma RepairedEverywhere(
    rows: seq<Row>, before: seq<Row>, intended: seq<Row>, candidates: Candidates, repairs: seq<GridRect>, g: Geometry)
    requires HasShape(before, g) && HasShape(intended, g) && HasShape(rows, g)
    requires PaintedTo(rows, before, intended, candidates, g.rows) && AllExact(repairs, g)
    requires forall k :: 0 <= k < |repairs| && ClipGridRect(repairs[k], g).Some? ==>
               CandidatesCover(candidates, SpanOf(ClipGridRect(repairs[k], g).value))
    ensures forall r, c :: 0 <= r < g.rows && 0 <= c < g.cols && Covered(repairs, r, c) ==>
              CellsPhysicallyMatch(rows[r].cells[c], intended[r].cells[c])
  {
    forall r, c | 0 <= r < g.rows && 0 <= c < g.cols && Covered(repairs, r, c)
      ensures CellsPhysicallyMatch(rows[r].cells[c], intended[r].cells[c])
    {
      var k :| 0 <= k < |repairs| && Covers(repairs[k], r, c);
      assert ExactRegion(repairs[k], g).Some?;
      assert CandidatesCover(candidates, SpanOf(repairs[k]));
    }
  }

  // ----- the batch -----

  datatype ScenePane = ScenePane(id: nat, origin: GridPoint, geometry: Geometry)

  datatype SceneOutline = SceneOutline(panes: seq<ScenePane>, overlays: nat, images: nat)

  /** One pane that covers the whole scene, owns the operations and has nothing over it. */
  predicate OwnsScene(scene: SceneOutline, owner: nat, g: Geometry) {
    && |scene.panes| == 1 && scene.overlays == 0 && scene.images == 0
    && scene.panes[0].id == owner && scene.panes[0].origin == GridPoint(0, 0) && scene.panes[0].geometry == g
  }

  /** The grid after all operations; nothing when one of them is refused. */
  function Replayed(rows: seq<Row>, operations: seq<SceneOperation>, g: Geometry): (r: Option<seq<Row>>)
    requires HasShape(rows, g)
    ensures r.Some? ==> HasShape(r.value, g)
    decreases |operations|
  {
    if operations == [] then Some(rows)
    else if !Accepts(rows, operations[0], g) then None
    else Replayed(Effect(rows, operations[0], g), operations[1..], g)
  }

  /** The commands emitted for operations that are all accepted. */
  function ReplayCommands(rows: seq<Row>, operations: seq<SceneOperation>, g: Geometry): seq<Command>
    requires HasShape(rows, g) && Replayed(rows, operations, g).Some?
    decreases |operations|
  {
    if operations == [] then []
    else Commands(operations[0], g) + ReplayCommands(Effect(rows, operations[0], g), operations[1..], g)
  }

  /** What is sent when the replay alone reaches the intended grid. */
  function UnpaintedBatch(rows: seq<Row>, operations: seq<SceneOperation>, cursor: Cursor, g: Geometry): seq<Command>
    requires HasShape(rows, g) && Replayed(rows, operations, g).Some?
  {
    Prologue() + ReplayCommands(rows, operations, g) + WriteCursor(cursor)
  }

  // ----- pending repairs over several operations -----

  predicate AllExactRegions(operations: seq<SceneOperation>, g: Geometry) {
    forall k :: 0 <= k < |operations| ==> ExactRegion(operations[k].Region(), g).Some?
  }

  /**
    * The cell was introduced by one of the operations and has moved with its row since: nobody but the
    * intended grid knows what it looks like.
    */
  ghost predicate PendingRepair(operations: seq<SceneOperation>, g: Geometry, row: int, col: int)
    requires AllExactRegions(operations, g)
    decreases |operations|
  {
    operations != [] &&
    var front, op := operations[..|operations| - 1], operations[|operations| - 1];
    var span := ExactRegion(op.Region(), g).value;
    || Introduces(op, g, row, col)
    || if op.IsVertical() then
         exists r0: nat :: PendingRepair(front, g, r0, col)
                           && MovedRow(r0, span.top, span.bottom, Distance(op, span), op.MovesUp()) == Some(row)
       else PendingRepair(front, g, row, col)
  }

  /** The queued repairs are exactly the pending cells. */
  ghost predicate RepairsArePending(repairs: seq<GridRect>, operations: seq<SceneOperation>, g: Geometry)
    requires AllExactRegions(operations, g)
  {
    forall row: nat, col: nat :: Covered(repairs, row, col) <==> PendingRepair(operations, g, row, col)
  }

  lemma NothingIsPending(g: Geometry)
    ensures AllExactRegions([], g) && RepairsArePending([], [], g)
  {
  }

  lemma PendingStep(before: seq<GridRect>, after: seq<GridRect>, operations: seq<SceneOperation>, op: SceneOperation, g: Geometry)
    requires AllExactRegions(operations, g) && ExactRegion(op.Region(), g).Some?
    requires RepairsArePending(before, operations, g) && RepairsFollow(before, op, g, after)
    ensures AllExactRegions(operations + [op], g) && RepairsArePending(after, operations + [op], g)
  {
    hide Covered, MovedRow, ExactRegion, Introduces;
    var all := operations + [op];
    assert all[..|all| - 1] == operations && all[|all| - 1] == op;
    forall row: nat, col: nat
      ensures Covered(after, row, col) <==> PendingRepair(all, g, row, col)
    {
      assert WasCovered(before, op, g, row, col) <==>
             (var span := ExactRegion(op.Region(), g).value;
              if op.IsVertical() then
                exists r0: nat :: PendingRepair(operations, g, r0, col)
                                  && MovedRow(r0, span.top, span.bottom, Distance(op, span), op.MovesUp()) == Some(row)
              else PendingRepair(operations, g, row, col)) by {
        PendingWas(before, operations, op, g, row, col);
      }
    }
  }

  lemma PendingWas(before: seq<GridRect>, operations: seq<SceneOperation>, op: SceneOperation, g: Geometry, row: nat, col: nat)
    requires AllExactRegions(operations, g) && ExactRegion(op.Region(), g).Some?
    requires RepairsArePending(before, operations, g)
    ensures WasCovered(before, op, g, row, col) <==>
            var span := ExactRegion(op.Region(), g).value;
            if op.IsVertical() then
              exists r0: nat :: PendingRepair(operations, g, r0, col)
                                && MovedRow(r0, span.top, span.bottom, Distance(op, span), op.MovesUp()) == Some(row)
            else PendingRepair(operations, g, row, col)
  {
    hide Covered, MovedRow, ExactRegion, PendingRepair;
  }

  /**
    * The intended grid is within reach of the replay: it has the same soft-wrap marks, and looks
    * different only where a repair is pending.
    */
  ghost predicate DiffersOnlyWherePending(rows: seq<Row>, intended: seq<Row>, operations: seq<SceneOperation>, g: Geometry)
    requires HasShape(rows, g) && HasShape(intended, g) && AllExactRegions(operations, g)
  {
    && (forall r :: 0 <= r < g.rows ==> rows[r].wrapped == intended[r].wrapped)
    && forall r: nat, c: nat :: r < g.rows && c < g.cols && !CellsPhysicallyMatch(rows[r].cells[c], intended[r].cells[c]) ==>
         PendingRepair(operations, g, r, c)
  }

  /** In the row, a repair is pending at or before column `c` and one at or behind it. */
  ghost predicate BetweenPending(operations: seq<SceneOperation>, g: Geometry, r: int, c: int)
    requires AllExactRegions(operations, g)
  {
    (exists left: nat :: left <= c && PendingRepair(operations, g, r, left))
    && exists right: nat :: c <= right && PendingRepair(operations, g, r, right)
  }

  /**
    * How far repairing can reach: the marks must agree, a row that looks different must have a pending
    * cell, and in a row of whole characters each different cell lies between pending ones or is part of
    * a wide character.
    */
  ghost predicate DiffersNearPending(rows: seq<Row>, intended: seq<Row>, operations: seq<SceneOperation>, g: Geometry)
    requires HasShape(rows, g) && HasShape(intended, g) && AllExactRegions(operations, g)
  {
    && (forall r :: 0 <= r < g.rows ==> rows[r].wrapped == intended[r].wrapped)
    && forall r: nat, c: nat :: r < g.rows && c < g.cols && !CellsPhysicallyMatch(rows[r].cells[c], intended[r].cells[c]) ==>
         && (exists left: nat :: PendingRepair(operations, g, r, left))
         && (WellFormed(rows[r].cells) ==>
               BetweenPending(operations, g, r, c) || WideInEither(rows[r].cells, intended[r].cells, c))
  }

  lemma MarksAgree(rows: seq<Row>, intended: seq<Row>, operations: seq<SceneOperation>, g: Geometry)
    requires HasShape(rows, g) && HasShape(intended, g) && AllExactRegions(operations, g)
    requires DiffersOnlyWherePending(rows, intended, operations, g)
    ensures forall r :: 0 <= r < g.rows ==> rows[r].wrapped == intended[r].wrapped
  {
  }

  /** Repairing reaches an intended grid that differs only where repairs are pending. */
  lemma RepairingReaches(working: seq<Row>, rows: seq<Row>, intended: seq<Row>, repairs: seq<GridRect>,
                         operations: seq<SceneOperation>, g: Geometry)
    requires HasShape(working, g) && HasShape(rows, g) && HasShape(intended, g) && AllExactRegions(operations, g)
    requires RepairsArePending(repairs, operations, g) && OldOrIntended(working, intended, rows)
    requires forall r, c :: 0 <= r < g.rows && 0 <= c < g.cols && Covered(repairs, r, c) ==>
               CellsPhysicallyMatch(rows[r].cells[c], intended[r].cells[c])
    requires DiffersOnlyWherePending(working, intended, operations, g)
    ensures RowsPhysicallyMatch(rows, intended)
  {
    hide Covered, PendingRepair;
    forall r: nat, c: nat | r < g.rows && c < g.cols
      ensures CellsPhysicallyMatch(rows[r].cells[c], intended[r].cells[c])
    {
      if !CellsPhysicallyMatch(working[r].cells[c], intended[r].cells[c]) {
        assert Covered(repairs, r, c);
      }
    }
  }

  /** What was reached differed only near pending repairs. */
  lemma ReachedWasNear(working: seq<Row>, rows: seq<Row>, intended: seq<Row>, repairs: seq<GridRect>,
                       operations: seq<SceneOperation>, g: Geometry)
    requires HasShape(working, g) && HasShape(rows, g) && HasShape(intended, g) && AllExactRegions(operations, g)
    requires RepairsArePending(repairs, operations, g) && OldOrIntended(working, intended, rows) && AllExact(repairs, g)
    requires ChangesNearRegions(working, intended, rows, repairs, g) && RowsPhysicallyMatch(rows, intended)
    ensures DiffersNearPending(working, intended, operations, g)
  {
    hide Covered, PendingRepair, WellFormed, WideInEither;
    forall r: nat, c: nat | r < g.rows && c < g.cols && !CellsPhysicallyMatch(working[r].cells[c], intended[r].cells[c])
      ensures exists left: nat :: PendingRepair(operations, g, r, left)
      ensures WellFormed(working[r].cells) ==>
                BetweenPending(operations, g, r, c) || WideInEither(working[r].cells, intended[r].cells, c)
    {
      assert rows[r].cells[c] != working[r].cells[c];
      var left :| Covered(repairs, r, left);
      CoveredIsOnScreen(repairs, g, r, left);
      assert PendingRepair(operations, g, r, left);
      if BetweenRegions(repairs, r, c) {
        var first :| first <= c && Covered(repairs, r, first);
        var second :| c <= second && Covered(repairs, r, second);
        CoveredIsOnScreen(repairs, g, r, first);
        assert PendingRepair(operations, g, r, first) && PendingRepair(operations, g, r, second);
      }
    }
  }

  lemma CoveredIsOnScreen(repairs: seq<GridRect>, g: Geometry, row: int, col: int)
    requires AllExact(repairs, g) && Covered(repairs, row, col)
    ensures 0 <= row && 0 <= col
  {
    var k :| 0 <= k < |repairs| && Covers(repairs[k], row, col);
    assert ExactRegion(repairs[k], g).Some?;
  }

  lemma MatchIsSymmetric(a: seq<Row>, b: seq<Row>)
    requires RowsPhysicallyMatch(a, b)
    ensures RowsPhysicallyMatch(b, a)
  {
  }

  lemma CanonsMatch(a: Cell, b: Cell)
    ensures Canon(a) == Canon(b) <==> CellsPhysicallyMatch(a, b)
  {
  }

  /** Two grids match physically exactly when no terminal can show one of them and not the other. */
  lemma MatchingIsIndistinguishable(a: seq<Row>, b: seq<Row>, g: Geometry)
    requires HasShape(a, g) && HasShape(b, g) && AllWellFormed(a) && AllWellFormed(b) && g.rows > 0 && g.cols > 0
    ensures RowsPhysicallyMatch(a, b) <==> forall vt :: ValidVt(vt) ==> (Shows(vt, a) <==> Shows(vt, b))
  {
    if RowsPhysicallyMatch(a, b) {
      MatchIsSymmetric(a, b);
      forall vt | ValidVt(vt)
        ensures Shows(vt, a) <==> Shows(vt, b)
      {
        if Shows(vt, a) {
          ShownByLooks(vt, a, b);
        }
        if Shows(vt, b) {
          ShownByLooks(vt, b, a);
        }
      }
    }
    if forall vt :: ValidVt(vt) ==> (Shows(vt, a) <==> Shows(vt, b)) {
      var vt := ScreenOf(a, g);
      ScreenShows(a, g);
      assert Shows(vt, b);
      forall i, c | 0 <= i < g.rows && 0 <= c < g.cols
        ensures a[i].wrapped == b[i].wrapped && CellsPhysicallyMatch(a[i].cells[c], b[i].cells[c])
      {
        assert ShownRow(a[i], vt.filler) == vt.rows[i] == ShownRow(b[i], vt.filler);
        assert Clean(a[i].cells, vt.filler)[c] == Clean(b[i].cells, vt.filler)[c];
        assert !IsOrphan(a[i].cells, c) && !IsOrphan(b[i].cells, c);
        CanonsMatch(a[i].cells[c], b[i].cells[c]);
      }
      forall i | 0 <= i < g.rows
        ensures a[i].wrapped == b[i].wrapped
      {
        assert ShownRow(a[i], vt.filler) == vt.rows[i] == ShownRow(b[i], vt.filler);
      }
    }
  }

  datatype SemanticAttempt = Batch(commands: seq<Command>) | NotApplicable | Inconsistent

  ghost predicate AllHonoured(operations: seq<SceneOperation>, g: Geometry) {
    forall k :: 0 <= k < |operations| ==> ExactRegion(operations[k].Region(), g).Some? ==> Honoured(operations[k], g)
  }

  /**
    * The fast path. It applies exactly when one pane owns the scene and every operation is accepted
    * in turn. Whenever it returns a batch whose vertical operations the terminal honours, every
    * terminal that shows the presented rows, in whatever mode and pen it was left, shows the
    * intended rows, with their wide characters and soft-wrap marks, and the intended cursor.
    */
  method SemanticBatch(scene: SceneOutline, owner: nat, operations: seq<SceneOperation>, presented: Screen, intended: Screen, g: Geometry)
    returns (attempt: SemanticAttempt)
    requires HasShape(presented.rows, g) && HasShape(intended.rows, g) && AllWellFormed(intended.rows)
    ensures attempt.NotApplicable? <==>
              || operations == [] || |scene.panes| != 1 || scene.overlays != 0 || scene.images != 0
              || scene.panes[0] != ScenePane(owner, GridPoint(0, 0), g)
              || Replayed(presented.rows, operations, g).None?
    ensures attempt.Batch? && AllHonoured(operations, g) ==>
              forall vt :: ValidVt(vt) && FullRegion(vt) && Shows(vt, presented.rows) ==>
                ShowsScreen(Play(vt, attempt.commands), intended)
    ensures !attempt.NotApplicable? && RowsPhysicallyMatch(Replayed(presented.rows, operations, g).value, intended.rows) ==>
              attempt == Batch(UnpaintedBatch(presented.rows, operations, intended.cursor, g))
    ensures !attempt.NotApplicable? ==>
              var replayed := Replayed(presented.rows, operations, g).value;
              && AllExactRegions(operations, g)
              && (DiffersOnlyWherePending(replayed, intended.rows, operations, g) ==> attempt.Batch?)
              && (attempt.Batch? ==> DiffersNearPending(replayed, intended.rows, operations, g))
  {
    hide Simulates, Redraws, Accepts, Effect, Commands, RepairsFollow, Replayed, ReplayCommands, AllExact, RowsPhysicallyMatch, ExactRegion,
         AllExactRegions, RepairsArePending, DiffersOnlyWherePending, DiffersNearPending, OldOrIntended, ChangesNearRegions, Covered,
         RowDamaged;
    if operations == [] || !OwnsScene(scene, owner, g) {
      return NotApplicable;
    }
    var replay := new SemanticReplay(g, presented.rows);
    ghost var replayed: seq<Command> := [];
    SimulatesNothing(presented.rows);
    NothingIsExact(g);
    NothingIsPending(g);
    assert operations[0..] == operations && operations[..0] == [];
    for k := 0 to |operations|
      invariant fresh(replay) && replay.g == g && HasShape(replay.rows, g)
      invariant replay.body == Prologue() + replayed
      invariant Replayed(presented.rows, operations, g) == Replayed(replay.rows, operations[k..], g)
      invariant AllExact(replay.repairs, g) && AllExactRegions(operations[..k], g)
      invariant RepairsArePending(replay.repairs, operations[..k], g)
      invariant Replayed(presented.rows, operations, g).Some? ==>
                  replayed + ReplayCommands(replay.rows, operations[k..], g) == ReplayCommands(presented.rows, operations, g)
      invariant AllHonoured(operations, g) ==> Simulates(replayed, presented.rows, replay.rows)
    {
      ghost var before, repairs := replay.rows, replay.repairs;
      var op := operations[k];
      assert operations[k..][1..] == operations[k + 1..];
      ReplayUnfolds(before, operations[k..], g);
      var accepted := replay.ApplySceneOperation(op);
      if !accepted {
        return NotApplicable;
      }
      ReplayStep(replayed, presented.rows, before, operations, k, g);
      assert operations[..k + 1] == operations[..k] + [op];
      PendingStep(repairs, replay.repairs, operations[..k], op, g);
      replayed := replayed + Commands(op, g);
    }
    assert operations[|operations|..] == [] && operations[..|operations|] == operations;
    ReplayUnfolds(replay.rows, [], g);
    ghost var working := replay.rows;
    var ok, painted := replay.RepairRegions(intended.rows);
    ghost var repaired := replay.rows;
    if DiffersOnlyWherePending(working, intended.rows, operations, g) {
      MarksAgree(working, intended.rows, operations, g);
      RepairingReaches(working, repaired, intended.rows, replay.repairs, operations, g);
    }
    if !ok || !RowsPhysicallyMatch(replay.rows, intended.rows) {
      return Inconsistent;
    }
    ReachedWasNear(working, repaired, intended.rows, replay.repairs, operations, g);
    attempt := Batch(replay.body + WriteCursor(intended.cursor));
    if AllHonoured(operations, g) {
      forall vt | ValidVt(vt) && FullRegion(vt) && Shows(vt, presented.rows)
        ensures ShowsScreen(Play(vt, attempt.commands), intended)
      {
        ReplayShows(vt, presented.rows, replayed, working, painted, replay.rows, intended);
        assert attempt.commands == Prologue() + replayed + painted + WriteCursor(intended.cursor);
      }
    }
  }

  lemma ReplayUnfolds(rows: seq<Row>, operations: seq<SceneOperation>, g: Geometry)
    requires HasShape(rows, g)
    ensures operations == [] ==> Replayed(rows, operations, g) == Some(rows) && ReplayCommands(rows, operations, g) == []
    ensures operations != [] && !Accepts(rows, operations[0], g) ==> Replayed(rows, operations, g) == None
    ensures operations != [] && Accepts(rows, operations[0], g) ==>
              var rest := Effect(rows, operations[0], g);
              && Replayed(rows, operations, g) == Replayed(rest, operations[1..], g)
              && (Replayed(rest, operations[1..], g).Some? ==>
                    ReplayCommands(rows, operations, g) == Commands(operations[0], g) + ReplayCommands(rest, operations[1..], g))
  {
  }

  lemma ReplayStep(replayed: seq<Command>, presented: seq<Row>, rows: seq<Row>, operations: seq<SceneOperation>, k: nat, g: Geometry)
    requires k < |operations| && HasShape(rows, g) && Accepts(rows, operations[k], g)
    requires AllHonoured(operations, g) ==> Simulates(replayed, presented, rows)
    ensures ExactRegion(operations[k].Region(), g).Some?
    ensures AllHonoured(operations, g) ==>
              Simulates(replayed + Commands(operations[k], g), presented, Effect(rows, operations[k], g))
  {
    if AllHonoured(operations, g) {
      OperationSimulates(rows, operations[k], g);
      SimulatesThen(replayed, Commands(operations[k], g), presented, rows, Effect(rows, operations[k], g));
    }
  }

  lemma PrologueReadies(vt: Vt, rows: seq<Row>)
    requires ValidVt(vt) && FullRegion(vt) && Shows(vt, rows)
    ensures Ready(Play(vt, Prologue())) && Shows(Play(vt, Prologue()), rows)
  {
    var normal := vt.(originMode := false, row := 0, col := 0);
    assert Prologue() == [ResetOriginMode] + [ResetMargins, ResetStyle, SetLink(None)];
    PlayCons(vt, ResetOriginMode, [ResetMargins, ResetStyle, SetLink(None)]);
    PlayThree(normal, ResetMargins, ResetStyle, SetLink(None));
  }

  lemma ReplayShows(vt: Vt, presented: seq<Row>, replayed: seq<Command>, working: seq<Row>,
                    painted: seq<Command>, rows: seq<Row>, intended: Screen)
    requires ValidVt(vt) && FullRegion(vt) && Shows(vt, presented)
    requires Simulates(replayed, presented, working) && Redraws(painted, working, rows)
    requires RowsPhysicallyMatch(rows, intended.rows)
    ensures ShowsScreen(Play(vt, Prologue() + replayed + painted + WriteCursor(intended.cursor)), intended)
  {
    hide Prologue, WriteCursor;
    PrologueReadies(vt, presented);
    var vt1 := Play(vt, Prologue());
    var vt2 := Play(vt1, replayed);
    assert Ready(vt2) && Shows(vt2, working);
    var vt3 := Play(vt2, painted);
    assert Upright(vt3) && Shows(vt3, rows);
    PlayAppend(vt, Prologue() + replayed + painted, WriteCursor(intended.cursor));
    PlayAppend(vt, Prologue() + replayed, painted);
    PlayAppend(vt, Prologue(), replayed);
    ShownByLooks(vt3, rows, intended.rows);
    CursorPlay(vt3, intended.cursor);
  }

  // ----- when a replay alone is faithful -----

  lemma UnpaintedStep(rows: seq<Row>, op: SceneOperation, cursor: Cursor, g: Geometry)
    requires HasShape(rows, g) && Accepts(rows, op, g)
    ensures Replayed(rows, [op], g) == Some(Effect(rows, op, g))
    ensures UnpaintedBatch(rows, [op], cursor, g) == Prologue() + Commands(op, g) + WriteCursor(cursor)
  {
    hide Accepts, Effect, Commands, Replayed, ReplayCommands, Prologue, WriteCursor;
    ReplayUnfolds(rows, [op], g);
    ReplayUnfolds(Effect(rows, op, g), [], g);
    assert [op][1..] == [];
  }

  /** On a terminal already in the known state the prologue does nothing. */
  lemma PrologueIsIdle(vt: Vt)
    requires Ready(vt) && vt.row == vt.col == 0
    ensures Play(vt, Prologue()) == vt
  {
    assert Prologue() == [ResetOriginMode] + [ResetMargins, ResetStyle, SetLink(None)];
    PlayCons(vt, ResetOriginMode, [ResetMargins, ResetStyle, SetLink(None)]);
    PlayThree(vt, ResetMargins, ResetStyle, SetLink(None));
  }

  /**
    * The region limit, seen from the batch. Given the presented rows, a dishonoured operation and the
    * grid that operation means, the fast path returns the unpainted batch, and a terminal showing the
    * presented rows ends up showing something else.
    */
  lemma DishonouredBatchFails(op: SceneOperation, cursor: Cursor, g: Geometry) returns (presented: seq<Row>, vt: Vt)
    requires g.cols > 0 && op.IsVertical() && ExactRegion(op.Region(), g).Some? && !Honoured(op, g)
    requires op.count > 0 && op.region.origin.col == 0 && op.region.cols == g.cols
    ensures HasShape(presented, g) && Accepts(presented, op, g) && AllWellFormed(Effect(presented, op, g))
    ensures ValidVt(vt) && FullRegion(vt) && Shows(vt, presented)
    ensures Replayed(presented, [op], g) == Some(Effect(presented, op, g))
    ensures !ShowsScreen(Play(vt, UnpaintedBatch(presented, [op], cursor, g)), Screen(Effect(presented, op, g), cursor))
  {
    hide Accepts, Effect, Commands, Prologue, WriteCursor, UnpaintedBatch, WellFormed, Honoured;
    presented, vt := DishonouredRegionFails(op, g);
    UnpaintedStep(presented, op, cursor, g);
    PrologueIsIdle(vt);
    PlayAppend(vt, Prologue() + Commands(op, g), WriteCursor(cursor));
    PlayAppend(vt, Prologue(), Commands(op, g));
    CursorPlay(Play(vt, Commands(op, g)), cursor);
  }

  /** The unpainted batch of one operation shows what the operation means, whatever the terminal was left in. */
  ghost predicate BatchIsFaithful(op: SceneOperation, g: Geometry) {
    forall presented: seq<Row>, cursor: Cursor, vt: Vt ::
      HasShape(presented, g) && Replayed(presented, [op], g).Some? && AllWellFormed(Replayed(presented, [op], g).value)
      && ValidVt(vt) && FullRegion(vt) && Shows(vt, presented) ==>
        ShowsScreen(Play(vt, UnpaintedBatch(presented, [op], cursor, g)), Screen(Replayed(presented, [op], g).value, cursor))
  }

  /** The batch of a full-width vertical operation is faithful if and only if the terminal honours its region. */
  lemma VerticalBatchIsFaithfulIff(op: SceneOperation, g: Geometry)
    requires g.cols > 0 && op.IsVertical() && ExactRegion(op.Region(), g).Some?
    requires op.count > 0 && op.region.origin.col == 0 && op.region.cols == g.cols
    ensures BatchIsFaithful(op, g) <==> Honoured(op, g)
  {
    hide Accepts, Effect, Commands, Prologue, WriteCursor, UnpaintedBatch, WellFormed, Honoured, Replayed, ExactRegion, ShowsScreen;
    if Honoured(op, g) {
      forall presented: seq<Row>, cursor: Cursor, vt: Vt |
        HasShape(presented, g) && Replayed(presented, [op], g).Some? && AllWellFormed(Replayed(presented, [op], g).value)
        && ValidVt(vt) && FullRegion(vt) && Shows(vt, presented)
        ensures ShowsScreen(Play(vt, UnpaintedBatch(presented, [op], cursor, g)), Screen(Replayed(presented, [op], g).value, cursor))
      {
        HonouredBatchShows(op, presented, cursor, vt, g);
      }
    } else {
      var cursor := Cursor(0, 0, true, Block);
      var presented, vt := DishonouredBatchFails(op, cursor, g);
      assert !ShowsScreen(Play(vt, UnpaintedBatch(presented, [op], cursor, g)), Screen(Replayed(presented, [op], g).value, cursor));
    }
  }

  lemma HonouredBatchShows(op: SceneOperation, presented: seq<Row>, cursor: Cursor, vt: Vt, g: Geometry)
    requires HasShape(presented, g) && Replayed(presented, [op], g).Some?
    requires ExactRegion(op.Region(), g).Some? && Honoured(op, g)
    requires ValidVt(vt) && FullRegion(vt) && Shows(vt, presented)
    ensures ShowsScreen(Play(vt, UnpaintedBatch(presented, [op], cursor, g)), Screen(Replayed(presented, [op], g).value, cursor))
  {
    hide Accepts, Effect, Commands, Prologue, WriteCursor, UnpaintedBatch, WellFormed, Honoured, Replayed, ExactRegion, ShowsScreen, Shows, Simulates, Redraws;
    ReplayUnfolds(presented, [op], g);
    UnpaintedStep(presented, op, cursor, g);
    OperationSimulates(presented, op, g);
    var rows := Effect(presented, op, g);
    RedrawsNothing(rows);
    LooksLikeItself(rows);
    ReplayShows(vt, presented, Commands(op, g), rows, [], rows, Screen(rows, cursor));
    assert Prologue() + Commands(op, g) + [] == Prologue() + Commands(op, g);
  }

  lemma LooksLikeItself(rows: seq<Row>)
    ensures RowsPhysicallyMatch(rows, rows)
  {
  }
}

/** Structural scene operations: when they are accepted, what they do to a grid, what is emitted for them. */
module SceneOperations {
  import opened Common
  import opened Grid
  import opened VtMachine
  import opened Simulation

  // ----- rectangles -----

  datatype GridPoint = GridPoint(row: int, col: int)

  datatype GridRect = GridRect(origin: GridPoint, rows: nat, cols: nat)

  const MAX_I32 := 0x7fff_ffff

  /** i32 addition of a nonnegative extent that stops at the largest value. */
  function SaturatingAdd(a: int, extent: nat): int {
    Min(a + extent, MAX_I32)
  }

  function Clamp(value: int, limit: nat): (r: nat)
    ensures r <= limit
  {
    Min(Max(value, 0), limit)
  }

  function ClipGridRect(rect: GridRect, g: Geometry): Option<GridRect> {
    var top, left := Clamp(rect.origin.row, g.rows), Clamp(rect.origin.col, g.cols);
    var bottom := Clamp(SaturatingAdd(rect.origin.row, rect.rows), g.rows);
    var right := Clamp(SaturatingAdd(rect.origin.col, rect.cols), g.cols);
    if bottom > top && right > left then Some(GridRect(GridPoint(top, left), bottom - top, right - left)) else None
  }

  /** Rows [top, bottom) and columns [left, right). */
  datatype Span = Span(top: nat, bottom: nat, left: nat, right: nat)

  function ExactRegion(region: GridRect, g: Geometry): (r: Option<Span>)
    ensures r.Some? ==> r.value.top < r.value.bottom <= g.rows && r.value.left < r.value.right <= g.cols
  {
    if ClipGridRect(region, g) != Some(region) then None
    else
      var top, left := region.origin.row, region.origin.col;
      Some(Span(top, top + region.rows, left, left + region.cols))
  }

  /** An exact region is a nonempty rectangle inside the screen, and every such rectangle is exact. */
  lemma ExactRegionIsInside(region: GridRect, g: Geometry)
    requires g.rows <= 0xffff && g.cols <= 0xffff
    ensures ExactRegion(region, g).Some? <==>
              && region.rows > 0 && region.cols > 0
              && 0 <= region.origin.row && region.origin.row + region.rows <= g.rows
              && 0 <= region.origin.col && region.origin.col + region.cols <= g.cols
  {
  }

  // ----- operations -----

  datatype SceneOperation =
    | ScrollUp(region: GridRect, count: nat)
    | ScrollDown(region: GridRect, count: nat)
    | InsertLines(region: GridRect, count: nat)
    | DeleteLines(region: GridRect, count: nat)
    | InsertChars(region: GridRect, count: nat)
    | DeleteChars(region: GridRect, count: nat)
    | EraseChars(region: GridRect)
    | WriteRun(origin: GridPoint, text: string)
  {
    predicate IsVertical() {
      ScrollUp? || ScrollDown? || InsertLines? || DeleteLines?
    }

    predicate MovesUp() {
      ScrollUp? || DeleteLines?
    }

    predicate EditsLines() {
      InsertLines? || DeleteLines?
    }

    function Region(): GridRect {
      match this
      case WriteRun(origin, text) => GridRect(origin, 1, |text|)
      case EraseChars(region) => region
      case ScrollUp(region, _) => region
      case ScrollDown(region, _) => region
      case InsertLines(region, _) => region
      case DeleteLines(region, _) => region
      case InsertChars(region, _) => region
      case DeleteChars(region, _) => region
    }
  }

  predicate IsPrintableAscii(text: string) {
    forall k :: 0 <= k < |text| ==> ' ' <= text[k] <= '~'
  }

  function TextCells(text: string): (r: Cells)
    ensures |r| == |text|
    ensures forall k :: 0 <= k < |text| ==> r[k] == BLANK_CELL.(grapheme := [text[k]])
  {
    seq(|text|, k requires 0 <= k < |text| => BLANK_CELL.(grapheme := [text[k]]))
  }

  /** How many rows or cells move, once the count is cut to the region. */
  function Distance(op: SceneOperation, span: Span): nat
    requires span.top <= span.bottom && span.left <= span.right
  {
    match op
    case EraseChars(_) => span.right - span.left
    case WriteRun(_, _) => span.right - span.left
    case InsertChars(_, count) => Min(count, span.right - span.left)
    case DeleteChars(_, count) => Min(count, span.right - span.left)
    case ScrollUp(_, count) => Min(count, span.bottom - span.top)
    case ScrollDown(_, count) => Min(count, span.bottom - span.top)
    case InsertLines(_, count) => Min(count, span.bottom - span.top)
    case DeleteLines(_, count) => Min(count, span.bottom - span.top)
  }

  /** The renderer replays an operation only on these grids; otherwise it gives up. */
  predicate Accepts(rows: seq<Row>, op: SceneOperation, g: Geometry)
    requires HasShape(rows, g)
  {
    && ExactRegion(op.Region(), g).Some?
    && var span := ExactRegion(op.Region(), g).value;
       if op.IsVertical() then
         && span.left == 0 && span.right == g.cols && Distance(op, span) > 0
         && (op.EditsLines() ==> forall i :: span.top <= i < span.bottom ==> !rows[i].wrapped)
       else if op.WriteRun? then IsPrintableAscii(op.text)
       else
         && span.bottom == span.top + 1 && !rows[span.top].wrapped
         && (op.EraseChars?
             || (span.right == g.cols && Distance(op, span) > 0
                 && forall c :: span.left <= c < span.right ==> !CellIsWide(rows[span.top].cells[c])))
  }

  function InsertedCells(w: Cells, l: nat, n: nat): (r: Cells)
    requires l + n <= |w|
    ensures |r| == |w|
    ensures forall c :: 0 <= c < |w| ==> r[c] == if c < l then w[c] else if c < l + n then BLANK_CELL else w[c - n]
  {
    w[..l] + BlankCells(n) + w[l..|w| - n]
  }

  function DeletedCells(w: Cells, l: nat, n: nat): (r: Cells)
    requires l + n <= |w|
    ensures |r| == |w|
    ensures forall c :: 0 <= c < |w| ==> r[c] == if c < l then w[c] else if c < |w| - n then w[c + n] else BLANK_CELL
  {
    w[..l] + w[l + n..] + BlankCells(n)
  }

  /** What an accepted operation means for the grid. */
  function Effect(rows: seq<Row>, op: SceneOperation, g: Geometry): (r: seq<Row>)
    requires HasShape(rows, g) && Accepts(rows, op, g)
    ensures HasShape(r, g)
  {
    var span := ExactRegion(op.Region(), g).value;
    var n := Distance(op, span);
    if op.MovesUp() then ShiftUp(rows, span.top, span.bottom, n, BlankRow(g.cols))
    else if op.IsVertical() then ShiftDown(rows, span.top, span.bottom, n, BlankRow(g.cols))
    else
      var w := rows[span.top].cells;
      WithRowCells(rows, span.top,
        if op.InsertChars? then InsertedCells(w, span.left, n)
        else if op.DeleteChars? then DeletedCells(w, span.left, n)
        else if op.WriteRun? then Overlay(w, span.left, TextCells(op.text))
        else Overlay(w, span.left, BlankCells(n)))
  }

  /** A rectangle of the screen, not empty. */
  predicate InsideScreen(region: GridRect, g: Geometry) {
    && region.rows > 0 && region.cols > 0
    && 0 <= region.origin.row && region.origin.row + region.rows <= g.rows
    && 0 <= region.origin.col && region.origin.col + region.cols <= g.cols
  }

  predicate IsPlain(cell: Cell) {
    cell.width <= 1 && !cell.continuation
  }

  /**
    * Which operations are replayed: moves of whole rows, line editing only when no row of the region is
    * soft-wrapped; text in printable ASCII; and character editing of one row that is not soft-wrapped,
    * up to the right edge and without wide characters in reach, erasing anywhere.
    */
  lemma AcceptsExactly(rows: seq<Row>, op: SceneOperation, g: Geometry)
    requires HasShape(rows, g) && g.rows <= 0xffff && g.cols <= 0xffff
    ensures Accepts(rows, op, g) <==>
            && InsideScreen(op.Region(), g)
            && var region := op.Region();
               var (top, left, right) := (region.origin.row, region.origin.col, region.origin.col + region.cols);
               var fullWidth := left == 0 && right == g.cols;
               var unwrapped := forall i :: top <= i < top + region.rows ==> !rows[i].wrapped;
               match op
               case ScrollUp(_, count) => fullWidth && count > 0
               case ScrollDown(_, count) => fullWidth && count > 0
               case InsertLines(_, count) => fullWidth && count > 0 && unwrapped
               case DeleteLines(_, count) => fullWidth && count > 0 && unwrapped
               case InsertChars(_, count) =>
                 region.rows == 1 && unwrapped && right == g.cols && count > 0
                 && forall c :: left <= c < right ==> IsPlain(rows[top].cells[c])
               case DeleteChars(_, count) =>
                 region.rows == 1 && unwrapped && right == g.cols && count > 0
                 && forall c :: left <= c < right ==> IsPlain(rows[top].cells[c])
               case EraseChars(_) => region.rows == 1 && unwrapped
               case WriteRun(_, text) => forall k :: 0 <= k < |text| ==> ' ' <= text[k] <= '~'
  {
    ExactRegionIsInside(op.Region(), g);
  }

  predicate RowsMovedUp(rows: seq<Row>, after: seq<Row>, top: int, bottom: int, n: nat, cols: nat) {
    0 <= top <= bottom <= |rows| == |after| &&
    forall i {:trigger after[i]} :: 0 <= i < |rows| ==>
      after[i] == if !(top <= i < bottom) then rows[i] else if i + n < bottom then rows[i + n] else BlankRow(cols)
  }

  predicate RowsMovedDown(rows: seq<Row>, after: seq<Row>, top: int, bottom: int, n: nat, cols: nat) {
    0 <= top <= bottom <= |rows| == |after| &&
    forall i {:trigger after[i]} :: 0 <= i < |rows| ==>
      after[i] == if !(top <= i < bottom) then rows[i] else if i - n >= top then rows[i - n] else BlankRow(cols)
  }

  lemma ShiftsMoveRows(rows: seq<Row>, top: nat, bottom: nat, n: nat, cols: nat)
    requires top <= bottom <= |rows| && n <= bottom - top
    ensures RowsMovedUp(rows, ShiftUp(rows, top, bottom, n, BlankRow(cols)), top, bottom, n, cols)
    ensures RowsMovedDown(rows, ShiftDown(rows, top, bottom, n, BlankRow(cols)), top, bottom, n, cols)
  {
    hide BlankRow;
  }

  /** What moving whole rows does, in numbers of rows. */
  lemma MoveMeaning(rows: seq<Row>, op: SceneOperation, g: Geometry)
    requires HasShape(rows, g) && Accepts(rows, op, g) && op.IsVertical()
    ensures var region, after := op.Region(), Effect(rows, op, g);
      var (top, bottom) := (region.origin.row, region.origin.row + region.rows);
      match op
      case ScrollUp(_, count) => RowsMovedUp(rows, after, top, bottom, Min(count, region.rows), g.cols)
      case DeleteLines(_, count) => RowsMovedUp(rows, after, top, bottom, Min(count, region.rows), g.cols)
      case ScrollDown(_, count) => RowsMovedDown(rows, after, top, bottom, Min(count, region.rows), g.cols)
      case InsertLines(_, count) => RowsMovedDown(rows, after, top, bottom, Min(count, region.rows), g.cols)
      case _ => true
  {
    hide BlankRow, RowsMovedUp, RowsMovedDown, ShiftUp, ShiftDown;
    var span := ExactRegion(op.Region(), g).value;
    ShiftsMoveRows(rows, span.top, span.bottom, Distance(op, span), g.cols);
  }

  /** From column `left` on the cells moved `n` columns to the right, behind `n` blanks. */
  predicate OpenedAt(before: Cells, after: Cells, left: int, n: nat)
    requires |after| == |before| && 0 <= left
  {
    forall c {:trigger after[c]} :: 0 <= c < |before| ==>
      after[c] == if c < left then before[c] else if c < left + n then BLANK_CELL else before[c - n]
  }

  /** From column `left` on the cells moved `n` columns to the left, and `n` blanks followed. */
  predicate ClosedAt(before: Cells, after: Cells, left: int, n: nat)
    requires |after| == |before| && 0 <= left
  {
    forall c {:trigger after[c]} :: 0 <= c < |before| ==>
      after[c] == if c < left then before[c] else if c + n < |before| then before[c + n] else BLANK_CELL
  }

  /** The cells of one edited row, column by column. */
  predicate EditedCells(before: Cells, after: Cells, op: SceneOperation) {
    var (left, right) := (op.Region().origin.col, op.Region().origin.col + op.Region().cols);
    && |after| == |before| && 0 <= left < right <= |before|
    && match op
       case InsertChars(region, count) => OpenedAt(before, after, left, Min(count, region.cols))
       case DeleteChars(region, count) => ClosedAt(before, after, left, Min(count, region.cols))
       case EraseChars(_) =>
         forall c :: 0 <= c < |before| ==> after[c] == if left <= c < right then BLANK_CELL else before[c]
       case WriteRun(_, text) =>
         forall c :: 0 <= c < |before| ==>
           after[c] == if left <= c < right then Cell([text[c - left]], 1, false, DEFAULT_STYLE, None) else before[c]
       case _ => true
  }

  /** What character editing, erasing and writing do: one row changes, column by column. */
  lemma EditMeaning(rows: seq<Row>, op: SceneOperation, g: Geometry)
    requires HasShape(rows, g) && Accepts(rows, op, g) && !op.IsVertical()
    ensures var after, top := Effect(rows, op, g), op.Region().origin.row;
      && 0 <= top < |rows| == |after| && after[top].wrapped == rows[top].wrapped
      && EditedCells(rows[top].cells, after[top].cells, op)
      && forall i :: 0 <= i < |rows| && i != top ==> after[i] == rows[i]
  {
    hide BlankCells, TextCells, InsertedCells, DeletedCells, Overlay, EditedCells;
    var span := ExactRegion(op.Region(), g).value;
    AcceptedSpan(rows, op, g);
    EditedRowMeaning(rows[span.top].cells, op, span, g);
  }

  lemma AcceptedSpan(rows: seq<Row>, op: SceneOperation, g: Geometry)
    requires HasShape(rows, g) && Accepts(rows, op, g) && !op.IsVertical()
    ensures var span := ExactRegion(op.Region(), g).value;
      && span.top < |rows| && span.left < span.right <= g.cols == |rows[span.top].cells|
      && span.top == op.Region().origin.row
      && span.left == op.Region().origin.col && span.right == span.left + op.Region().cols
      && (op.InsertChars? || op.DeleteChars? ==> span.right == g.cols)
  {
  }

  lemma EditedRowMeaning(w: Cells, op: SceneOperation, span: Span, g: Geometry)
    requires !op.IsVertical() && span.top <= span.bottom && span.left < span.right <= |w|
    requires span.left == op.Region().origin.col && span.right == span.left + op.Region().cols
    requires op.InsertChars? || op.DeleteChars? ==> span.right == |w|
    ensures var n := Distance(op, span);
      EditedCells(w, if op.InsertChars? then InsertedCells(w, span.left, n)
                     else if op.DeleteChars? then DeletedCells(w, span.left, n)
                     else if op.WriteRun? then Overlay(w, span.left, TextCells(op.text))
                     else Overlay(w, span.left, BlankCells(n)), op)
  {
    hide EditedCells, InsertedCells, DeletedCells, Overlay, BlankCells, TextCells;
    match op {
      case InsertChars(region, count) => InsertMeaning(w, region, count);
      case DeleteChars(region, count) => DeleteMeaning(w, region, count);
      case EraseChars(region) => EraseMeaning(w, region);
      case WriteRun(origin, text) => WriteMeaning(w, origin, text);
    }
  }

  lemma InsertMeaning(w: Cells, region: GridRect, count: nat)
    requires 0 <= region.origin.col && region.cols > 0 && region.origin.col + region.cols == |w|
    ensures EditedCells(w, InsertedCells(w, region.origin.col, Min(count, region.cols)), InsertChars(region, count))
  {
  }

  lemma DeleteMeaning(w: Cells, region: GridRect, count: nat)
    requires 0 <= region.origin.col && region.cols > 0 && region.origin.col + region.cols == |w|
    ensures EditedCells(w, DeletedCells(w, region.origin.col, Min(count, region.cols)), DeleteChars(region, count))
  {
  }

  lemma EraseMeaning(w: Cells, region: GridRect)
    requires 0 <= region.origin.col && region.cols > 0 && region.origin.col + region.cols <= |w|
    ensures EditedCells(w, Overlay(w, region.origin.col, BlankCells(region.cols)), EraseChars(region))
  {
    hide BlankCells;
    BlanksAndText(region.cols, "");
  }

  lemma WriteMeaning(w: Cells, origin: GridPoint, text: string)
    requires 0 <= origin.col && |text| > 0 && origin.col + |text| <= |w|
    ensures EditedCells(w, Overlay(w, origin.col, TextCells(text)), WriteRun(origin, text))
  {
    hide TextCells;
    BlanksAndText(0, text);
  }

  lemma BlanksAndText(n: nat, text: string)
    ensures var blanks := BlankCells(n); |blanks| == n && forall c :: 0 <= c < n ==> blanks[c] == BLANK_CELL
    ensures var cells := TextCells(text);
      |cells| == |text| && forall k :: 0 <= k < |text| ==> cells[k] == Cell([text[k]], 1, false, DEFAULT_STYLE, None)
  {
  }

  // ----- emission -----

  /** Clears the soft-wrap marks and cells of rows [from, until). */
  function ClearRows(from: nat, until: nat): seq<Command>
    decreases Sub(until, from)
  {
    if from >= until then [] else [Cup(from, 0), EraseLine] + ClearRows(from + 1, until)
  }

  function Prints(text: string): seq<Command> {
    if text == "" then [] else [Print([text[0]], 1)] + Prints(text[1..])
  }

  function Move(op: SceneOperation, top: nat, n: nat): seq<Command>
    requires op.IsVertical()
  {
    if op.ScrollUp? then [ScrollUpBy(n)]
    else if op.ScrollDown? then [ScrollDownBy(n)]
    else if op.InsertLines? then [Cup(top, 0), InsertLinesBy(n)]
    else [Cup(top, 0), DeleteLinesBy(n)]
  }

  function VerticalCommands(op: SceneOperation, span: Span, n: nat): seq<Command>
    requires op.IsVertical() && n <= span.bottom
  {
    [SetRegion(span.top, span.bottom)] + Move(op, span.top, n) + [ResetRegion]
    + (if op.ScrollUp? then ClearRows(span.bottom - n, span.bottom)
       else if op.ScrollDown? then ClearRows(span.top, span.top + n)
       else [])
  }

  function Commands(op: SceneOperation, g: Geometry): seq<Command>
    requires ExactRegion(op.Region(), g).Some?
  {
    var span := ExactRegion(op.Region(), g).value;
    var n := Distance(op, span);
    if op.IsVertical() then VerticalCommands(op, span, n)
    else
      [Cup(span.top, span.left)] +
      if op.InsertChars? then [InsertCharsBy(n)]
      else if op.DeleteChars? then [DeleteCharsBy(n)]
      else if op.WriteRun? then Prints(op.text)
      else [EraseCharsBy(n)]
  }

  // ----- pending repairs -----

  /** Where row `row` is after rows [top, bottom) moved by `count`; nothing when it fell out. */
  function MovedRow(row: nat, top: nat, bottom: nat, count: nat, upward: bool): Option<nat> {
    if row < top || row >= bottom then Some(row)
    else if upward then if row >= top + count then Some(row - count) else None
    else if row < Sub(bottom, count) then Some(row + count) else None
  }

  predicate Covers(repair: GridRect, row: int, col: int) {
    && repair.origin.row <= row < repair.origin.row + repair.rows
    && repair.origin.col <= col < repair.origin.col + repair.cols
  }

  predicate Covered(repairs: seq<GridRect>, row: int, col: int) {
    exists k :: 0 <= k < |repairs| && Covers(repairs[k], row, col)
  }

  /** Clipping keeps exactly the cells on the screen, wherever the rectangle lies and however large it is. */
  lemma ClipKeepsCellsOnScreen(rect: GridRect, g: Geometry, row: nat, col: nat)
    requires g.rows <= 0xffff && g.cols <= 0xffff && row < g.rows && col < g.cols
    ensures ClipGridRect(rect, g).Some? && Covers(ClipGridRect(rect, g).value, row, col) <==> Covers(rect, row, col)
  {
  }
}

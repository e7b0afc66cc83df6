/**
  * The physical terminal, reduced to the control functions the renderer emits: ECMA-48 CUP (8.3.21),
  * DCH (8.3.26), DL (8.3.32), ECH (8.3.38), EL (8.3.41), ICH (8.3.64), IL (8.3.67), SD (8.3.113) and
  * SU (8.3.147), the DEC scrolling region (DECSTBM) and origin mode (DECOM), SGR, OSC 8 and text.
  * The grid holds canonical cells and, like a real terminal, never holds half a wide character.
  */
module VtMachine {
  import opened Common
  import opened Grid

  datatype Command =
    | ResetOriginMode
    | ResetMargins
    | Cup(row: nat, col: nat)
    | SetRegion(top: nat, bottom: nat)
    | ResetRegion
    | ScrollUpBy(count: nat)
    | ScrollDownBy(count: nat)
    | InsertLinesBy(count: nat)
    | DeleteLinesBy(count: nat)
    | InsertCharsBy(count: nat)
    | DeleteCharsBy(count: nat)
    | EraseCharsBy(count: nat)
    | EraseLine
    | ResetStyle
    | SetStyle(style: Style)
    | SetLink(link: Option<string>)
    | Print(text: string, width: nat)
    | ShowCursor(visible: bool, shape: nat)

  /**
    * `filler` is the blank this terminal puts in place of a cut half, and `stray` the soft-wrap mark
    * it leaves on rows that scrolling introduces: terminals differ, so both are arbitrary.
    * A cursor column equal to the width stands for a pending wrap.
    */
  datatype Vt = Vt(
    rows: seq<Row>,
    cols: nat,
    row: nat,
    col: nat,
    top: nat,
    bottom: nat,
    pen: Style,
    link: Option<string>,
    originMode: bool,
    filler: Cell,
    stray: bool,
    cursorVisible: bool,
    cursorShape: nat)

  ghost predicate ValidVt(vt: Vt) {
    && vt.cols > 0 && |vt.rows| > 0
    && (forall i :: 0 <= i < |vt.rows| ==> |vt.rows[i].cells| == vt.cols)
    && vt.row < |vt.rows| && vt.col <= vt.cols
    && vt.top < vt.bottom <= |vt.rows|
    && !CellIsWide(vt.filler)
  }

  /** The cell that erasing leaves: only the background of the pen survives. */
  function Erased(vt: Vt): Cell {
    Cell(" ", 1, false, Style(0, vt.pen.background), None)
  }

  function ErasedRow(vt: Vt, wrapped: bool): Row {
    Row(seq(vt.cols, _ => Erased(vt)), wrapped)
  }

  /**
    * Lays `piece` over a row from column `l`; a wide character cut by an edge of the piece loses its
    * other half.
    */
  function Put(cells: Cells, l: nat, piece: Cells, filler: Cell): (r: Cells)
    requires 0 < |piece| && l + |piece| <= |cells|
    ensures |r| == |cells|
    ensures forall c :: 0 <= c < |cells| ==>
              r[c] == if l <= c < l + |piece| then piece[c - l]
                      else if c == l - 1 && cells[l].continuation then filler
                      else if c == l + |piece| && IsLead(cells[c - 1]) then filler
                      else cells[c]
  {
    var r := l + |piece|;
    var left := if l > 0 && cells[l].continuation then cells[..l - 1] + [filler] else cells[..l];
    var right := if r < |cells| && IsLead(cells[r - 1]) then [filler] + cells[r + 1..] else cells[r..];
    left + piece + right
  }

  /** Blanks both halves of a character that column `l` would cut in two. */
  function SplitAt(cells: Cells, l: nat, filler: Cell): (r: Cells)
    ensures |r| == |cells|
    ensures forall c :: 0 <= c < |cells| ==>
              r[c] == if 0 < l < |cells| && cells[l].continuation && (c == l || c == l - 1) then filler else cells[c]
  {
    if 0 < l < |cells| && cells[l].continuation then cells[l - 1 := filler][l := filler] else cells
  }

  function CurrentCells(vt: Vt): Cells
    requires vt.row < |vt.rows|
  {
    vt.rows[vt.row].cells
  }

  function WithCells(vt: Vt, cells: Cells): Vt
    requires vt.row < |vt.rows|
  {
    vt.(rows := vt.rows[vt.row := vt.rows[vt.row].(cells := cells)])
  }

  /** Rows [from, bottom) move up by `count`; the rows that appear at the bottom are new. */
  function ShiftUp(rows: seq<Row>, from: nat, bottom: nat, count: nat, newRow: Row): (r: seq<Row>)
    requires from <= bottom <= |rows| && count <= bottom - from
    ensures |r| == |rows|
    ensures forall i :: 0 <= i < |rows| ==>
              r[i] == if from <= i < bottom - count then rows[i + count]
                      else if bottom - count <= i < bottom then newRow else rows[i]
  {
    rows[..from] + rows[from + count..bottom] + seq(count, _ => newRow) + rows[bottom..]
  }

  /** Rows [from, bottom) move down by `count`; the rows that appear at the top are new. */
  function ShiftDown(rows: seq<Row>, from: nat, bottom: nat, count: nat, newRow: Row): (r: seq<Row>)
    requires from <= bottom <= |rows| && count <= bottom - from
    ensures |r| == |rows|
    ensures forall i :: 0 <= i < |rows| ==>
              r[i] == if from + count <= i < bottom then rows[i - count]
                      else if from <= i < from + count then newRow else rows[i]
  {
    rows[..from] + seq(count, _ => newRow) + rows[from..bottom - count] + rows[bottom..]
  }

  function InsertBlanks(cells: Cells, l: nat, count: nat, blank: Cell, filler: Cell): (r: Cells)
    requires l + count <= |cells|
    ensures |r| == |cells|
  {
    var split := SplitAt(SplitAt(cells, l, filler), |cells| - count, filler);
    split[..l] + seq(count, _ => blank) + split[l..|cells| - count]
  }

  function DeleteCells(cells: Cells, l: nat, count: nat, blank: Cell, filler: Cell): (r: Cells)
    requires l + count <= |cells|
    ensures |r| == |cells|
  {
    var split := SplitAt(SplitAt(cells, l, filler), l + count, filler);
    split[..l] + split[l + count..] + seq(count, _ => blank)
  }

  /** Column of the cursor for editing: a pending wrap edits at the last column. */
  function EditCol(vt: Vt): (r: nat)
    requires vt.cols > 0
    ensures r < vt.cols
  {
    if vt.col < vt.cols then vt.col else vt.cols - 1
  }

  /** Moves to the start of the next line, scrolling at the bottom of the region. */
  function WrapLine(vt: Vt): (r: Vt)
    requires ValidVt(vt)
    ensures ValidVt(r) && r.col == 0
  {
    var marked := vt.(rows := vt.rows[vt.row := vt.rows[vt.row].(wrapped := true)], col := 0);
    if vt.row + 1 == vt.bottom then
      marked.(rows := ShiftUp(marked.rows, vt.top, vt.bottom, 1, ErasedRow(vt, vt.stray)))
    else if vt.row + 1 < |vt.rows| then marked.(row := vt.row + 1)
    else marked
  }

  function PrintedPiece(vt: Vt, text: string, width: nat): Cells {
    var lead := Canon(Cell(text, width, false, vt.pen, vt.link));
    if width == 2 then [lead, Canon(Tail(lead))] else [lead]
  }

  function PrintHere(vt: Vt, text: string, width: nat): (r: Vt)
    requires ValidVt(vt) && 1 <= width <= 2 && vt.col + width <= vt.cols
    ensures ValidVt(r)
  {
    WithCells(vt, Put(CurrentCells(vt), vt.col, PrintedPiece(vt, text, width), vt.filler)).(col := vt.col + width)
  }

  function ScrollRegion(vt: Vt, from: nat, count: nat, up: bool, wrapped: bool): (r: Vt)
    requires ValidVt(vt) && vt.top <= from < vt.bottom
    ensures ValidVt(r)
  {
    var n := Min(count, vt.bottom - from);
    var row := ErasedRow(vt, wrapped);
    vt.(rows := if up then ShiftUp(vt.rows, from, vt.bottom, n, row) else ShiftDown(vt.rows, from, vt.bottom, n, row))
  }

  /** IL and DL act from the cursor row, inside the region only. */
  function EditLines(vt: Vt, count: nat, up: bool): (r: Vt)
    requires ValidVt(vt)
    ensures ValidVt(r)
  {
    if vt.top <= vt.row < vt.bottom then ScrollRegion(vt, vt.row, count, up, false).(col := 0) else vt
  }

  function InsertCharsHere(vt: Vt, count: nat): (r: Vt)
    requires ValidVt(vt)
    ensures ValidVt(r)
  {
    var l := EditCol(vt);
    WithCells(vt, InsertBlanks(CurrentCells(vt), l, Min(count, vt.cols - l), Erased(vt), vt.filler)).(col := l)
  }

  function DeleteCharsHere(vt: Vt, count: nat): (r: Vt)
    requires ValidVt(vt)
    ensures ValidVt(r)
  {
    var l := EditCol(vt);
    WithCells(vt, DeleteCells(CurrentCells(vt), l, Min(count, vt.cols - l), Erased(vt), vt.filler)).(col := l)
  }

  function EraseCharsHere(vt: Vt, count: nat): (r: Vt)
    requires ValidVt(vt)
    ensures ValidVt(r)
  {
    var l := EditCol(vt);
    var n := Max(1, Min(count, vt.cols - l));
    WithCells(vt, Put(CurrentCells(vt), l, seq(n, _ => Erased(vt)), vt.filler)).(col := l)
  }

  function PrintText(vt: Vt, text: string, width: nat): (r: Vt)
    requires ValidVt(vt)
    ensures ValidVt(r)
  {
    if width != 1 && width != 2 then vt
    else if vt.col + width <= vt.cols then PrintHere(vt, text, width)
    else if width <= vt.cols then PrintHere(WrapLine(vt), text, width)
    else vt
  }

  /** DECSTBM: a region of fewer than two rows is ignored, and a region set homes the cursor. */
  function SetScrollRegion(vt: Vt, top: nat, bottom: nat): (r: Vt)
    requires ValidVt(vt)
    ensures ValidVt(r)
  {
    if top + 2 <= bottom <= |vt.rows|
    then vt.(top := top, bottom := bottom, row := if vt.originMode then top else 0, col := 0)
    else vt
  }

  function Place(vt: Vt, row: nat, col: nat): (r: Vt)
    requires ValidVt(vt)
    ensures ValidVt(r)
  {
    vt.(row := if vt.originMode then Min(vt.top + row, vt.bottom - 1) else Min(row, |vt.rows| - 1),
        col := Min(col, vt.cols - 1))
  }

  function Exec(vt: Vt, command: Command): (r: Vt)
    requires ValidVt(vt)
    ensures ValidVt(r)
  {
    match command
    case ResetOriginMode => vt.(originMode := false, row := 0, col := 0)
    case ResetMargins => vt
    case Cup(row, col) => Place(vt, row, col)
    case SetRegion(top, bottom) => SetScrollRegion(vt, top, bottom)
    case ResetRegion => vt.(top := 0, bottom := |vt.rows|, row := 0, col := 0)
    case ScrollUpBy(count) => ScrollRegion(vt, vt.top, count, true, vt.stray)
    case ScrollDownBy(count) => ScrollRegion(vt, vt.top, count, false, vt.stray)
    case InsertLinesBy(count) => EditLines(vt, count, false)
    case DeleteLinesBy(count) => EditLines(vt, count, true)
    case InsertCharsBy(count) => InsertCharsHere(vt, count)
    case DeleteCharsBy(count) => DeleteCharsHere(vt, count)
    case EraseCharsBy(count) => EraseCharsHere(vt, count)
    case EraseLine => vt.(rows := vt.rows[vt.row := ErasedRow(vt, false)])
    case ResetStyle => vt.(pen := DEFAULT_STYLE)
    case SetStyle(style) => vt.(pen := style)
    case SetLink(link) => vt.(link := link)
    case Print(text, width) => PrintText(vt, text, width)
    case ShowCursor(visible, shape) => vt.(cursorVisible := visible, cursorShape := shape)
  }

  function Play(vt: Vt, commands: seq<Command>): (r: Vt)
    requires ValidVt(vt)
    ensures ValidVt(r)
    decreases |commands|
  {
    if commands == [] then vt else Play(Exec(vt, commands[0]), commands[1..])
  }

  lemma {:induction false} PlayAppend(vt: Vt, a: seq<Command>, b: seq<Command>)
    requires ValidVt(vt)
    ensures Play(vt, a + b) == Play(Play(vt, a), b)
    decreases |a|
  {
    if a == [] {
      assert a + b == b;
    } else {
      assert (a + b)[0] == a[0] && (a + b)[1..] == a[1..] + b;
      PlayAppend(Exec(vt, a[0]), a[1..], b);
    }
  }

  lemma PlayNothing(vt: Vt)
    requires ValidVt(vt)
    ensures Play(vt, []) == vt
  {
  }

  lemma PlayOne(vt: Vt, command: Command)
    requires ValidVt(vt)
    ensures Play(vt, [command]) == Exec(vt, command)
  {
    assert [command][1..] == [];
  }

  lemma PlayCons(vt: Vt, command: Command, rest: seq<Command>)
    requires ValidVt(vt)
    ensures Play(vt, [command] + rest) == Play(Exec(vt, command), rest)
  {
    PlayAppend(vt, [command], rest);
    PlayOne(vt, command);
  }

  lemma PlayThree(vt: Vt, a: Command, b: Command, c: Command)
    requires ValidVt(vt)
    ensures Play(vt, [a, b, c]) == Exec(Exec(Exec(vt, a), b), c)
  {
    hide Exec;
    assert [a, b, c] == [a] + ([b] + [c]);
    PlayCons(vt, a, [b] + [c]);
    PlayCons(Exec(vt, a), b, [c]);
    PlayOne(Exec(Exec(vt, a), b), c);
  }
}

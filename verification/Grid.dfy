/**
  * Cells, rows and what it means for two of them to look the same on a physical terminal.
  * A wide character occupies a lead cell of width 2 and a continuation cell behind it.
  */
module Grid {
  import opened Common

  /** Attributes stand for everything SGR sets except the background, which erasing uses. */
  datatype Style = Style(attributes: nat, background: nat)

  const DEFAULT_STYLE := Style(0, 0)

  datatype Cell = Cell(grapheme: string, width: nat, continuation: bool, style: Style, hyperlink: Option<string>)

  const BLANK_CELL := Cell("", 1, false, DEFAULT_STYLE, None)

  type Cells = seq<Cell>

  datatype Row = Row(cells: Cells, wrapped: bool)

  datatype Geometry = Geometry(rows: nat, cols: nat)

  predicate IsBlank(grapheme: string) {
    grapheme == "" || grapheme == " "
  }

  /** A terminal cannot tell an empty cell from a space. */
  function Canon(cell: Cell): Cell {
    if IsBlank(cell.grapheme) then cell.(grapheme := " ") else cell
  }

  predicate CellsPhysicallyMatch(left: Cell, right: Cell) {
    && (left.grapheme == right.grapheme || (IsBlank(left.grapheme) && IsBlank(right.grapheme)))
    && left.width == right.width && left.continuation == right.continuation
    && left.style == right.style && left.hyperlink == right.hyperlink
  }

  predicate RowsPhysicallyMatch(left: seq<Row>, right: seq<Row>) {
    && |left| == |right|
    && forall i :: 0 <= i < |left| ==>
         && left[i].wrapped == right[i].wrapped
         && |left[i].cells| == |right[i].cells|
         && forall c :: 0 <= c < |left[i].cells| ==> CellsPhysicallyMatch(left[i].cells[c], right[i].cells[c])
  }

  // ----- wide characters -----

  predicate IsLead(cell: Cell) {
    !cell.continuation && cell.width == 2
  }

  predicate CellIsWide(cell: Cell) {
    cell.continuation || cell.width > 1
  }

  /** What printing a wide character leaves behind its lead. */
  function Tail(lead: Cell): Cell {
    Cell("", 0, true, lead.style, lead.hyperlink)
  }

  /** One half of a wide character whose other half is missing. */
  predicate IsOrphan(cells: Cells, c: nat)
    requires c < |cells|
  {
    || (cells[c].continuation && !(c > 0 && IsLead(cells[c - 1])))
    || (IsLead(cells[c]) && !(c + 1 < |cells| && cells[c + 1].continuation))
  }

  /** A row as an engine reports it: whole wide characters, and only real text is wide. */
  predicate WellFormed(cells: Cells) {
    forall c :: 0 <= c < |cells| ==>
      && !IsOrphan(cells, c)
      && (!cells[c].continuation ==> cells[c].width == 1 || (cells[c].width == 2 && !IsBlank(cells[c].grapheme)))
      && (cells[c].continuation && c > 0 ==> Canon(cells[c]) == Canon(Tail(cells[c - 1])))
  }

  ghost predicate AllWellFormed(rows: seq<Row>) {
    forall i :: 0 <= i < |rows| ==> WellFormed(rows[i].cells)
  }

  ghost predicate HasShape(rows: seq<Row>, g: Geometry) {
    |rows| == g.rows && forall i :: 0 <= i < |rows| ==> |rows[i].cells| == g.cols
  }

  // ----- what a terminal shows for a row -----

  /** A terminal never keeps half a character: it shows `filler` in place of an orphan. */
  function Clean(cells: Cells, filler: Cell): (r: Cells)
    ensures |r| == |cells|
    ensures forall c :: 0 <= c < |cells| ==> r[c] == if IsOrphan(cells, c) then filler else Canon(cells[c])
  {
    seq(|cells|, c requires 0 <= c < |cells| => if IsOrphan(cells, c) then filler else Canon(cells[c]))
  }

  function ShownRow(row: Row, filler: Cell): Row {
    Row(Clean(row.cells, filler), row.wrapped)
  }

  function BlankCells(cols: nat): (r: Cells)
    ensures |r| == cols && forall c :: 0 <= c < cols ==> r[c] == BLANK_CELL
  {
    seq(cols, _ => BLANK_CELL)
  }

  function BlankRow(cols: nat): Row {
    Row(BlankCells(cols), false)
  }

  /** `cells` with `piece` laid over it from column `l`. */
  function Overlay(cells: Cells, l: nat, piece: Cells): (r: Cells)
    requires l + |piece| <= |cells|
    ensures |r| == |cells|
    ensures forall c :: 0 <= c < |cells| ==> r[c] == if l <= c < l + |piece| then piece[c - l] else cells[c]
  {
    cells[..l] + piece + cells[l + |piece|..]
  }

  lemma OverlayLength(cells: Cells, l: nat, piece: Cells)
    requires l + |piece| <= |cells|
    ensures |Overlay(cells, l, piece)| == |cells|
  {
  }
}

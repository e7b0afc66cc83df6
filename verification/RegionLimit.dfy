/**
  * The scrolling region DECSTBM ignores. A vertical operation on a single row sets a region of one
  * row, which terminals refuse, and then moves rows of the whole screen; these lemmas say exactly
  * when that still comes out right.
  */
module RegionLimit {
  import opened Common
  import opened Grid
  import opened VtMachine
  import opened Simulation
  import opened SceneOperations
  import opened SceneSimulation

  function MarkedRow(cols: nat): (r: Row)
    requires cols > 0
    ensures |r.cells| == cols && r.cells[0].grapheme == "x" && !CellIsWide(r.cells[0]) && !r.wrapped
  {
    Row([BLANK_CELL.(grapheme := "x")] + BlankCells(cols - 1), false)
  }

  /** A blank screen with one mark in the first column of row `m`. */
  function MarkedRows(g: Geometry, m: nat): (r: seq<Row>)
    requires g.cols > 0
    ensures |r| == g.rows
    ensures forall i :: 0 <= i < g.rows ==> r[i] == if i == m then MarkedRow(g.cols) else BlankRow(g.cols)
  {
    seq(g.rows, i => if i == m then MarkedRow(g.cols) else BlankRow(g.cols))
  }

  function ScreenOf(rows: seq<Row>, g: Geometry): Vt
  {
    Vt(seq(|rows|, i requires 0 <= i < |rows| => ShownRow(rows[i], Canon(BLANK_CELL))), g.cols, 0, 0, 0, |rows|, DEFAULT_STYLE, None, false,
       Canon(BLANK_CELL), false, true, 0)
  }

  lemma ScreenShows(rows: seq<Row>, g: Geometry)
    requires HasShape(rows, g) && g.rows > 0 && g.cols > 0
    ensures Ready(ScreenOf(rows, g)) && Shows(ScreenOf(rows, g), rows)
  {
  }

  lemma MarkIsVisible(cols: nat, filler: Cell)
    requires cols > 0 && filler == Canon(BLANK_CELL)
    ensures ShownRow(MarkedRow(cols), filler) != ShownRow(BlankRow(cols), filler)
  {
    var marked, blank := MarkedRow(cols).cells, BlankCells(cols);
    assert !IsOrphan(marked, 0) && !IsOrphan(blank, 0);
    assert Clean(marked, filler)[0] == marked[0];
    assert Clean(blank, filler)[0] == Canon(BLANK_CELL);
  }

  /** The row whose mark a dishonoured region loses. */
  function LostRow(op: SceneOperation, top: nat, rows: nat): nat
    requires rows > 0
  {
    if op.EditsLines() then top + 1
    else if op.ScrollUp? then if top == rows - 1 then 0 else rows - 1
    else if top == 0 then rows - 1 else 0
  }

  /** What the screen looks like after a move whose region was ignored. */
  lemma IgnoredRegionPlay(vt: Vt, op: SceneOperation, top: nat)
    requires Ready(vt) && op.IsVertical() && top < |vt.rows| && |vt.rows| > 1
    ensures var vt' := Play(vt, [SetRegion(top, top + 1)] + Move(op, top, 1) + [ResetRegion]);
            var from := if op.EditsLines() then top else 0;
            var row := ErasedRow(vt, if op.EditsLines() then false else vt.stray);
            && Ready(vt') && SameFrame(vt, vt')
            && vt'.rows == if op.MovesUp() then ShiftUp(vt.rows, from, |vt.rows|, 1, row)
                           else ShiftDown(vt.rows, from, |vt.rows|, 1, row)
  {
    hide Move;
    var move := Move(op, top, 1);
    PlayAppend(vt, [SetRegion(top, top + 1)] + move, [ResetRegion]);
    PlayCons(vt, SetRegion(top, top + 1), move);
    PlayOne(Play(vt, move), ResetRegion);
    if op.EditsLines() {
      EditPlay(vt, op, top, 1);
    } else {
      ScrollPlay(vt, op, top, 1);
    }
  }

  /** With its region ignored, the move takes the mark off row `LostRow`. */
  lemma MarkIsLost(op: SceneOperation, top: nat, rows: seq<Row>, row: Row, m: nat)
    requires op.IsVertical() && top < |rows| && |rows| > 1 && (op.EditsLines() ==> top + 1 < |rows|)
    requires m == LostRow(op, top, |rows|) && forall i :: 0 <= i < |rows| && i != m ==> rows[i] == row
    ensures m < |rows| && m != top
    ensures var from := if op.EditsLines() then top else 0;
            (if op.MovesUp() then ShiftUp(rows, from, |rows|, 1, row) else ShiftDown(rows, from, |rows|, 1, row))[m] == row
  {
  }

  lemma IgnoredRegionCommands(vt: Vt, op: SceneOperation, g: Geometry, top: nat)
    requires Ready(vt) && op.IsVertical() && top < |vt.rows| && |vt.rows| > 1 && !vt.stray
    requires ExactRegion(op.Region(), g) == Some(Span(top, top + 1, 0, g.cols)) && op.count > 0
    ensures var vt' := Play(vt, Commands(op, g));
            var from := if op.EditsLines() then top else 0;
            var row := ErasedRow(vt, false);
            var moved := if op.MovesUp() then ShiftUp(vt.rows, from, |vt.rows|, 1, row)
                         else ShiftDown(vt.rows, from, |vt.rows|, 1, row);
            && Ready(vt') && SameFrame(vt, vt')
            && forall i :: 0 <= i < |vt.rows| && i != top ==> vt'.rows[i] == moved[i]
  {
    hide Move, ClearRows, Play, ErasedRow, ShiftUp, ShiftDown;
    IgnoredRegionPlay(vt, op, top);
    var move := [SetRegion(top, top + 1)] + Move(op, top, 1) + [ResetRegion];
    var clear := if op.EditsLines() then [] else ClearRows(top, top + 1);
    assert Commands(op, g) == move + clear;
    PlayAppend(vt, move, clear);
    if op.EditsLines() {
      PlayNothing(Play(vt, move));
    } else {
      ClearRowsPlay(Play(vt, move), top, top + 1);
    }
  }

  /** A single-row vertical operation that the terminal does not honour loses a row. */
  lemma DishonouredRegionFails(op: SceneOperation, g: Geometry) returns (rows: seq<Row>, vt: Vt)
    requires g.cols > 0 && op.IsVertical() && ExactRegion(op.Region(), g).Some? && !Honoured(op, g)
    requires op.count > 0 && op.region.origin.col == 0 && op.region.cols == g.cols
    ensures HasShape(rows, g) && Accepts(rows, op, g) && Shows(vt, rows) && AllWellFormed(Effect(rows, op, g))
    ensures Ready(vt) && vt.row == vt.col == 0 && Ready(Play(vt, Commands(op, g)))
    ensures !Shows(Play(vt, Commands(op, g)), Effect(rows, op, g))
  {
    hide Commands, MarkedRow, BlankRow, ShownRow, WellFormed, Play;
    var top := ExactRegion(op.Region(), g).value.top;
    var m := LostRow(op, top, g.rows);
    rows := MarkedRows(g, m);
    MarkedShape(g, m);
    vt := ScreenOf(rows, g);
    ScreenShows(rows, g);
    IgnoredRegionCommands(vt, op, g, top);
    ErasedIsBlank(vt);
    MarkIsVisible(g.cols, vt.filler);
    ShiftedMarksAreWellFormed(op, g, m);
    MarkIsLost(op, top, vt.rows, ErasedRow(vt, false), m);
    assert Effect(rows, op, g)[m] == rows[m] == MarkedRow(g.cols);
    assert Play(vt, Commands(op, g)).rows[m] == ErasedRow(vt, false);
  }

  lemma PlainRowsAreWellFormed(cols: nat)
    requires cols > 0
    ensures WellFormed(MarkedRow(cols).cells) && WellFormed(BlankRow(cols).cells)
  {
  }

  lemma ShiftedMarksAreWellFormed(op: SceneOperation, g: Geometry, m: nat)
    requires g.cols > 0 && op.IsVertical() && HasShape(MarkedRows(g, m), g) && Accepts(MarkedRows(g, m), op, g)
    ensures AllWellFormed(Effect(MarkedRows(g, m), op, g))
  {
    hide WellFormed, MarkedRow, BlankRow;
    PlainRowsAreWellFormed(g.cols);
  }

  lemma MarkedShape(g: Geometry, m: nat)
    requires g.cols > 0
    ensures HasShape(MarkedRows(g, m), g)
    ensures forall i :: 0 <= i < g.rows ==> !MarkedRows(g, m)[i].wrapped
  {
  }

  /**
    * The exact condition. A full-width vertical operation is replayed faithfully on every grid that
    * accepts it if and only if its region has two rows or more, or the screen has one row, or it
    * edits lines and reaches the last row.
    */
  lemma VerticalOperationIsFaithfulIff(op: SceneOperation, g: Geometry)
    requires g.cols > 0 && op.IsVertical() && ExactRegion(op.Region(), g).Some?
    requires op.count > 0 && op.region.origin.col == 0 && op.region.cols == g.cols
    ensures Honoured(op, g) <==>
              forall rows :: HasShape(rows, g) && Accepts(rows, op, g) ==> Simulates(Commands(op, g), rows, Effect(rows, op, g))
  {
    if Honoured(op, g) {
      forall rows | HasShape(rows, g) && Accepts(rows, op, g)
        ensures Simulates(Commands(op, g), rows, Effect(rows, op, g))
      {
        OperationSimulates(rows, op, g);
      }
    } else {
      var rows, vt := DishonouredRegionFails(op, g);
      assert !Simulates(Commands(op, g), rows, Effect(rows, op, g));
    }
  }
}

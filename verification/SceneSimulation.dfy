/** Replaying an accepted operation on the terminal does to the screen what it does to the grid. */
module SceneSimulation {
  import opened Common
  import opened Grid
  import opened VtMachine
  import opened Simulation
  import opened SceneOperations

  // ----- one row -----

  lemma NarrowStaysShown(w: Cells, l: nat, filler: Cell)
    requires !CellIsWide(filler) && forall c :: l <= c < |w| ==> !CellIsWide(w[c])
    ensures forall c :: l <= c < |w| ==> Clean(w, filler)[c] == Canon(w[c])
  {
  }

  lemma InsertBlanksAt(v: Cells, l: nat, n: nat, blank: Cell, filler: Cell, c: nat)
    requires l + n <= |v| && c < |v| && forall k :: l <= k < |v| ==> !v[k].continuation
    ensures InsertBlanks(v, l, n, blank, filler)[c] == if c < l then v[c] else if c < l + n then blank else v[c - n]
  {
    assert SplitAt(SplitAt(v, l, filler), |v| - n, filler) == v;
  }

  lemma DeleteCellsAt(v: Cells, l: nat, n: nat, blank: Cell, filler: Cell, c: nat)
    requires l + n <= |v| && c < |v| && forall k :: l <= k < |v| ==> !v[k].continuation
    ensures DeleteCells(v, l, n, blank, filler)[c] == if c < l then v[c] else if c < |v| - n then v[c + n] else blank
  {
    assert SplitAt(SplitAt(v, l, filler), l + n, filler) == v;
  }

  /** Cells before `l` are cleaned alike in two rows that agree there and are narrow from `l` on. */
  lemma CleanBefore(a: Cells, b: Cells, l: nat, filler: Cell, c: nat)
    requires |a| == |b| && c < l <= |a| && forall k :: 0 <= k < l ==> a[k] == b[k]
    requires forall k :: l <= k < |a| ==> !CellIsWide(a[k]) && !CellIsWide(b[k])
    ensures Clean(a, filler)[c] == Clean(b, filler)[c]
  {
    assert IsOrphan(a, c) <==> IsOrphan(b, c);
  }

  lemma InsertShows(w: Cells, l: nat, n: nat, blank: Cell, filler: Cell)
    requires l + n <= |w| && n > 0 && blank == Canon(BLANK_CELL) && !CellIsWide(filler)
    requires forall c :: l <= c < |w| ==> !CellIsWide(w[c])
    ensures InsertBlanks(Clean(w, filler), l, n, blank, filler) == Clean(InsertedCells(w, l, n), filler)
  {
    hide InsertBlanks, IsOrphan;
    var v, inserted := Clean(w, filler), InsertedCells(w, l, n);
    NarrowStaysShown(w, l, filler);
    NarrowStaysShown(inserted, l, filler);
    var shown := InsertBlanks(v, l, n, blank, filler);
    InsertBlanksLength(v, l, n, blank, filler);
    forall c | 0 <= c < |w|
      ensures shown[c] == Clean(inserted, filler)[c]
    {
      InsertBlanksAt(v, l, n, blank, filler, c);
      if c < l {
        CleanBefore(inserted, w, l, filler, c);
      }
    }
  }

  lemma InsertBlanksLength(v: Cells, l: nat, n: nat, blank: Cell, filler: Cell)
    requires l + n <= |v|
    ensures |InsertBlanks(v, l, n, blank, filler)| == |v| && |DeleteCells(v, l, n, blank, filler)| == |v|
  {
  }

  lemma DeleteShows(w: Cells, l: nat, n: nat, blank: Cell, filler: Cell)
    requires l + n <= |w| && n > 0 && blank == Canon(BLANK_CELL) && !CellIsWide(filler)
    requires forall c :: l <= c < |w| ==> !CellIsWide(w[c])
    ensures DeleteCells(Clean(w, filler), l, n, blank, filler) == Clean(DeletedCells(w, l, n), filler)
  {
    hide DeleteCells, IsOrphan;
    var v, deleted := Clean(w, filler), DeletedCells(w, l, n);
    NarrowStaysShown(w, l, filler);
    NarrowStaysShown(deleted, l, filler);
    var shown := DeleteCells(v, l, n, blank, filler);
    InsertBlanksLength(v, l, n, blank, filler);
    forall c | 0 <= c < |w|
      ensures shown[c] == Clean(deleted, filler)[c]
    {
      DeleteCellsAt(v, l, n, blank, filler, c);
      if c < l {
        CleanBefore(deleted, w, l, filler, c);
      }
    }
  }

  lemma BlanksAreWhole(n: nat)
    requires n > 0
    ensures IsWhole(BlankCells(n))
  {
  }

  lemma ErasedIsBlank(vt: Vt)
    requires vt.pen == DEFAULT_STYLE
    ensures Erased(vt) == Canon(BLANK_CELL)
    ensures ErasedRow(vt, false) == ShownRow(BlankRow(vt.cols), vt.filler)
  {
    assert ErasedRow(vt, false).cells == Clean(BlankCells(vt.cols), vt.filler);
  }

  /** Printing narrow default-styled text is a run of its cells. */
  lemma {:induction false} PrintsAreARun(text: string, cells: Cells, c: nat)
    requires c + |text| <= |cells|
    requires forall k :: 0 <= k < |text| ==> cells[c + k] == TextCells(text)[k]
    ensures Prints(text) == RunBody(cells, c, c + |text|, DEFAULT_STYLE, None)
    decreases |text|
  {
    if text != "" {
      assert cells[c] == TextCells(text)[0];
      forall k | 0 <= k < |text[1..]|
        ensures cells[c + 1 + k] == TextCells(text[1..])[k]
      {
        assert cells[c + (k + 1)] == TextCells(text)[k + 1];
      }
      PrintsAreARun(text[1..], cells, c + 1);
    }
  }

  /** The screen row and cursor that every one-row edit starts from. */
  function At(vt: Vt, row: nat, col: nat): Vt {
    vt.(row := row, col := col)
  }

  lemma CupPlay(vt: Vt, row: nat, col: nat, rest: seq<Command>)
    requires Upright(vt) && row < |vt.rows| && col < vt.cols
    ensures Play(vt, [Cup(row, col)] + rest) == Play(At(vt, row, col), rest)
  {
    PlayCons(vt, Cup(row, col), rest);
  }

  lemma WriteRunShows(vt: Vt, rows: seq<Row>, row: nat, l: nat, text: string)
    requires Ready(vt) && Shows(vt, rows) && row < |rows| && text != "" && l + |text| <= vt.cols
    ensures var vt' := Play(vt, [Cup(row, l)] + Prints(text));
            && |rows[row].cells| == vt.cols && Ready(vt')
            && Shows(vt', WithRowCells(rows, row, Overlay(rows[row].cells, l, TextCells(text))))
  {
    hide RunBody, Prints, WithRowCells, Overlay, Play, WellFormed, TextCells, BlankCells, Shows, IsBoundary;
    var cells := Overlay(BlankCells(vt.cols), l, TextCells(text));
    var at := At(vt, row, l);
    TextOverBlanks(vt.cols, l, text);
    PlacedShows(vt, rows, row, l);
    CupPlay(vt, row, l, Prints(text));
    PrintsAreARun(text, cells, l);
    RunBodyShows(at, rows, cells, l, l + |text|);
    PrintsKeepPen(at, text);
  }

  lemma TextOverBlanks(cols: nat, l: nat, text: string)
    requires l + |text| <= cols
    ensures |BlankCells(cols)| == cols && |TextCells(text)| == |text|
    ensures var cells := Overlay(BlankCells(cols), l, TextCells(text));
      && |cells| == cols && WellFormed(cells)
      && IsBoundary(cells, l) && IsBoundary(cells, l + |text|)
      && (forall k :: 0 <= k < |text| ==> cells[l + k] == TextCells(text)[k])
      && cells[l..l + |text|] == TextCells(text)
  {
    var cells := Overlay(BlankCells(cols), l, TextCells(text));
    assert forall c :: 0 <= c < cols ==> !cells[c].continuation && cells[c].width == 1;
  }

  /** Moving the cursor changes nothing that is shown. */
  lemma PlacedShows(vt: Vt, rows: seq<Row>, row: nat, l: nat)
    requires Shows(vt, rows)
    ensures Shows(At(vt, row, l), rows)
  {
  }

  lemma PrintingKeepsPen(vt: Vt, text: string)
    requires ValidVt(vt)
    ensures Exec(vt, Print(text, 1)).pen == vt.pen && Exec(vt, Print(text, 1)).link == vt.link
  {
    hide Put, ShiftUp;
  }

  lemma {:induction false} PrintsKeepPen(vt: Vt, text: string)
    requires ValidVt(vt)
    ensures Play(vt, Prints(text)).pen == vt.pen && Play(vt, Prints(text)).link == vt.link
    decreases |text|
  {
    hide Play, Exec;
    if text == "" {
      PlayNothing(vt);
    } else {
      PlayCons(vt, Print([text[0]], 1), Prints(text[1..]));
      PrintingKeepsPen(vt, [text[0]]);
      PrintsKeepPen(Exec(vt, Print([text[0]], 1)), text[1..]);
    }
  }

  lemma ShownCells(vt: Vt, rows: seq<Row>, row: nat, l: nat)
    requires Ready(vt) && Shows(vt, rows) && row < |rows|
    ensures |vt.rows| == |rows| && |rows[row].cells| == vt.cols
    ensures CurrentCells(At(vt, row, l)) == Clean(rows[row].cells, vt.filler)
  {
    hide Clean;
    assert vt.rows[row] == ShownRow(rows[row], vt.filler);
    assert |vt.rows[row].cells| == |Clean(rows[row].cells, vt.filler)|;
    ShownLength(rows[row], vt.filler);
  }

  lemma ShownLength(row: Row, filler: Cell)
    ensures |ShownRow(row, filler).cells| == |row.cells|
  {
  }

  /** An edit that leaves the cleaned cells `w` in the cursor row shows `w`. */
  lemma RowEditShows(vt: Vt, rows: seq<Row>, row: nat, l: nat, edit: Command, w: Cells)
    requires Ready(vt) && Shows(vt, rows) && row < |rows| && l < vt.cols && |w| == |rows[row].cells|
    requires |vt.rows| == |rows|
    requires Exec(At(vt, row, l), edit) == WithCells(At(vt, row, l), Clean(w, vt.filler)).(col := l)
    ensures var vt' := Play(vt, [Cup(row, l)] + [edit]);
            Ready(vt') && Shows(vt', WithRowCells(rows, row, w))
  {
    hide Exec, Play, Clean, WithRowCells;
    var at := At(vt, row, l);
    CupPlay(vt, row, l, [edit]);
    PlayOne(at, edit);
    ShowsWithCells(at, rows, w);
  }

  lemma EraseCharsShows(vt: Vt, rows: seq<Row>, row: nat, l: nat, n: nat)
    requires Ready(vt) && Shows(vt, rows) && row < |rows| && n > 0 && l + n <= vt.cols
    ensures var vt' := Play(vt, [Cup(row, l)] + [EraseCharsBy(n)]);
            && |rows[row].cells| == vt.cols && Ready(vt')
            && Shows(vt', WithRowCells(rows, row, Overlay(rows[row].cells, l, BlankCells(n))))
  {
    hide Play, Shows, Clean, Put, Overlay, WithRowCells, IsWhole;
    var at := At(vt, row, l);
    ShownCells(vt, rows, row, l);
    ErasedIsBlank(at);
    BlanksAreWhole(n);
    BlanksAreErased(at, n);
    OverlayLength(rows[row].cells, l, BlankCells(n));
    PutShows(rows[row].cells, l, BlankCells(n), vt.filler);
    RowEditShows(vt, rows, row, l, EraseCharsBy(n), Overlay(rows[row].cells, l, BlankCells(n)));
  }

  lemma BlanksAreErased(vt: Vt, n: nat)
    requires Erased(vt) == Canon(BLANK_CELL)
    ensures CanonAll(BlankCells(n)) == seq(n, _ => Erased(vt))
  {
  }

  lemma InsertCharsShows(vt: Vt, rows: seq<Row>, row: nat, l: nat, n: nat)
    requires Ready(vt) && Shows(vt, rows) && row < |rows| && n > 0 && l + n <= vt.cols == |rows[row].cells|
    requires forall c :: l <= c < vt.cols ==> !CellIsWide(rows[row].cells[c])
    ensures var vt' := Play(vt, [Cup(row, l)] + [InsertCharsBy(n)]);
            && Ready(vt') && Shows(vt', WithRowCells(rows, row, InsertedCells(rows[row].cells, l, n)))
  {
    hide Play, Shows, Clean, InsertBlanks, WithRowCells;
    var at := At(vt, row, l);
    ShownCells(vt, rows, row, l);
    ErasedIsBlank(at);
    InsertShows(rows[row].cells, l, n, Erased(at), at.filler);
    RowEditShows(vt, rows, row, l, InsertCharsBy(n), InsertedCells(rows[row].cells, l, n));
  }

  lemma DeleteCharsShows(vt: Vt, rows: seq<Row>, row: nat, l: nat, n: nat)
    requires Ready(vt) && Shows(vt, rows) && row < |rows| && n > 0 && l + n <= vt.cols == |rows[row].cells|
    requires forall c :: l <= c < vt.cols ==> !CellIsWide(rows[row].cells[c])
    ensures var vt' := Play(vt, [Cup(row, l)] + [DeleteCharsBy(n)]);
            && Ready(vt') && Shows(vt', WithRowCells(rows, row, DeletedCells(rows[row].cells, l, n)))
  {
    hide Play, Shows, Clean, DeleteCells, WithRowCells;
    var at := At(vt, row, l);
    ShownCells(vt, rows, row, l);
    ErasedIsBlank(at);
    DeleteShows(rows[row].cells, l, n, Erased(at), at.filler);
    RowEditShows(vt, rows, row, l, DeleteCharsBy(n), DeletedCells(rows[row].cells, l, n));
  }

  // ----- whole rows -----

  lemma SameErasedRow(a: Vt, b: Vt)
    requires a.pen == b.pen && a.cols == b.cols
    ensures forall wrapped :: ErasedRow(a, wrapped) == ErasedRow(b, wrapped)
  {
    forall wrapped
      ensures ErasedRow(a, wrapped) == ErasedRow(b, wrapped)
    {
      assert ErasedRow(a, wrapped).cells == ErasedRow(b, wrapped).cells;
    }
  }

  /** Clearing rows that were introduced by a scroll removes whatever mark the terminal left on them. */
  lemma {:induction false} ClearRowsPlay(vt: Vt, from: nat, until: nat)
    requires Ready(vt) && from <= until <= |vt.rows|
    ensures var vt' := Play(vt, ClearRows(from, until));
            && Ready(vt') && SameFrame(vt, vt')
            && forall i :: 0 <= i < |vt.rows| ==>
                 vt'.rows[i] == if from <= i < until then ErasedRow(vt, false) else vt.rows[i]
    decreases until - from
  {
    hide Play, ErasedRow;
    if from == until {
      PlayNothing(vt);
    } else {
      var rest := ClearRows(from + 1, until);
      SameErasedRow(vt, At(vt, from, 0));
      SameErasedRow(vt, Exec(At(vt, from, 0), EraseLine));
      assert [Cup(from, 0), EraseLine] + rest == [Cup(from, 0)] + ([EraseLine] + rest);
      CupPlay(vt, from, 0, [EraseLine] + rest);
      PlayCons(At(vt, from, 0), EraseLine, rest);
      ClearRowsPlay(Exec(At(vt, from, 0), EraseLine), from + 1, until);
    }
  }

  /** The terminal honours the region of a vertical operation, or the whole screen serves as well. */
  predicate Honoured(op: SceneOperation, g: Geometry)
    requires ExactRegion(op.Region(), g).Some?
  {
    var span := ExactRegion(op.Region(), g).value;
    op.IsVertical() ==>
      span.top + 2 <= span.bottom || g.rows == 1 || (op.EditsLines() && span.bottom == g.rows)
  }

  /** The rows after the move itself, before introduced rows are cleared. */
  function MovedRows(vt: Vt, op: SceneOperation, span: Span, n: nat): seq<Row>
    requires span.top <= span.bottom <= |vt.rows| && n <= span.bottom - span.top
  {
    var row := ErasedRow(vt, if op.EditsLines() then false else vt.stray);
    if op.MovesUp() then ShiftUp(vt.rows, span.top, span.bottom, n, row) else ShiftDown(vt.rows, span.top, span.bottom, n, row)
  }

  lemma MovePlay(vt: Vt, op: SceneOperation, span: Span, n: nat)
    requires Ready(vt) && op.IsVertical() && span.top < span.bottom <= |vt.rows| && n <= span.bottom - span.top
    requires span.top + 2 <= span.bottom || |vt.rows| == 1 || (op.EditsLines() && span.bottom == |vt.rows|)
    ensures var vt' := Play(vt, [SetRegion(span.top, span.bottom)] + Move(op, span.top, n) + [ResetRegion]);
            && Ready(vt') && SameFrame(vt, vt') && vt'.rows == MovedRows(vt, op, span, n)
  {
    hide Move, Play, ShiftUp, ShiftDown, ErasedRow;
    var regioned := SetScrollRegion(vt, span.top, span.bottom);
    var move := Move(op, span.top, n);
    SameErasedRow(vt, regioned);
    SameErasedRow(vt, At(regioned, span.top, 0));
    PlayAppend(vt, [SetRegion(span.top, span.bottom)] + move, [ResetRegion]);
    PlayCons(vt, SetRegion(span.top, span.bottom), move);
    PlayOne(Play(regioned, move), ResetRegion);
    if op.EditsLines() {
      EditPlay(regioned, op, span.top, n);
    } else {
      ScrollPlay(regioned, op, span.top, n);
    }
  }

  lemma EditPlay(vt: Vt, op: SceneOperation, top: nat, n: nat)
    requires Upright(vt) && op.EditsLines() && vt.top <= top < vt.bottom
    ensures Play(vt, Move(op, top, n)) == ScrollRegion(At(vt, top, 0), top, n, op.DeleteLines?, false).(col := 0)
  {
    hide ScrollRegion;
    var edit := if op.InsertLines? then InsertLinesBy(n) else DeleteLinesBy(n);
    assert Move(op, top, n) == [Cup(top, 0)] + [edit];
    CupPlay(vt, top, 0, [edit]);
    PlayOne(At(vt, top, 0), edit);
  }

  lemma ScrollPlay(vt: Vt, op: SceneOperation, top: nat, n: nat)
    requires ValidVt(vt) && (op.ScrollUp? || op.ScrollDown?)
    ensures Play(vt, Move(op, top, n)) == ScrollRegion(vt, vt.top, n, op.ScrollUp?, vt.stray)
  {
    hide Play, ScrollRegion;
    PlayOne(vt, if op.ScrollUp? then ScrollUpBy(n) else ScrollDownBy(n));
  }

  /** After the introduced rows are cleared, the screen is the shown image of the moved rows. */
  lemma ShiftedUpShow(vt: Vt, rows: seq<Row>, top: nat, bottom: nat, n: nat, introduced: Row, cleared: seq<Row>)
    requires ValidVt(vt) && vt.pen == DEFAULT_STYLE && Shows(vt, rows)
    requires top <= bottom <= |rows| == |cleared| && n <= bottom - top
    requires forall i :: 0 <= i < |rows| ==>
               cleared[i] == if bottom - n <= i < bottom then ErasedRow(vt, false)
                             else ShiftUp(vt.rows, top, bottom, n, introduced)[i]
    ensures forall i :: 0 <= i < |rows| ==>
              cleared[i] == ShownRow(ShiftUp(rows, top, bottom, n, BlankRow(vt.cols))[i], vt.filler)
  {
    hide ShownRow, ErasedRow, BlankRow;
    ErasedIsBlank(vt);
    forall i | 0 <= i < |rows|
      ensures cleared[i] == ShownRow(ShiftUp(rows, top, bottom, n, BlankRow(vt.cols))[i], vt.filler)
    {
      if !(bottom - n <= i < bottom) {
        var k := if top <= i < bottom then i + n else i;
        assert cleared[i] == vt.rows[k] == ShownRow(rows[k], vt.filler);
      }
    }
  }

  lemma ShiftedDownShow(vt: Vt, rows: seq<Row>, top: nat, bottom: nat, n: nat, introduced: Row, cleared: seq<Row>)
    requires ValidVt(vt) && vt.pen == DEFAULT_STYLE && Shows(vt, rows)
    requires top <= bottom <= |rows| == |cleared| && n <= bottom - top
    requires forall i :: 0 <= i < |rows| ==>
               cleared[i] == if top <= i < top + n then ErasedRow(vt, false)
                             else ShiftDown(vt.rows, top, bottom, n, introduced)[i]
    ensures forall i :: 0 <= i < |rows| ==>
              cleared[i] == ShownRow(ShiftDown(rows, top, bottom, n, BlankRow(vt.cols))[i], vt.filler)
  {
    hide ShownRow, ErasedRow, BlankRow;
    ErasedIsBlank(vt);
    forall i | 0 <= i < |rows|
      ensures cleared[i] == ShownRow(ShiftDown(rows, top, bottom, n, BlankRow(vt.cols))[i], vt.filler)
    {
      if !(top <= i < top + n) {
        var k := if top <= i < bottom then i - n else i;
        assert cleared[i] == vt.rows[k] == ShownRow(rows[k], vt.filler);
      }
    }
  }

  lemma VerticalShows(vt: Vt, rows: seq<Row>, op: SceneOperation, g: Geometry)
    requires HasShape(rows, g) && op.IsVertical() && Accepts(rows, op, g) && Honoured(op, g)
    requires Ready(vt) && Shows(vt, rows)
    ensures Ready(Play(vt, Commands(op, g))) && Shows(Play(vt, Commands(op, g)), Effect(rows, op, g))
  {
    hide Move, ClearRows, Play, BlankRow;
    var span := ExactRegion(op.Region(), g).value;
    var n := Distance(op, span);
    var move := [SetRegion(span.top, span.bottom)] + Move(op, span.top, n) + [ResetRegion];
    MovePlay(vt, op, span, n);
    var moved := Play(vt, move);
    var from, until := if op.MovesUp() then span.bottom - n else span.top, if op.MovesUp() then span.bottom else span.top + n;
    assert vt.rows[0] == ShownRow(rows[0], vt.filler);
    var clear := if op.EditsLines() then [] else ClearRows(from, until);
    assert Commands(op, g) == move + clear;
    PlayAppend(vt, move, clear);
    if op.EditsLines() {
      PlayNothing(moved);
    } else {
      ClearRowsPlay(moved, from, until);
      SameErasedRow(vt, moved);
    }
    var introduced := ErasedRow(vt, if op.EditsLines() then false else vt.stray);
    if op.MovesUp() {
      ShiftedUpShow(vt, rows, span.top, span.bottom, n, introduced, Play(moved, clear).rows);
    } else {
      ShiftedDownShow(vt, rows, span.top, span.bottom, n, introduced, Play(moved, clear).rows);
    }
  }

  // ----- every operation -----

  /**
    * On every terminal that shows `rows` and honours the region, the emitted commands leave it
    * showing the meaning of the operation: any widths, any soft-wrap marks, any blank a terminal
    * puts in place of a cut character.
    */
  lemma OperationSimulates(rows: seq<Row>, op: SceneOperation, g: Geometry)
    requires HasShape(rows, g) && Accepts(rows, op, g) && Honoured(op, g)
    ensures Simulates(Commands(op, g), rows, Effect(rows, op, g))
  {
    forall vt: Vt | Ready(vt) && Shows(vt, rows)
      ensures Ready(Play(vt, Commands(op, g))) && Shows(Play(vt, Commands(op, g)), Effect(rows, op, g))
    {
      OperationShows(vt, rows, op, g);
    }
  }

  lemma OperationShows(vt: Vt, rows: seq<Row>, op: SceneOperation, g: Geometry)
    requires HasShape(rows, g) && Accepts(rows, op, g) && Honoured(op, g)
    requires Ready(vt) && Shows(vt, rows)
    ensures Ready(Play(vt, Commands(op, g))) && Shows(Play(vt, Commands(op, g)), Effect(rows, op, g))
  {
    if op.IsVertical() {
      VerticalShows(vt, rows, op, g);
    } else {
      var span := ExactRegion(op.Region(), g).value;
      var n := Distance(op, span);
      assert vt.rows[span.top] == ShownRow(rows[span.top], vt.filler);
      match op
      case InsertChars(_, _) => InsertCharsShows(vt, rows, span.top, span.left, n);
      case DeleteChars(_, _) => DeleteCharsShows(vt, rows, span.top, span.left, n);
      case WriteRun(_, text) => WriteRunShows(vt, rows, span.top, span.left, text);
      case EraseChars(_) => EraseCharsShows(vt, rows, span.top, span.left, n);
    }
  }
}

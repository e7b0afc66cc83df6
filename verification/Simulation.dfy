/** When a terminal shows a grid, and that each control function keeps terminal and grid in step. */
module Simulation {
  import opened Common
  import opened Grid
  import opened VtMachine

  // ----- the relation -----

  /** The terminal shows `rows`: every row with its soft-wrap mark, orphans blanked. */
  ghost predicate Shows(vt: Vt, rows: seq<Row>) {
    |vt.rows| == |rows| && forall i :: 0 <= i < |rows| ==> vt.rows[i] == ShownRow(rows[i], vt.filler)
  }

  ghost predicate Upright(vt: Vt) {
    ValidVt(vt) && !vt.originMode
  }

  ghost predicate PenReset(vt: Vt) {
    vt.pen == DEFAULT_STYLE && vt.link == None
  }

  ghost predicate FullRegion(vt: Vt) {
    vt.top == 0 && vt.bottom == |vt.rows|
  }

  ghost predicate Ready(vt: Vt) {
    Upright(vt) && PenReset(vt) && FullRegion(vt)
  }

  /** Everything about the terminal except its cells, its cursor and its pen. */
  ghost predicate SameFrame(vt: Vt, vt': Vt) {
    && vt'.top == vt.top && vt'.bottom == vt.bottom && vt'.originMode == vt.originMode
    && vt'.filler == vt.filler && vt'.stray == vt.stray && vt'.cols == vt.cols && |vt'.rows| == |vt.rows|
    && vt'.cursorVisible == vt.cursorVisible && vt'.cursorShape == vt.cursorShape
  }

  /** On every ready terminal showing `before`, the commands leave it ready and showing `after`. */
  ghost predicate Simulates(commands: seq<Command>, before: seq<Row>, after: seq<Row>) {
    forall vt: Vt {:trigger Play(vt, commands)} :: Ready(vt) && Shows(vt, before) ==>
      Ready(Play(vt, commands)) && Shows(Play(vt, commands), after)
  }

  lemma SimulatesNothing(rows: seq<Row>)
    ensures Simulates([], rows, rows)
  {
  }

  lemma SimulatesThen(c1: seq<Command>, c2: seq<Command>, a: seq<Row>, b: seq<Row>, c: seq<Row>)
    requires Simulates(c1, a, b) && Simulates(c2, b, c)
    ensures Simulates(c1 + c2, a, c)
  {
    forall vt: Vt | Ready(vt) && Shows(vt, a)
      ensures Ready(Play(vt, c1 + c2)) && Shows(Play(vt, c1 + c2), c)
    {
      PlayAppend(vt, c1, c2);
      assert Ready(Play(vt, c1)) && Shows(Play(vt, c1), b);
    }
  }

  // ----- laying cells over a row -----

  function CanonAll(cells: Cells): (r: Cells)
    ensures |r| == |cells| && forall c :: 0 <= c < |cells| ==> r[c] == Canon(cells[c])
  {
    seq(|cells|, c requires 0 <= c < |cells| => Canon(cells[c]))
  }

  /** Only whole characters, so that laying it over a row cuts nothing inside it. */
  predicate IsWhole(piece: Cells) {
    |piece| > 0 && forall k :: 0 <= k < |piece| ==> !IsOrphan(piece, k)
  }

  lemma PutShows(w: Cells, l: nat, piece: Cells, filler: Cell)
    requires IsWhole(piece) && l + |piece| <= |w| && !CellIsWide(filler)
    ensures Put(Clean(w, filler), l, CanonAll(piece), filler) == Clean(Overlay(w, l, piece), filler)
  {
    var put, clean := Put(Clean(w, filler), l, CanonAll(piece), filler), Clean(Overlay(w, l, piece), filler);
    forall c | 0 <= c < |w|
      ensures put[c] == clean[c]
    {
      if l <= c < l + |piece| {
        InsideOverlay(w, l, piece, c);
      } else {
        OutsideOverlay(w, l, piece, filler, c);
      }
    }
  }

  /** Outside the piece only the two neighbours can change, and they change as the terminal changes them. */
  lemma OutsideOverlay(w: Cells, l: nat, piece: Cells, filler: Cell, c: nat)
    requires IsWhole(piece) && l + |piece| <= |w| && !CellIsWide(filler)
    requires c < |w| && !(l <= c < l + |piece|)
    ensures Put(Clean(w, filler), l, CanonAll(piece), filler)[c] == Clean(Overlay(w, l, piece), filler)[c]
  {
    hide Clean, Overlay;
    var r := l + |piece|;
    var over, v := Overlay(w, l, piece), Clean(w, filler);
    var put := Put(v, l, CanonAll(piece), filler);
    assert !piece[0].continuation by { assert !IsOrphan(piece, 0); }
    assert !IsLead(piece[|piece| - 1]) by { assert !IsOrphan(piece, |piece| - 1); }
    assert over[l] == piece[0] && over[r - 1] == piece[|piece| - 1];
    assert over[c] == w[c];
    if c + 1 == l {
      assert v[l].continuation <==> w[l].continuation && IsLead(w[c]);
    } else if c == r {
      assert IsLead(v[c - 1]) <==> IsLead(w[c - 1]) && w[c].continuation;
    } else {
      assert put[c] == v[c];
      assert IsOrphan(over, c) <==> IsOrphan(w, c);
      assert Clean(over, filler)[c] == v[c];
    }
  }

  lemma InsideOverlay(w: Cells, l: nat, piece: Cells, c: nat)
    requires IsWhole(piece) && l <= c < l + |piece| <= |w|
    ensures !IsOrphan(Overlay(w, l, piece), c)
  {
    var over := Overlay(w, l, piece);
    var k := c - l;
    assert !IsOrphan(piece, k);
    assert over[c] == piece[k];
    if k > 0 {
      assert over[c - 1] == piece[k - 1];
    }
    if k + 1 < |piece| {
      assert over[c + 1] == piece[k + 1];
    }
  }

  /** The rows with the cells of row `r` replaced. */
  function WithRowCells(rows: seq<Row>, r: nat, cells: Cells): (rows': seq<Row>)
    requires r < |rows|
    ensures |rows'| == |rows|
  {
    rows[r := rows[r].(cells := cells)]
  }

  lemma ShowsWithCells(vt: Vt, rows: seq<Row>, w: Cells)
    requires ValidVt(vt) && Shows(vt, rows) && |w| == |rows[vt.row].cells|
    ensures Shows(WithCells(vt, Clean(w, vt.filler)), WithRowCells(rows, vt.row, w))
  {
  }

  lemma ShowsPut(vt: Vt, rows: seq<Row>, l: nat, piece: Cells)
    requires ValidVt(vt) && Shows(vt, rows) && IsWhole(piece) && l + |piece| <= vt.cols
    ensures l + |piece| <= |rows[vt.row].cells|
    ensures Shows(WithCells(vt, Put(CurrentCells(vt), l, CanonAll(piece), vt.filler)),
                  WithRowCells(rows, vt.row, Overlay(rows[vt.row].cells, l, piece)))
  {
    assert vt.rows[vt.row] == ShownRow(rows[vt.row], vt.filler);
    PutShows(rows[vt.row].cells, l, piece, vt.filler);
    ShowsWithCells(vt, rows, Overlay(rows[vt.row].cells, l, piece));
  }

  // ----- runs of cells -----

  function CellText(cell: Cell): string {
    if cell.grapheme == "" then " " else cell.grapheme
  }

  /** The columns the text of a cell takes when it is printed. */
  function TextWidth(cell: Cell): nat {
    if IsBlank(cell.grapheme) then 1 else cell.width
  }

  /** Setting link and pen the way the run does. */
  function PenCommands(cell: Cell, style: Style, link: Option<string>): seq<Command> {
    (if cell.hyperlink != link then [SetLink(cell.hyperlink)] else [])
    + (if cell.style != style then [SetStyle(cell.style)] else [])
  }

  /** The loop of a run from column `c`, with the pen at `style` and `link`. */
  function RunBody(cells: Cells, c: nat, end: nat, style: Style, link: Option<string>): seq<Command>
    requires c <= end <= |cells|
    decreases end - c
  {
    if c == end then if link.Some? then [SetLink(None)] else []
    else if cells[c].continuation then RunBody(cells, c + 1, end, style, link)
    else
      PenCommands(cells[c], style, link)
      + [Print(CellText(cells[c]), TextWidth(cells[c]))]
      + RunBody(cells, c + 1, end, cells[c].style, cells[c].hyperlink)
  }

  function RunCommands(row: nat, start: nat, end: nat, cells: Cells): seq<Command>
    requires start <= end <= |cells|
  {
    [Cup(row, start), ResetStyle, SetLink(None)] + RunBody(cells, start, end, DEFAULT_STYLE, None) + [ResetStyle]
  }

  /** A cut at column `c` splits no wide character. */
  predicate IsBoundary(cells: Cells, c: nat) {
    c < |cells| ==> !cells[c].continuation
  }

  /** The whole character at column `c`. */
  function CharAt(cells: Cells, c: nat): (r: Cells)
    requires WellFormed(cells) && c < |cells| && !cells[c].continuation
    ensures |r| == cells[c].width && c + |r| <= |cells| && r == cells[c..c + |r|]
    ensures IsWhole(r) && IsBoundary(cells, c + |r|)
  {
    assert !IsOrphan(cells, c);
    if cells[c].width == 1 then
      assert c + 1 < |cells| ==> !IsOrphan(cells, c + 1);
      cells[c..c + 1]
    else
      assert c + 2 < |cells| ==> !IsOrphan(cells, c + 2);
      cells[c..c + 2]
  }

  lemma PrintedCharacter(vt: Vt, cells: Cells, c: nat)
    requires WellFormed(cells) && c < |cells| && !cells[c].continuation
    requires vt.pen == cells[c].style && vt.link == cells[c].hyperlink
    ensures TextWidth(cells[c]) == |CharAt(cells, c)|
    ensures PrintedPiece(vt, CellText(cells[c]), TextWidth(cells[c])) == CanonAll(CharAt(cells, c))
  {
    assert !IsOrphan(cells, c);
    if cells[c].width == 2 {
      assert !IsOrphan(cells, c + 1);
    }
  }

  lemma PenCommandsPlay(vt: Vt, cell: Cell)
    requires ValidVt(vt)
    ensures Play(vt, PenCommands(cell, vt.pen, vt.link)) == vt.(pen := cell.style, link := cell.hyperlink)
  {
    var linked := vt.(link := cell.hyperlink);
    if cell.hyperlink != vt.link && cell.style != vt.pen {
      PlayCons(vt, SetLink(cell.hyperlink), [SetStyle(cell.style)]);
      PlayOne(linked, SetStyle(cell.style));
    } else if cell.hyperlink != vt.link {
      PlayOne(vt, SetLink(cell.hyperlink));
    } else if cell.style != vt.pen {
      PlayOne(vt, SetStyle(cell.style));
    }
  }

  /** One character of a run. */
  lemma CharacterShows(vt: Vt, rows: seq<Row>, cells: Cells, c: nat)
    requires ValidVt(vt) && Shows(vt, rows) && |cells| == vt.cols && WellFormed(cells)
    requires vt.col == c < |cells| && !cells[c].continuation
    ensures var commands := PenCommands(cells[c], vt.pen, vt.link) + [Print(CellText(cells[c]), TextWidth(cells[c]))];
            var vt' := Play(vt, commands);
            && |rows[vt.row].cells| == vt.cols
            && SameFrame(vt, vt') && vt'.row == vt.row && vt'.col == c + |CharAt(cells, c)|
            && vt'.pen == cells[c].style && vt'.link == cells[c].hyperlink
            && Shows(vt', WithRowCells(rows, vt.row, Overlay(rows[vt.row].cells, c, CharAt(cells, c))))
  {
    hide Play, Overlay, WithRowCells, Put, WellFormed, CanonAll;
    var pen := PenCommands(cells[c], vt.pen, vt.link);
    var text := Print(CellText(cells[c]), TextWidth(cells[c]));
    var ready := vt.(pen := cells[c].style, link := cells[c].hyperlink);
    PenCommandsPlay(vt, cells[c]);
    PlayAppend(vt, pen, [text]);
    PlayOne(ready, text);
    PrintedCharacter(ready, cells, c);
    assert Exec(ready, text) == PrintHere(ready, CellText(cells[c]), TextWidth(cells[c]));
    ShowsPut(ready, rows, c, CharAt(cells, c));
  }

  lemma WithRowCellsTwice(rows: seq<Row>, r: nat, first: Cells, second: Cells)
    requires r < |rows|
    ensures WithRowCells(rows, r, first)[r].cells == first
    ensures WithRowCells(WithRowCells(rows, r, first), r, second) == WithRowCells(rows, r, second)
    ensures WithRowCells(rows, r, rows[r].cells) == rows
  {
  }

  lemma OverlayNothing(w: Cells, c: nat, piece: Cells)
    requires piece == [] && c <= |w|
    ensures Overlay(w, c, piece) == w
  {
  }

  lemma ShownWidth(vt: Vt, rows: seq<Row>)
    requires ValidVt(vt) && Shows(vt, rows)
    ensures |rows| == |vt.rows| && |rows[vt.row].cells| == vt.cols
  {
    assert vt.rows[vt.row] == ShownRow(rows[vt.row], vt.filler);
  }

  lemma OverlayTwice(w: Cells, cells: Cells, c: nat, m: nat, end: nat)
    requires c <= m <= end <= |cells| == |w|
    ensures Overlay(Overlay(w, c, cells[c..m]), m, cells[m..end]) == Overlay(w, c, cells[c..end])
  {
  }

  lemma RunBodyStep(cells: Cells, c: nat, end: nat, style: Style, link: Option<string>)
    requires WellFormed(cells) && c < end <= |cells| && !cells[c].continuation && IsBoundary(cells, end)
    ensures c + |CharAt(cells, c)| <= end
    ensures RunBody(cells, c, end, style, link)
         == PenCommands(cells[c], style, link) + [Print(CellText(cells[c]), TextWidth(cells[c]))]
            + RunBody(cells, c + |CharAt(cells, c)|, end, cells[c].style, cells[c].hyperlink)
  {
    var n := |CharAt(cells, c)|;
    assert !IsOrphan(cells, c);
    if n == 2 {
      assert cells[c + 1].continuation;
      assert RunBody(cells, c + 1, end, cells[c].style, cells[c].hyperlink)
          == RunBody(cells, c + 2, end, cells[c].style, cells[c].hyperlink);
    }
  }

  lemma {:induction false} RunBodyShows(vt: Vt, rows: seq<Row>, cells: Cells, c: nat, end: nat)
    requires ValidVt(vt) && Shows(vt, rows) && |cells| == vt.cols && WellFormed(cells)
    requires vt.col == c <= end <= |cells| && IsBoundary(cells, end) && (c < end ==> IsBoundary(cells, c))
    ensures var vt' := Play(vt, RunBody(cells, c, end, vt.pen, vt.link));
            && |rows[vt.row].cells| == vt.cols
            && SameFrame(vt, vt') && vt'.row == vt.row && vt'.link == None
            && Shows(vt', WithRowCells(rows, vt.row, Overlay(rows[vt.row].cells, c, cells[c..end])))
    decreases end - c
  {
    hide Play, Overlay, WellFormed, Clean, WithRowCells, PenCommands, ShownRow;
    ShownWidth(vt, rows);
    var w := rows[vt.row].cells;
    if c == end {
      OverlayNothing(w, c, cells[c..end]);
      WithRowCellsTwice(rows, vt.row, w, w);
      PlayNothing(vt);
      PlayOne(vt, Command.SetLink(None));
    } else {
      var whole := CharAt(cells, c);
      var first := PenCommands(cells[c], vt.pen, vt.link) + [Print(CellText(cells[c]), TextWidth(cells[c]))];
      var m := c + |whole|;
      RunBodyStep(cells, c, end, vt.pen, vt.link);
      CharacterShows(vt, rows, cells, c);
      var vt1 := Play(vt, first);
      var rows1 := WithRowCells(rows, vt.row, Overlay(w, c, whole));
      PlayAppend(vt, first, RunBody(cells, m, end, cells[c].style, cells[c].hyperlink));
      RunBodyShows(vt1, rows1, cells, m, end);
      OverlayTwice(w, cells, c, m, end);
      WithRowCellsTwice(rows, vt.row, Overlay(w, c, whole), Overlay(w, c, cells[c..end]));
    }
  }

  lemma ProloguePlay(vt: Vt, row: nat, start: nat)
    requires Upright(vt) && row < |vt.rows| && start < vt.cols
    ensures Play(vt, [Cup(row, start), ResetStyle, SetLink(None)])
         == vt.(row := row, col := start, pen := DEFAULT_STYLE, link := None)
  {
    hide Play;
    PlayThree(vt, Cup(row, start), ResetStyle, SetLink(None));
  }

  lemma RunPlay(vt: Vt, row: nat, start: nat, end: nat, cells: Cells)
    requires Upright(vt) && row < |vt.rows| && start < vt.cols && start <= end <= |cells|
    ensures Play(vt, RunCommands(row, start, end, cells))
         == Play(vt.(row := row, col := start, pen := DEFAULT_STYLE, link := None),
                 RunBody(cells, start, end, DEFAULT_STYLE, None)).(pen := DEFAULT_STYLE)
  {
    hide RunBody;
    var prologue := [Cup(row, start), ResetStyle, SetLink(None)];
    var body := RunBody(cells, start, end, DEFAULT_STYLE, None);
    ProloguePlay(vt, row, start);
    PlayAppend(vt, prologue + body, [ResetStyle]);
    PlayAppend(vt, prologue, body);
    PlayOne(Play(vt, prologue + body), ResetStyle);
  }

  /** A run that cuts no character of its own row shows exactly those cells, whatever was there. */
  lemma RunShows(vt: Vt, rows: seq<Row>, row: nat, start: nat, end: nat, cells: Cells)
    requires Upright(vt) && Shows(vt, rows) && row < |rows| && |cells| == vt.cols && WellFormed(cells)
    requires start < end <= |cells| && IsBoundary(cells, start) && IsBoundary(cells, end)
    ensures var vt' := Play(vt, RunCommands(row, start, end, cells));
            && |rows[row].cells| == vt.cols
            && SameFrame(vt, vt') && Upright(vt') && PenReset(vt')
            && Shows(vt', WithRowCells(rows, row, Overlay(rows[row].cells, start, cells[start..end])))
  {
    hide RunBody, RunCommands, Overlay, WithRowCells, WellFormed, Play;
    var placed := vt.(row := row, col := start, pen := DEFAULT_STYLE, link := None);
    RunPlay(vt, row, start, end, cells);
    RunBodyShows(placed, rows, cells, start, end);
  }
}

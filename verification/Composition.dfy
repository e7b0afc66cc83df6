/** Layer composition: panes and overlays painted onto one grid of rows. */
module Composition {
  import opened Common
  import opened Grid
  import opened SceneOperations

  const MAX_U16: nat := 0xffff

  datatype Surface = Surface(id: nat, origin: GridPoint, geometry: Geometry, rows: seq<Row>)

  datatype SceneOverlay = SceneOverlay(surface: Surface, zIndex: int, order: nat)

  datatype Scene = Scene(geometry: Geometry, panes: seq<Surface>, overlays: seq<SceneOverlay>)

  predicate SurfaceFits(s: Surface) {
    && |s.rows| <= MAX_I32 && s.geometry.cols <= MAX_U16
    && s.origin.row <= MAX_I32 && s.origin.col <= MAX_I32
    && forall i :: 0 <= i < |s.rows| ==> |s.rows[i].cells| <= MAX_I32
  }

  /** 16-bit screens, and overlays numbered by their position. */
  predicate SceneFits(scene: Scene) {
    && scene.geometry.rows <= MAX_U16 && scene.geometry.cols <= MAX_U16
    && (forall i :: 0 <= i < |scene.panes| ==> SurfaceFits(scene.panes[i]))
    && (forall i :: 0 <= i < |scene.overlays| ==>
          SurfaceFits(scene.overlays[i].surface) && scene.overlays[i].order == i)
  }

  // ----- one surface -----

  /** The surface has a row at screen row `r`. */
  predicate HasRow(s: Surface, r: int) {
    0 <= r - s.origin.row < |s.rows|
  }

  predicate HasCell(s: Surface, r: int, c: int) {
    HasRow(s, r) && 0 <= c - s.origin.col < |s.rows[r - s.origin.row].cells|
  }

  predicate SpansWidth(s: Surface, g: Geometry) {
    s.origin.col <= 0 && SaturatingAdd(s.origin.col, s.geometry.cols) >= g.cols
  }

  function PaintedCell(s: Surface, r: int, c: int, under: Cell): Cell {
    if HasCell(s, r, c) then s.rows[r - s.origin.row].cells[c - s.origin.col] else under
  }

  function PaintedWrap(s: Surface, g: Geometry, r: int, under: bool): bool {
    if HasRow(s, r) && SpansWidth(s, g) then s.rows[r - s.origin.row].wrapped else under
  }

  function PaintedRow(s: Surface, g: Geometry, r: int, under: Row): (row: Row)
    ensures |row.cells| == |under.cells|
  {
    Row(seq(|under.cells|, c requires 0 <= c < |under.cells| => PaintedCell(s, r, c, under.cells[c])),
        PaintedWrap(s, g, r, under.wrapped))
  }

  ghost predicate IsBlit(rows: seq<Row>, s: Surface, g: Geometry, under: seq<Row>) {
    |rows| == |under| && forall r :: 0 <= r < |rows| ==> rows[r] == PaintedRow(s, g, r, under[r])
  }

  lemma UntouchedRow(s: Surface, g: Geometry, r: int, under: Row)
    requires !HasRow(s, r)
    ensures PaintedRow(s, g, r, under) == under
  {
    assert PaintedRow(s, g, r, under).cells == under.cells;
  }

  method BlitRow(source: Row, s: Surface, under: Cells) returns (cells: Cells)
    requires SurfaceFits(s) && |source.cells| <= MAX_I32 && |under| <= MAX_U16
    ensures |cells| == |under|
    ensures forall c :: 0 <= c < |cells| ==>
              cells[c] == if 0 <= c - s.origin.col < |source.cells| then source.cells[c - s.origin.col] else under[c]
  {
    cells := under;
    for col := 0 to |source.cells|
      invariant |cells| == |under|
      invariant forall c :: 0 <= c < |cells| ==>
                  cells[c] == if 0 <= c - s.origin.col < col then source.cells[c - s.origin.col] else under[c]
    {
      var targetCol := SaturatingAdd(s.origin.col, col);
      if targetCol < 0 || targetCol >= |under| {
        continue;
      }
      cells := cells[targetCol := source.cells[col]];
    }
  }

  method BlitSurface(under: seq<Row>, g: Geometry, s: Surface) returns (rows: seq<Row>)
    requires SurfaceFits(s) && g.rows <= MAX_U16 && g.cols <= MAX_U16 && HasShape(under, g)
    ensures IsBlit(rows, s, g, under) && HasShape(rows, g)
  {
    rows := under;
    for index := 0 to |s.rows|
      invariant |rows| == |under|
      invariant forall r :: 0 <= r < |rows| ==>
                  rows[r] == if 0 <= r - s.origin.row < index then PaintedRow(s, g, r, under[r]) else under[r]
    {
      var targetRow := SaturatingAdd(s.origin.row, index);
      if targetRow < 0 || targetRow >= g.rows {
        continue;
      }
      var cells := BlitRow(s.rows[index], s, rows[targetRow].cells);
      var wrapped := if s.origin.col <= 0 && SaturatingAdd(s.origin.col, s.geometry.cols) >= g.cols
                     then s.rows[index].wrapped else rows[targetRow].wrapped;
      ghost var painted := PaintedRow(s, g, targetRow, under[targetRow]);
      assert cells == painted.cells;
      rows := rows[targetRow := Row(cells, wrapped)];
    }
    forall r | 0 <= r < |rows|
      ensures rows[r] == PaintedRow(s, g, r, under[r])
    {
      if !HasRow(s, r) {
        UntouchedRow(s, g, r, under[r]);
      }
    }
  }

  // ----- the whole scene -----

  function Surfaces(overlays: seq<SceneOverlay>): (surfaces: seq<Surface>)
    ensures |surfaces| == |overlays|
    ensures forall i :: 0 <= i < |overlays| ==> surfaces[i] == overlays[i].surface
  {
    seq(|overlays|, i requires 0 <= i < |overlays| => overlays[i].surface)
  }

  function SortedOverlays(overlays: seq<SceneOverlay>): seq<SceneOverlay> {
    SortByKey(overlays, (o: SceneOverlay) => o.zIndex)
  }

  /** Back to front. */
  function Stack(scene: Scene): seq<Surface> {
    scene.panes + Surfaces(SortedOverlays(scene.overlays))
  }

  /** The cell of the last surface of the stack that has one here, else `under`. */
  function TopCell(stack: seq<Surface>, r: int, c: int, under: Cell): Cell {
    if stack == [] then under
    else PaintedCell(stack[|stack| - 1], r, c, TopCell(stack[..|stack| - 1], r, c, under))
  }

  function TopWrap(stack: seq<Surface>, g: Geometry, r: int, under: bool): bool {
    if stack == [] then under
    else PaintedWrap(stack[|stack| - 1], g, r, TopWrap(stack[..|stack| - 1], g, r, under))
  }

  /** `rows` is what painting the stack on a blank screen shows. */
  ghost predicate ShowsStack(rows: seq<Row>, stack: seq<Surface>, g: Geometry) {
    && HasShape(rows, g)
    && forall r :: 0 <= r < g.rows ==>
         && rows[r].wrapped == TopWrap(stack, g, r, false)
         && forall c :: 0 <= c < g.cols ==> rows[r].cells[c] == TopCell(stack, r, c, BLANK_CELL)
  }

  predicate CoversScene(s: Surface, g: Geometry) {
    s.origin == GridPoint(0, 0) && s.geometry == g && |s.rows| == g.rows
  }

  predicate RowsFill(s: Surface) {
    forall i :: 0 <= i < |s.rows| ==> |s.rows[i].cells| == s.geometry.cols
  }

  lemma BlitShowsMore(rows: seq<Row>, stack: seq<Surface>, s: Surface, under: seq<Row>, g: Geometry)
    requires ShowsStack(under, stack, g) && IsBlit(rows, s, g, under)
    ensures ShowsStack(rows, stack + [s], g)
  {
    assert (stack + [s])[..|stack|] == stack;
    forall r | 0 <= r < g.rows
      ensures |rows[r].cells| == g.cols
      ensures rows[r].wrapped == TopWrap(stack + [s], g, r, false)
      ensures forall c :: 0 <= c < g.cols ==> rows[r].cells[c] == TopCell(stack + [s], r, c, BLANK_CELL)
    {
      assert rows[r] == PaintedRow(s, g, r, under[r]);
    }
  }

  function BlankRows(g: Geometry): (rows: seq<Row>)
    ensures HasShape(rows, g)
  {
    seq(g.rows, _ => BlankRow(g.cols))
  }

  /**
    * The shortcut for a first pane that covers the scene is the same as blitting it onto a blank
    * screen exactly when each of its rows has one cell a column.
    */
  lemma SharedRowsAreABlit(s: Surface, g: Geometry)
    requires CoversScene(s, g) && g.cols <= MAX_U16
    ensures IsBlit(s.rows, s, g, BlankRows(g)) <==> RowsFill(s)
  {
    var blank := BlankRows(g);
    if RowsFill(s) {
      forall r | 0 <= r < |s.rows|
        ensures s.rows[r] == PaintedRow(s, g, r, blank[r])
      {
        assert s.rows[r].cells == PaintedRow(s, g, r, blank[r]).cells;
      }
    }
    if IsBlit(s.rows, s, g, blank) {
      forall i | 0 <= i < |s.rows|
        ensures |s.rows[i].cells| == s.geometry.cols
      {
        assert s.rows[i] == PaintedRow(s, g, i, blank[i]);
      }
    }
  }

  lemma BlankShowsNothing(g: Geometry)
    ensures ShowsStack(BlankRows(g), [], g)
  {
  }

  lemma StackIsFit(scene: Scene)
    requires SceneFits(scene)
    ensures forall i :: 0 <= i < |Stack(scene)| ==> SurfaceFits(Stack(scene)[i])
  {
    hide SurfaceFits;
    var sorted := SortedOverlays(scene.overlays);
    SameElements(sorted, scene.overlays);
    forall i | 0 <= i < |sorted|
      ensures SurfaceFits(sorted[i].surface)
    {
      assert sorted[i] in sorted;
      var k :| 0 <= k < |scene.overlays| && scene.overlays[k] == sorted[i];
    }
  }

  /** Paints surfaces in order over what the stack below them shows. */
  method PaintAll(under: seq<Row>, g: Geometry, surfaces: seq<Surface>, ghost below: seq<Surface>)
    returns (rows: seq<Row>)
    requires g.rows <= MAX_U16 && g.cols <= MAX_U16 && ShowsStack(under, below, g)
    requires forall i :: 0 <= i < |surfaces| ==> SurfaceFits(surfaces[i])
    ensures ShowsStack(rows, below + surfaces, g)
  {
    hide IsBlit, TopCell, TopWrap, SurfaceFits, ShowsStack;
    ShapeOf(under, below, g);
    rows := under;
    assert below + surfaces[..0] == below;
    for k := 0 to |surfaces|
      invariant HasShape(rows, g)
      invariant ShowsStack(rows, below + surfaces[..k], g)
    {
      var next := BlitSurface(rows, g, surfaces[k]);
      BlitShowsMore(next, below + surfaces[..k], surfaces[k], rows, g);
      assert below + surfaces[..k + 1] == below + surfaces[..k] + [surfaces[k]];
      rows := next;
    }
    assert surfaces[..|surfaces|] == surfaces;
  }

  /** Every composed cell and wrap flag comes from the topmost surface that provides it. */
  method ComposeRows(scene: Scene) returns (rows: seq<Row>)
    requires SceneFits(scene)
    requires scene.panes != [] && CoversScene(scene.panes[0], scene.geometry) ==> RowsFill(scene.panes[0])
    ensures ShowsStack(rows, Stack(scene), scene.geometry)
  {
    hide ShowsStack, IsBlit, TopCell, TopWrap, SurfaceFits, SortedOverlays, HasShape;
    var g, panes := scene.geometry, scene.panes;
    StackIsFit(scene);
    BlankShowsNothing(g);
    rows := BlankRows(g);
    var overlays := Surfaces(SortedOverlays(scene.overlays));
    PanesAndOverlaysFit(scene, overlays);
    if panes != [] && CoversScene(panes[0], g) {
      var first := panes[0];
      SharedRowsAreABlit(first, g);
      BlitShowsMore(first.rows, [], first, rows, g);
      assert [] + [first] == [first] && [first] + panes[1..] == panes;
      rows := PaintAll(first.rows, g, panes[1..], [first]);
    } else {
      assert [] + panes == panes;
      rows := PaintAll(rows, g, panes, []);
    }
    rows := PaintAll(rows, g, overlays, panes);
  }

  lemma PanesAndOverlaysFit(scene: Scene, overlays: seq<Surface>)
    requires SceneFits(scene) && overlays == Surfaces(SortedOverlays(scene.overlays))
    ensures forall i :: 0 <= i < |overlays| ==> SurfaceFits(overlays[i])
    ensures forall i :: 0 <= i < |scene.panes| ==> SurfaceFits(scene.panes[i])
    ensures Stack(scene) == scene.panes + overlays
  {
    StackIsFit(scene);
    forall i | 0 <= i < |overlays|
      ensures SurfaceFits(overlays[i])
    {
      assert Stack(scene)[|scene.panes| + i] == overlays[i];
    }
  }

  lemma ShapeOf(rows: seq<Row>, stack: seq<Surface>, g: Geometry)
    requires ShowsStack(rows, stack, g)
    ensures HasShape(rows, g)
  {
  }

  /** The surface has a cell at (`r`, `c`) of the screen. */
  ghost predicate Reaches(s: Surface, r: int, c: int) {
    && s.origin.row <= r < s.origin.row + |s.rows|
    && s.origin.col <= c < s.origin.col + |s.rows[r - s.origin.row].cells|
  }

  /** It has a row there and its columns span the whole screen. */
  ghost predicate ReachesAcross(s: Surface, g: Geometry, r: int) {
    && s.origin.row <= r < s.origin.row + |s.rows|
    && s.origin.col <= 0 && s.origin.col + s.geometry.cols >= g.cols
  }

  /** The top cell belongs to the last surface that has a cell there. */
  lemma {:induction false} TopCellIsTheLast(stack: seq<Surface>, k: nat, r: int, c: int, under: Cell)
    requires k < |stack| && Reaches(stack[k], r, c)
    requires forall i :: k < i < |stack| ==> !Reaches(stack[i], r, c)
    ensures TopCell(stack, r, c, under) == stack[k].rows[r - stack[k].origin.row].cells[c - stack[k].origin.col]
  {
    if k < |stack| - 1 {
      TopCellIsTheLast(stack[..|stack| - 1], k, r, c, under);
      assert !Reaches(stack[|stack| - 1], r, c);
    }
  }

  /** Where no surface reaches, the screen stays as it was. */
  lemma {:induction false} NoSurfaceNoCell(stack: seq<Surface>, r: int, c: int, under: Cell)
    requires forall i :: 0 <= i < |stack| ==> !Reaches(stack[i], r, c)
    ensures TopCell(stack, r, c, under) == under
  {
    if stack != [] {
      NoSurfaceNoCell(stack[..|stack| - 1], r, c, under);
      assert !Reaches(stack[|stack| - 1], r, c);
    }
  }

  lemma SpanningIsReachingAcross(s: Surface, g: Geometry, r: int)
    requires g.cols <= MAX_U16
    ensures HasRow(s, r) && SpansWidth(s, g) <==> ReachesAcross(s, g, r)
  {
  }

  /** The soft-wrap mark of a row belongs to the last surface that spans it. */
  lemma {:induction false} TopWrapIsTheLast(stack: seq<Surface>, k: nat, g: Geometry, r: int, under: bool)
    requires g.cols <= MAX_U16 && k < |stack| && ReachesAcross(stack[k], g, r)
    requires forall i :: k < i < |stack| ==> !ReachesAcross(stack[i], g, r)
    ensures TopWrap(stack, g, r, under) == stack[k].rows[r - stack[k].origin.row].wrapped
  {
    SpanningIsReachingAcross(stack[|stack| - 1], g, r);
    if k < |stack| - 1 {
      TopWrapIsTheLast(stack[..|stack| - 1], k, g, r, under);
      assert !ReachesAcross(stack[|stack| - 1], g, r);
    }
  }

  lemma {:induction false} NoSurfaceNoWrap(stack: seq<Surface>, g: Geometry, r: int, under: bool)
    requires g.cols <= MAX_U16 && forall i :: 0 <= i < |stack| ==> !ReachesAcross(stack[i], g, r)
    ensures TopWrap(stack, g, r, under) == under
  {
    if stack != [] {
      NoSurfaceNoWrap(stack[..|stack| - 1], g, r, under);
      assert !ReachesAcross(stack[|stack| - 1], g, r);
      SpanningIsReachingAcross(stack[|stack| - 1], g, r);
    }
  }

  /** The stack is the panes in order, then the overlays by z-index and, within one z-index, by position. */
  lemma StackOrder(scene: Scene)
    requires SceneFits(scene)
    ensures var sorted := SortedOverlays(scene.overlays);
      && Stack(scene)[..|scene.panes|] == scene.panes
      && multiset(sorted) == multiset(scene.overlays)
      && forall i, j :: 0 <= i < j < |sorted| ==>
           sorted[i].zIndex < sorted[j].zIndex
           || (sorted[i].zIndex == sorted[j].zIndex && sorted[i].order < sorted[j].order)
  {
    var key, order := (o: SceneOverlay) => o.zIndex, (o: SceneOverlay) => o.order;
    SortIsStable(scene.overlays, key, order);
    var sorted := SortByKey(scene.overlays, key);
    assert forall i :: 0 <= i < |sorted| ==> key(sorted[i]) == sorted[i].zIndex && order(sorted[i]) == sorted[i].order;
  }
}

/**
  * Image placements under clipping and overlays: which cells keep showing an image, and which part
  * of its source each remaining fragment shows.
  */
module ImageClipping {
  import opened Common
  import opened SceneOperations

  const MAX_U16: nat := 0xffff
  const MAX_U32: nat := 0xffff_ffff
  const MIN_I32: int := -0x8000_0000

  type U32 = x: int | 0 <= x <= MAX_U32

  /** The part of an image placement that clipping reads and writes. */
  datatype Image = Image(
    gridRect: GridRect,
    xOffset: U32, yOffset: U32,
    sourceX: U32, sourceY: U32, sourceWidth: U32, sourceHeight: U32,
    pixelWidth: U32, pixelHeight: U32,
    renderedPixelWidth: U32, renderedPixelHeight: U32,
    imageId: U32, placementId: U32, zIndex: int, visible: bool,
    dataLength: nat, dataDigest: nat)

  /** A rectangle of 16-bit extents whose far corner is a 32-bit coordinate, so that nothing saturates. */
  predicate Representable(rect: GridRect) {
    && rect.rows <= MAX_U16 && rect.cols <= MAX_U16
    && MIN_I32 <= rect.origin.row && rect.origin.row + rect.rows <= MAX_I32
    && MIN_I32 <= rect.origin.col && rect.origin.col + rect.cols <= MAX_I32
  }

  function MulU32(a: nat, b: nat): U32 {
    Min(a * b, MAX_U32)
  }

  function AddU32(a: nat, b: nat): U32 {
    Min(a + b, MAX_U32)
  }

  function ToU16(value: int, otherwise: nat): nat {
    if 0 <= value <= MAX_U16 then value else otherwise
  }

  // ----- rectangles -----

  function IntersectRect(left: GridRect, right: GridRect): Option<GridRect> {
    var top := Max(left.origin.row, right.origin.row);
    var leftCol := Max(left.origin.col, right.origin.col);
    var bottom := Min(SaturatingAdd(left.origin.row, left.rows), SaturatingAdd(right.origin.row, right.rows));
    var rightCol := Min(SaturatingAdd(left.origin.col, left.cols), SaturatingAdd(right.origin.col, right.cols));
    if bottom > top && rightCol > leftCol then
      Some(GridRect(GridPoint(top, leftCol), ToU16(bottom - top, MAX_U16), ToU16(rightCol - leftCol, MAX_U16)))
    else None
  }

  /** The intersection covers exactly the common cells, and is missing exactly when there are none. */
  lemma IntersectionIsCommonCells(left: GridRect, right: GridRect)
    requires Representable(left) && Representable(right)
    ensures match IntersectRect(left, right)
            case None => forall r, c :: !(Covers(left, r, c) && Covers(right, r, c))
            case Some(both) =>
              && Representable(both) && both.rows > 0 && both.cols > 0
              && forall r, c :: Covers(both, r, c) <==> Covers(left, r, c) && Covers(right, r, c)
  {
  }

  // ----- clipping one image -----

  function EffectiveWidth(image: Image): U32 {
    if image.sourceWidth == 0 then image.pixelWidth else image.sourceWidth
  }

  function EffectiveHeight(image: Image): U32 {
    if image.sourceHeight == 0 then image.pixelHeight else image.sourceHeight
  }

  function SkippedPixels(source: U32, cells: nat, total: nat): U32
    requires total > 0
  {
    var pixels := MulU32(source, cells) / total;
    DivisionShrinks(MulU32(source, cells), total);
    pixels
  }

  function KeptPixels(source: U32, cells: nat, total: nat): U32
    requires total > 0
  {
    Max(SkippedPixels(source, cells, total), if source > 0 then 1 else 0)
  }

  function RenderedPixels(rendered: U32, cells: nat, total: nat): U32
    requires total > 0
  {
    if rendered > 0 then Max(SkippedPixels(rendered, cells, total), 1) else SkippedPixels(rendered, cells, total)
  }

  lemma ProductGrows(q: nat, b: nat)
    requires b > 0
    ensures q <= b * q
  {
    if b > 1 {
      ProductGrows(q, b - 1);
      assert b * q == (b - 1) * q + q;
    }
  }

  lemma DivisionShrinks(a: nat, b: nat)
    requires b > 0
    ensures 0 <= a / b <= a && b * (a / b) <= a
  {
    assert a == b * (a / b) + a % b;
    ProductGrows(a / b, b);
  }

  function ClipImage(image: Image, clip: GridRect): Option<Image> {
    match IntersectRect(image.gridRect, clip)
    case None => None
    case Some(both) =>
      var topCells := Max(both.origin.row - image.gridRect.origin.row, 0);
      var leftCells := Max(both.origin.col - image.gridRect.origin.col, 0);
      var rows, cols := Max(image.gridRect.rows, 1), Max(image.gridRect.cols, 1);
      var width, height := EffectiveWidth(image), EffectiveHeight(image);
      Some(image.(
           gridRect := both,
           sourceX := AddU32(image.sourceX, SkippedPixels(width, leftCells, cols)),
           sourceY := AddU32(image.sourceY, SkippedPixels(height, topCells, rows)),
           sourceWidth := KeptPixels(width, both.cols, cols),
           sourceHeight := KeptPixels(height, both.rows, rows),
           xOffset := if leftCells > 0 then 0 else image.xOffset,
           yOffset := if topCells > 0 then 0 else image.yOffset,
           renderedPixelWidth := RenderedPixels(image.renderedPixelWidth, both.cols, cols),
           renderedPixelHeight := RenderedPixels(image.renderedPixelHeight, both.rows, rows)))
  }

  /** Along one axis: from `start` on, `length` pixels lie within `outerLength` pixels from `outerStart` on. */
  predicate AxisInside(start: nat, length: nat, outerStart: nat, outerLength: nat) {
    outerStart <= start && start + length <= outerStart + outerLength && (outerLength > 0 ==> length > 0)
  }

  predicate SourceInside(inner: Image, outer: Image) {
    && AxisInside(inner.sourceX, EffectiveWidth(inner), outer.sourceX, EffectiveWidth(outer))
    && AxisInside(inner.sourceY, EffectiveHeight(inner), outer.sourceY, EffectiveHeight(outer))
  }

  lemma ProductOrder(a: nat, b: nat, factor: nat)
    requires factor > 0 && a * factor <= b * factor
    ensures a <= b
  {
  }

  lemma StrictProductOrder(a: nat, b: nat, factor: nat)
    requires a * factor < b * factor
    ensures a < b
  {
  }

  lemma SharesFit(source: nat, skipped: nat, kept: nat, total: nat, first: nat, second: nat)
    requires kept > 0 && skipped + kept <= total
    requires total * first <= source * skipped && total * second <= source * kept
    ensures first + second <= source && (source > 0 ==> first < source)
  {
    assert (first + second) * total == total * first + total * second;
    assert source * total == source * skipped + source * kept + source * (total - skipped - kept);
    assert source * (total - skipped - kept) >= 0;
    ProductOrder(first + second, source, total);
    if source > 0 {
      ProductGrows(kept, source);
      assert first * total == total * first;
      StrictProductOrder(first, source, total);
    }
  }

  /** Skipping and keeping proportional pixels, at least one of them, never leaves the source. */
  lemma PixelsStayInside(source: U32, skipped: nat, kept: nat, total: nat)
    requires kept > 0 && skipped + kept <= total
    ensures SkippedPixels(source, skipped, total) + KeptPixels(source, kept, total) <= source
    ensures source > 0 ==> KeptPixels(source, kept, total) > 0
  {
    DivisionShrinks(MulU32(source, skipped), total);
    DivisionShrinks(MulU32(source, kept), total);
    SharesFit(source, skipped, kept, total,
              SkippedPixels(source, skipped, total), SkippedPixels(source, kept, total));
  }

  lemma ClipKeepsSource(image: Image, clip: GridRect)
    requires Representable(image.gridRect) && Representable(clip)
    ensures var clipped := ClipImage(image, clip);
      && (clipped.None? <==> IntersectRect(image.gridRect, clip).None?)
      && (clipped.Some? ==>
            && Some(clipped.value.gridRect) == IntersectRect(image.gridRect, clip)
            && SourceInside(clipped.value, image))
  {
    IntersectionIsCommonCells(image.gridRect, clip);
    var both := IntersectRect(image.gridRect, clip);
    if both.Some? {
      var rect := image.gridRect;
      PixelsStayInside(EffectiveWidth(image), both.value.origin.col - rect.origin.col, both.value.cols, rect.cols);
      PixelsStayInside(EffectiveHeight(image), both.value.origin.row - rect.origin.row, both.value.rows, rect.rows);
    }
  }

  lemma SourceInsideChains(a: Image, b: Image, c: Image)
    requires SourceInside(a, b) && SourceInside(b, c)
    ensures SourceInside(a, c)
  {
  }

  // ----- cutting an occluder out of one image -----

  /** Above, below, left and right of the part that is hidden. */
  function Surroundings(rect: GridRect, hidden: GridRect): seq<GridRect> {
    var bottom, right := SaturatingAdd(rect.origin.row, rect.rows), SaturatingAdd(rect.origin.col, rect.cols);
    var hiddenBottom := SaturatingAdd(hidden.origin.row, hidden.rows);
    var hiddenRight := SaturatingAdd(hidden.origin.col, hidden.cols);
    [GridRect(rect.origin, ToU16(hidden.origin.row - rect.origin.row, 0), rect.cols),
     GridRect(GridPoint(hiddenBottom, rect.origin.col), ToU16(bottom - hiddenBottom, 0), rect.cols),
     GridRect(GridPoint(hidden.origin.row, rect.origin.col), hidden.rows,
              ToU16(hidden.origin.col - rect.origin.col, 0)),
     GridRect(GridPoint(hidden.origin.row, hiddenRight), hidden.rows, ToU16(right - hiddenRight, 0))]
  }

  /** The candidates that are not empty, each as a clip of the image. */
  function ClipAll(image: Image, candidates: seq<GridRect>): seq<Image> {
    if candidates == [] then []
    else
      var last := candidates[|candidates| - 1];
      var clipped := if last.rows > 0 && last.cols > 0 then ClipImage(image, last) else None;
      ClipAll(image, candidates[..|candidates| - 1]) + if clipped.Some? then [clipped.value] else []
  }

  function SubtractImage(image: Image, occluder: GridRect): seq<Image> {
    match IntersectRect(image.gridRect, occluder)
    case None => [image]
    case Some(hidden) => ClipAll(image, Surroundings(image.gridRect, hidden))
  }

  ghost predicate RectsDisjoint(a: GridRect, b: GridRect) {
    forall r, c :: !(Covers(a, r, c) && Covers(b, r, c))
  }

  ghost predicate Disjoint(fragments: seq<Image>) {
    forall i, j :: 0 <= i < j < |fragments| ==> RectsDisjoint(fragments[i].gridRect, fragments[j].gridRect)
  }

  predicate Shows(fragments: seq<Image>, r: int, c: int) {
    exists i :: 0 <= i < |fragments| && Covers(fragments[i].gridRect, r, c)
  }

  predicate IsFragment(fragment: Image, image: Image) {
    && Representable(fragment.gridRect) && fragment.gridRect.rows > 0 && fragment.gridRect.cols > 0
    && SourceInside(fragment, image)
  }

  predicate AllFragments(fragments: seq<Image>, image: Image) {
    forall i :: 0 <= i < |fragments| ==> IsFragment(fragments[i], image)
  }

  ghost predicate RectWithin(inner: GridRect, outer: GridRect) {
    forall r, c :: Covers(inner, r, c) ==> Covers(outer, r, c)
  }

  ghost predicate AllWithin(fragments: seq<Image>, outer: GridRect) {
    forall i :: 0 <= i < |fragments| ==> RectWithin(fragments[i].gridRect, outer)
  }

  predicate AnyCovers(rects: seq<GridRect>, r: int, c: int) {
    exists i :: 0 <= i < |rects| && Covers(rects[i], r, c)
  }

  ghost predicate GoodCandidates(rects: seq<GridRect>, outer: GridRect) {
    && (forall i :: 0 <= i < |rects| ==> Representable(rects[i]) && RectWithin(rects[i], outer))
    && (forall i, j :: 0 <= i < j < |rects| ==> RectsDisjoint(rects[i], rects[j]))
  }

  lemma ShowsPush(fragments: seq<Image>, last: Image, r: int, c: int)
    ensures Shows(fragments + [last], r, c) <==> Shows(fragments, r, c) || Covers(last.gridRect, r, c)
  {
    if Shows(fragments, r, c) {
      var i :| 0 <= i < |fragments| && Covers(fragments[i].gridRect, r, c);
      assert (fragments + [last])[i] == fragments[i];
    }
    assert (fragments + [last])[|fragments|] == last;
  }

  lemma AnyCoversPush(rects: seq<GridRect>, last: GridRect, r: int, c: int)
    ensures AnyCovers(rects + [last], r, c) <==> AnyCovers(rects, r, c) || Covers(last, r, c)
  {
    if AnyCovers(rects, r, c) {
      var i :| 0 <= i < |rects| && Covers(rects[i], r, c);
      assert (rects + [last])[i] == rects[i];
    }
    assert (rects + [last])[|rects|] == last;
  }

  lemma ClipInside(image: Image, rect: GridRect)
    requires Representable(image.gridRect) && Representable(rect) && RectWithin(rect, image.gridRect)
    requires rect.rows > 0 && rect.cols > 0
    ensures ClipImage(image, rect).Some? && ClipImage(image, rect).value.gridRect == rect
    ensures IsFragment(ClipImage(image, rect).value, image)
  {
    ClipKeepsSource(image, rect);
    IntersectionIsCommonCells(image.gridRect, rect);
    assert Covers(rect, rect.origin.row, rect.origin.col);
    assert Covers(rect, rect.origin.row + rect.rows - 1, rect.origin.col + rect.cols - 1);
    assert Covers(image.gridRect, rect.origin.row, rect.origin.col);
    assert Covers(image.gridRect, rect.origin.row + rect.rows - 1, rect.origin.col + rect.cols - 1);
  }

  lemma {:induction false} ClipAllIsExact(image: Image, candidates: seq<GridRect>)
    requires Representable(image.gridRect) && GoodCandidates(candidates, image.gridRect)
    ensures var pieces := ClipAll(image, candidates);
      && AllFragments(pieces, image) && Disjoint(pieces) && AllWithin(pieces, image.gridRect)
      && forall r, c :: Shows(pieces, r, c) <==> AnyCovers(candidates, r, c)
  {
    hide SourceInside, Representable, Shows, AnyCovers;
    if candidates == [] {
      NoPieces();
    } else {
      var front, last := candidates[..|candidates| - 1], candidates[|candidates| - 1];
      ClipAllIsExact(image, front);
      var pieces := ClipAll(image, front);
      assert candidates == front + [last];
      forall r, c
        ensures AnyCovers(candidates, r, c) <==> Shows(pieces, r, c) || Covers(last, r, c)
      {
        AnyCoversPush(front, last, r, c);
      }
      if last.rows > 0 && last.cols > 0 {
        ClipInside(image, last);
        var piece := ClipImage(image, last).value;
        assert ClipAll(image, candidates) == pieces + [piece];
        forall r, c
          ensures Shows(pieces + [piece], r, c) <==> Shows(pieces, r, c) || Covers(last, r, c)
        {
          ShowsPush(pieces, piece, r, c);
        }
        forall i | 0 <= i < |pieces|
          ensures RectsDisjoint(pieces[i].gridRect, last)
        {
          forall r, c
            ensures !(Covers(pieces[i].gridRect, r, c) && Covers(last, r, c))
          {
            if Covers(pieces[i].gridRect, r, c) {
              assert Shows(pieces, r, c) by { ShowsAt(pieces, i, r, c); }
              NotInLast(candidates, r, c);
            }
          }
        }
      } else {
        assert ClipAll(image, candidates) == pieces;
        assert forall r, c :: !Covers(last, r, c);
      }
    }
  }

  lemma NoPieces()
    ensures forall r, c :: !Shows([], r, c) && !AnyCovers([], r, c)
  {
  }

  lemma ShowsAt(fragments: seq<Image>, i: nat, r: int, c: int)
    requires i < |fragments| && Covers(fragments[i].gridRect, r, c)
    ensures Shows(fragments, r, c)
  {
  }

  lemma NotInLast(rects: seq<GridRect>, r: int, c: int)
    requires rects != [] && forall i, j :: 0 <= i < j < |rects| ==> RectsDisjoint(rects[i], rects[j])
    requires AnyCovers(rects[..|rects| - 1], r, c)
    ensures !Covers(rects[|rects| - 1], r, c)
  {
    var front := rects[..|rects| - 1];
    var i :| 0 <= i < |front| && Covers(front[i], r, c);
    assert RectsDisjoint(rects[i], rects[|rects| - 1]);
  }

  lemma SurroundingsAreGood(rect: GridRect, hidden: GridRect)
    requires Representable(rect) && Representable(hidden) && RectWithin(hidden, rect)
    requires hidden.rows > 0 && hidden.cols > 0
    ensures GoodCandidates(Surroundings(rect, hidden), rect)
    ensures forall r, c :: AnyCovers(Surroundings(rect, hidden), r, c) <==> Covers(rect, r, c) && !Covers(hidden, r, c)
  {
    assert Covers(hidden, hidden.origin.row, hidden.origin.col);
    assert Covers(hidden, hidden.origin.row + hidden.rows - 1, hidden.origin.col + hidden.cols - 1);
    var s := Surroundings(rect, hidden);
    forall r, c
      ensures AnyCovers(s, r, c) <==> Covers(rect, r, c) && !Covers(hidden, r, c)
    {
      assert AnyCovers(s, r, c) <==> Covers(s[0], r, c) || Covers(s[1], r, c) || Covers(s[2], r, c) || Covers(s[3], r, c);
    }
  }

  /** Cutting out an occluder leaves disjoint fragments on exactly the cells outside it. */
  lemma SubtractIsExact(image: Image, occluder: GridRect)
    requires Representable(image.gridRect) && Representable(occluder)
    requires image.gridRect.rows > 0 && image.gridRect.cols > 0
    ensures var pieces := SubtractImage(image, occluder);
      && AllFragments(pieces, image) && Disjoint(pieces) && AllWithin(pieces, image.gridRect)
      && forall r, c :: Shows(pieces, r, c) <==> Covers(image.gridRect, r, c) && !Covers(occluder, r, c)
  {
    hide Representable;
    IntersectionIsCommonCells(image.gridRect, occluder);
    match IntersectRect(image.gridRect, occluder) {
      case None =>
        forall r, c
          ensures Shows([image], r, c) <==> Covers(image.gridRect, r, c)
        {
          assert [image][0] == image;
        }
      case Some(hidden) =>
        SurroundingsAreGood(image.gridRect, hidden);
        ClipAllIsExact(image, Surroundings(image.gridRect, hidden));
    }
  }

  // ----- cutting out several occluders -----

  function SubtractAll(fragments: seq<Image>, occluder: GridRect): seq<Image> {
    if fragments == [] then []
    else SubtractAll(fragments[..|fragments| - 1], occluder) + SubtractImage(fragments[|fragments| - 1], occluder)
  }

  function Fragments(fragments: seq<Image>, occluders: seq<GridRect>): seq<Image> {
    if occluders == [] then fragments
    else SubtractAll(Fragments(fragments, occluders[..|occluders| - 1]), occluders[|occluders| - 1])
  }

  lemma ShowsConcat(a: seq<Image>, b: seq<Image>, r: int, c: int)
    ensures Shows(a + b, r, c) <==> Shows(a, r, c) || Shows(b, r, c)
  {
    if Shows(a, r, c) {
      var i :| 0 <= i < |a| && Covers(a[i].gridRect, r, c);
      assert (a + b)[i] == a[i];
    }
    if Shows(b, r, c) {
      var i :| 0 <= i < |b| && Covers(b[i].gridRect, r, c);
      assert (a + b)[|a| + i] == b[i];
    }
  }

  lemma DisjointConcat(a: seq<Image>, b: seq<Image>)
    requires Disjoint(a) && Disjoint(b)
    requires forall r, c :: !(Shows(a, r, c) && Shows(b, r, c))
    ensures Disjoint(a + b)
  {
    var all := a + b;
    forall i, j | 0 <= i < j < |all|
      ensures RectsDisjoint(all[i].gridRect, all[j].gridRect)
    {
      if i < |a| <= j {
        forall r, c
          ensures !(Covers(a[i].gridRect, r, c) && Covers(b[j - |a|].gridRect, r, c))
        {
          if Covers(a[i].gridRect, r, c) {
            ShowsAt(a, i, r, c);
            assert !Shows(b, r, c);
          }
        }
      }
    }
  }

  lemma FragmentsOfFragments(pieces: seq<Image>, fragment: Image, image: Image)
    requires AllFragments(pieces, fragment) && IsFragment(fragment, image)
    ensures AllFragments(pieces, image)
  {
    forall i | 0 <= i < |pieces|
      ensures IsFragment(pieces[i], image)
    {
      SourceInsideChains(pieces[i], fragment, image);
    }
  }

  lemma LastIsApart(fragments: seq<Image>, r: int, c: int)
    requires fragments != [] && Disjoint(fragments)
    requires Shows(fragments[..|fragments| - 1], r, c)
    ensures !Covers(fragments[|fragments| - 1].gridRect, r, c)
  {
    var front := fragments[..|fragments| - 1];
    var i :| 0 <= i < |front| && Covers(front[i].gridRect, r, c);
    assert RectsDisjoint(fragments[i].gridRect, fragments[|fragments| - 1].gridRect);
  }

  lemma {:induction false} SubtractAllIsExact(image: Image, fragments: seq<Image>, occluder: GridRect)
    requires Representable(occluder) && AllFragments(fragments, image) && Disjoint(fragments)
    ensures var pieces := SubtractAll(fragments, occluder);
      && AllFragments(pieces, image) && Disjoint(pieces)
      && forall r, c :: Shows(pieces, r, c) <==> Shows(fragments, r, c) && !Covers(occluder, r, c)
  {
    hide Shows, SubtractImage, Representable, SourceInside, RectsDisjoint;
    if fragments == [] {
      NoPieces();
    } else {
      var front, last := fragments[..|fragments| - 1], fragments[|fragments| - 1];
      assert IsFragment(last, image) && fragments == front + [last];
      SubtractAllIsExact(image, front, occluder);
      SubtractIsExact(last, occluder);
      var earlier, pieces := SubtractAll(front, occluder), SubtractImage(last, occluder);
      FragmentsOfFragments(pieces, last, image);
      forall r, c
        ensures Shows(earlier + pieces, r, c) <==> Shows(fragments, r, c) && !Covers(occluder, r, c)
        ensures !(Shows(earlier, r, c) && Shows(pieces, r, c))
      {
        ShowsConcat(earlier, pieces, r, c);
        ShowsPush(front, last, r, c);
        if Shows(earlier, r, c) {
          LastIsApart(fragments, r, c);
        }
      }
      DisjointConcat(earlier, pieces);
    }
  }

  lemma {:induction false} FragmentsAreExact(image: Image, fragments: seq<Image>, occluders: seq<GridRect>)
    requires AllFragments(fragments, image) && Disjoint(fragments)
    requires forall i :: 0 <= i < |occluders| ==> Representable(occluders[i])
    ensures var pieces := Fragments(fragments, occluders);
      && AllFragments(pieces, image) && Disjoint(pieces)
      && forall r, c :: Shows(pieces, r, c) <==> Shows(fragments, r, c) && !AnyCovers(occluders, r, c)
  {
    hide Shows, SubtractAll, Representable, AllFragments, Disjoint, AnyCovers;
    if occluders == [] {
      NoPieces();
    } else {
      var front, last := occluders[..|occluders| - 1], occluders[|occluders| - 1];
      assert occluders == front + [last];
      FragmentsAreExact(image, fragments, front);
      SubtractAllIsExact(image, Fragments(fragments, front), last);
      forall r, c
        ensures AnyCovers(occluders, r, c) <==> AnyCovers(front, r, c) || Covers(last, r, c)
      {
        AnyCoversPush(front, last, r, c);
      }
    }
  }

  /** The fragments of one placement under a clip and a list of occluders. */
  function VisibleFragments(image: Image, bounds: GridRect, occluders: seq<GridRect>): seq<Image> {
    match ClipImage(image, bounds)
    case None => []
    case Some(clipped) => Fragments([clipped], occluders)
  }

  /**
    * The visible fragments of a placement are pairwise disjoint, cover exactly its cells inside the
    * scene and outside every occluder, and each shows a nonempty part of the original source.
    */
  lemma FragmentsPartitionVisibleCells(image: Image, bounds: GridRect, occluders: seq<GridRect>)
    requires Representable(image.gridRect) && Representable(bounds)
    requires forall i :: 0 <= i < |occluders| ==> Representable(occluders[i])
    ensures var pieces := VisibleFragments(image, bounds, occluders);
      && Disjoint(pieces) && AllFragments(pieces, image)
      && forall r, c :: Shows(pieces, r, c) <==>
           Covers(image.gridRect, r, c) && Covers(bounds, r, c) && !AnyCovers(occluders, r, c)
  {
    hide Shows, AnyCovers, Representable, Fragments;
    ClipKeepsSource(image, bounds);
    IntersectionIsCommonCells(image.gridRect, bounds);
    match ClipImage(image, bounds) {
      case None =>
        NoPieces();
      case Some(clipped) =>
        assert IsFragment(clipped, image);
        forall r, c
          ensures Shows([clipped], r, c) <==> Covers(clipped.gridRect, r, c)
        {
          NoPieces();
          assert [clipped] == [] + [clipped];
          ShowsPush([], clipped, r, c);
        }
        FragmentsAreExact(image, [clipped], occluders);
    }
  }
}

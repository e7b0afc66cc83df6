/**
  * Which part of a picture a clipped placement shows: every cell of a fragment keeps the pixels the
  * whole placement shows there, up to the rounding of each clip.
  */
module ImageSources {
  import opened Common
  import opened SceneOperations
  import opened ImageClipping

  // ----- one clip, in whole pixels -----

  /** No product or sum of the image's own sizes saturates. */
  predicate Unsaturated(image: Image) {
    && EffectiveWidth(image) * image.gridRect.cols <= MAX_U32 && EffectiveHeight(image) * image.gridRect.rows <= MAX_U32
    && image.sourceX + EffectiveWidth(image) <= MAX_U32 && image.sourceY + EffectiveHeight(image) <= MAX_U32
    && image.renderedPixelWidth * image.gridRect.cols <= MAX_U32
    && image.renderedPixelHeight * image.gridRect.rows <= MAX_U32
  }

  /** `share` is `cells` out of `total` cells' part of `source` pixels, rounded down. */
  predicate IsShare(share: nat, source: nat, cells: nat, total: nat) {
    total * share <= source * cells < total * (share + 1)
  }

  /** The same, but at least one pixel of a picture that has any. */
  predicate IsPositiveShare(share: nat, source: nat, cells: nat, total: nat) {
    IsShare(share, source, cells, total) || (share == 1 && 0 < source && source * cells < total)
  }

  lemma QuotientIsShare(source: nat, cells: nat, total: nat)
    requires total > 0
    ensures IsShare(source * cells / total, source, cells, total)
  {
    var product := source * cells;
    assert product == total * (product / total) + product % total;
    assert total * (product / total + 1) == total * (product / total) + total;
  }

  lemma ProductOfSmaller(a: nat, b: nat, limit: nat)
    requires b <= limit
    ensures a * b <= a * limit
  {
  }

  lemma SkippedIsShare(source: U32, cells: nat, total: nat)
    requires 0 < total && cells <= total && source * total <= MAX_U32
    ensures IsShare(SkippedPixels(source, cells, total), source, cells, total)
  {
    ProductOfSmaller(source, cells, total);
    QuotientIsShare(source, cells, total);
  }

  lemma KeptIsShare(source: U32, cells: nat, total: nat)
    requires 0 < cells <= total && source * total <= MAX_U32
    ensures IsPositiveShare(KeptPixels(source, cells, total), source, cells, total)
    ensures RenderedPixels(source, cells, total) == KeptPixels(source, cells, total)
  {
    SkippedIsShare(source, cells, total);
  }

  /** Everything about a placement except where it is and which part of its picture it shows. */
  predicate SamePicture(a: Image, b: Image) {
    && a.pixelWidth == b.pixelWidth && a.pixelHeight == b.pixelHeight
    && a.imageId == b.imageId && a.placementId == b.placementId && a.zIndex == b.zIndex && a.visible == b.visible
    && a.dataLength == b.dataLength && a.dataDigest == b.dataDigest
  }

  /**
    * A clip skips the pixels of the cells cut off before it and keeps those of its own cells, each
    * share rounded down to whole pixels and at least one pixel kept.
    */
  lemma ClipShowsItsShare(image: Image, clip: GridRect)
    requires Representable(image.gridRect) && Representable(clip) && Unsaturated(image)
    requires IntersectRect(image.gridRect, clip).Some?
    ensures ClipImage(image, clip).Some?
    ensures var clipped := ClipImage(image, clip).value;
      var (outer, inner) := (image.gridRect, clipped.gridRect);
      var (leftCells, topCells) := (inner.origin.col - outer.origin.col, inner.origin.row - outer.origin.row);
      && 0 <= leftCells && leftCells + inner.cols <= outer.cols && 0 <= topCells && topCells + inner.rows <= outer.rows
      && image.sourceX <= clipped.sourceX && image.sourceY <= clipped.sourceY
      && IsShare(clipped.sourceX - image.sourceX, EffectiveWidth(image), leftCells, outer.cols)
      && IsShare(clipped.sourceY - image.sourceY, EffectiveHeight(image), topCells, outer.rows)
      && IsPositiveShare(EffectiveWidth(clipped), EffectiveWidth(image), inner.cols, outer.cols)
      && IsPositiveShare(EffectiveHeight(clipped), EffectiveHeight(image), inner.rows, outer.rows)
      && IsPositiveShare(clipped.renderedPixelWidth, image.renderedPixelWidth, inner.cols, outer.cols)
      && IsPositiveShare(clipped.renderedPixelHeight, image.renderedPixelHeight, inner.rows, outer.rows)
      && clipped.xOffset == (if leftCells == 0 then image.xOffset else 0)
      && clipped.yOffset == (if topCells == 0 then image.yOffset else 0)
      && SamePicture(clipped, image)
  {
    hide IsShare, IsPositiveShare, SkippedPixels, KeptPixels, RenderedPixels;
    IntersectionIsCommonCells(image.gridRect, clip);
    var outer, inner := image.gridRect, IntersectRect(image.gridRect, clip).value;
    var leftCells, topCells := inner.origin.col - outer.origin.col, inner.origin.row - outer.origin.row;
    var width, height := EffectiveWidth(image), EffectiveHeight(image);
    SkippedIsShare(width, leftCells, outer.cols);
    SkippedIsShare(height, topCells, outer.rows);
    KeptIsShare(width, inner.cols, outer.cols);
    KeptIsShare(height, inner.rows, outer.rows);
    KeptIsShare(image.renderedPixelWidth, inner.cols, outer.cols);
    KeptIsShare(image.renderedPixelHeight, inner.rows, outer.rows);
    PixelsStayInside(width, leftCells, inner.cols, outer.cols);
    PixelsStayInside(height, topCells, inner.rows, outer.rows);
    KeptOfNothing(width, inner.cols, outer.cols);
    KeptOfNothing(height, inner.rows, outer.rows);
  }

  lemma KeptOfNothing(source: U32, cells: nat, total: nat)
    requires total > 0
    ensures source > 0 <==> KeptPixels(source, cells, total) > 0
  {
    if source == 0 {
      assert MulU32(source, cells) == 0;
    }
  }

  // ----- where a cell edge falls in the picture -----

  /** The exact part of `source` that `cells` out of `total` cells show. */
  function Portion(source: nat, cells: nat, total: nat): real
    requires total > 0
  {
    source as real * cells as real / total as real
  }

  /** The source coordinate of cell edge `edge`, when `length` pixels from `start` fill `cells` cells from `first`. */
  function SourceAt(start: nat, length: nat, first: int, cells: nat, edge: int): real
    requires cells > 0 && first <= edge
  {
    start as real + Portion(length, edge - first, cells)
  }

  lemma ShareError(share: nat, source: nat, cells: nat, total: nat)
    requires total > 0 && IsShare(share, source, cells, total)
    ensures 0.0 <= Portion(source, cells, total) - share as real <= 1.0
  {
    hide Portion;
    var exact, whole := Portion(source, cells, total), total as real;
    PortionTimes(source, cells, total);
    RealProduct(share, total);
    RealProduct(share + 1, total);
    SmallerFactor(share as real, exact, whole);
    SmallerFactor(exact, share as real + 1.0, whole);
  }

  lemma RealProduct(a: nat, b: nat)
    ensures a as real * b as real == (b * a) as real
  {
  }

  lemma PortionTimes(source: nat, cells: nat, total: nat)
    requires total > 0
    ensures Portion(source, cells, total) * total as real == (source * cells) as real
  {
  }

  lemma PositiveShareError(share: nat, source: nat, cells: nat, total: nat)
    requires total > 0 && IsPositiveShare(share, source, cells, total)
    ensures -1.0 <= Portion(source, cells, total) - share as real <= 1.0
  {
    if IsShare(share, source, cells, total) {
      ShareError(share, source, cells, total);
    } else {
      var exact := Portion(source, cells, total);
      PortionTimes(source, cells, total);
      SmallerFactor(0.0, exact, total as real);
      SmallerFactor(exact, 1.0, total as real);
    }
  }

  lemma SmallerFactor(a: real, b: real, factor: real)
    requires factor > 0.0 && a * factor <= b * factor
    ensures a <= b
  {
  }

  /** A fraction of an error of at most one is at most one. */
  lemma PartOfError(part: real, whole: real, error: real)
    requires 0.0 <= part <= whole && 0.0 < whole && -1.0 <= error <= 1.0
    ensures -1.0 <= part / whole * error <= 1.0
  {
    var fraction := part / whole;
    assert fraction * whole == part;
    SmallerFactor(0.0, fraction, whole);
    SmallerFactor(fraction, 1.0, whole);
    assert fraction * error <= fraction * 1.0 && fraction * -1.0 <= fraction * error;
  }

  /** Regrouping of the error of a clip: the one at its edge, and a fraction of the one of its extent. */
  lemma ErrorSplits(width: real, cells: real, left: real, own: real, skipped: real, kept: real, inside: real)
    requires cells > 0.0 && own > 0.0
    ensures width * (left + inside) / cells - (skipped + kept * inside / own)
         == (width * left / cells - skipped) + inside / own * (width * own / cells - kept)
  {
    var w := width / cells;
    assert width * (left + inside) / cells == w * (left + inside);
    assert width * left / cells == w * left && width * own / cells == w * own;
    var i := inside / own;
    assert inside == i * own && kept * inside / own == kept * i;
    assert w * (left + inside) == w * left + w * (i * own);
    assert i * (w * own - kept) == i * (w * own) - i * kept;
    assert w * (i * own) == i * (w * own);
  }

  /** The product `part / whole * error`, named so that it is not multiplied out. */
  function Fraction(part: nat, whole: nat, error: real): real
    requires whole > 0
  {
    part as real / whole as real * error
  }

  lemma FractionOfError(part: nat, whole: nat, error: real)
    requires part <= whole && 0 < whole && -1.0 <= error <= 1.0
    ensures -1.0 <= Fraction(part, whole, error) <= 1.0
  {
    PartOfError(part as real, whole as real, error);
  }

  lemma ErrorIsSum(length: nat, cells: nat, left: nat, own: nat, skipped: nat, kept: nat, inside: nat)
    requires 0 < cells && 0 < own
    ensures Portion(length, left + inside, cells) - (skipped as real + Portion(kept, inside, own))
         == (Portion(length, left, cells) - skipped as real)
            + Fraction(inside, own, Portion(length, own, cells) - kept as real)
  {
    ErrorSplits(length as real, cells as real, left as real, own as real, skipped as real, kept as real, inside as real);
    assert (left + inside) as real == left as real + inside as real;
  }

  /** Inside a clip no cell edge moves by more than two source pixels. */
  lemma AxisClip(start: nat, length: nat, first: int, cells: nat, left: nat, own: nat, skipped: nat, kept: nat, edge: int)
    requires 0 < own && left + own <= cells
    requires IsShare(skipped, length, left, cells) && IsPositiveShare(kept, length, own, cells)
    requires first + left <= edge <= first + left + own
    ensures -2.0 <= SourceAt(start, length, first, cells, edge) - SourceAt(start + skipped, kept, first + left, own, edge) <= 2.0
  {
    hide IsShare, IsPositiveShare, Portion, Fraction;
    var inside := edge - first - left;
    ShareError(skipped, length, left, cells);
    PositiveShareError(kept, length, own, cells);
    FractionOfError(inside, own, Portion(length, own, cells) - kept as real);
    ErrorIsSum(length, cells, left, own, skipped, kept, inside);
    assert edge - first == left + inside && edge - (first + left) == inside;
  }

  // ----- through any number of clips -----

  /** Along one axis, the inner placement shows in each of its cells what the outer one shows there. */
  ghost predicate AxisPart(
    innerStart: nat, innerLength: nat, innerFirst: int, innerCells: nat,
    outerStart: nat, outerLength: nat, outerFirst: int, outerCells: nat, clips: nat)
  {
    && 0 < innerCells && outerFirst <= innerFirst && innerFirst + innerCells <= outerFirst + outerCells
    && forall edge :: innerFirst <= edge <= innerFirst + innerCells ==>
         -2.0 * clips as real <= SourceAt(outerStart, outerLength, outerFirst, outerCells, edge)
                                 - SourceAt(innerStart, innerLength, innerFirst, innerCells, edge) <= 2.0 * clips as real
  }

  /** The rendered size of one cell. */
  ghost predicate SameScale(inner: nat, innerCells: nat, outer: nat, outerCells: nat, clips: nat) {
    && 0 < innerCells && 0 < outerCells
    && -1.0 * clips as real <= Portion(outer, 1, outerCells) - Portion(inner, 1, innerCells) <= clips as real
  }

  /**
    * The fragment lies inside the placement and, up to two source pixels a clip, shows in every cell
    * what the placement shows there, at the same scale; offsets stay with the first row and column.
    */
  ghost predicate ShowsPart(inner: Image, outer: Image, clips: nat) {
    var (i, o) := (inner.gridRect, outer.gridRect);
    && AxisPart(inner.sourceX, EffectiveWidth(inner), i.origin.col, i.cols,
                outer.sourceX, EffectiveWidth(outer), o.origin.col, o.cols, clips)
    && AxisPart(inner.sourceY, EffectiveHeight(inner), i.origin.row, i.rows,
                outer.sourceY, EffectiveHeight(outer), o.origin.row, o.rows, clips)
    && SameScale(inner.renderedPixelWidth, i.cols, outer.renderedPixelWidth, o.cols, clips)
    && SameScale(inner.renderedPixelHeight, i.rows, outer.renderedPixelHeight, o.rows, clips)
    && inner.xOffset == (if i.origin.col == o.origin.col then outer.xOffset else 0)
    && inner.yOffset == (if i.origin.row == o.origin.row then outer.yOffset else 0)
    && SamePicture(inner, outer)
  }

  lemma ClippedAxis(start: nat, length: nat, first: int, cells: nat, left: nat, own: nat, skipped: nat, kept: nat)
    requires 0 < own && left + own <= cells
    requires IsShare(skipped, length, left, cells) && IsPositiveShare(kept, length, own, cells)
    ensures AxisPart(start + skipped, kept, first + left, own, start, length, first, cells, 1)
  {
    hide IsShare, IsPositiveShare, SourceAt;
    forall edge | first + left <= edge <= first + left + own
      ensures -2.0 <= SourceAt(start, length, first, cells, edge) - SourceAt(start + skipped, kept, first + left, own, edge) <= 2.0
    {
      AxisClip(start, length, first, cells, left, own, skipped, kept, edge);
    }
  }

  lemma ClippedScale(rendered: nat, cells: nat, kept: nat, own: nat)
    requires 0 < own <= cells && IsPositiveShare(kept, rendered, own, cells)
    ensures SameScale(kept, own, rendered, cells, 1)
  {
    hide Portion, IsPositiveShare;
    PositiveShareError(kept, rendered, own, cells);
    PerCell(rendered, own, cells);
    PerCell(kept, own, own);
    WholePortion(kept, own);
    PerCellError(Portion(rendered, 1, cells), Portion(kept, 1, own), own);
  }

  lemma WholePortion(source: nat, cells: nat)
    requires 0 < cells
    ensures Portion(source, cells, cells) == source as real
  {
    assert source as real * cells as real / cells as real == source as real;
  }

  lemma PerCellError(a: real, b: real, cells: nat)
    requires 0 < cells && -1.0 <= a * cells as real - b * cells as real <= 1.0
    ensures -1.0 <= a - b <= 1.0
  {
    PerCellBound(a, b, cells);
    PerCellBound(b, a, cells);
  }

  lemma PerCellBound(a: real, b: real, cells: nat)
    requires 0 < cells && a * cells as real - b * cells as real <= 1.0
    ensures a - b <= 1.0
  {
    var whole := cells as real;
    assert (a - b) * whole == a * whole - b * whole;
    SmallerFactor(a - b, 1.0, whole);
  }

  lemma PerCell(rendered: nat, own: nat, cells: nat)
    requires 0 < cells
    ensures Portion(rendered, 1, cells) * own as real == Portion(rendered, own, cells)
  {
  }

  lemma ClipShowsPart(image: Image, clip: GridRect)
    requires Representable(image.gridRect) && Representable(clip) && Unsaturated(image)
    requires IntersectRect(image.gridRect, clip).Some?
    ensures ClipImage(image, clip).Some? && ShowsPart(ClipImage(image, clip).value, image, 1)
    ensures var piece := ClipImage(image, clip).value;
      Unsaturated(piece) && Representable(piece.gridRect) && piece.gridRect.rows > 0 && piece.gridRect.cols > 0
  {
    hide IsShare, IsPositiveShare, AxisPart, SameScale, Unsaturated, SamePicture, ClipImage;
    ClipShowsItsShare(image, clip);
    ClipKeepsUnsaturated(image, clip);
    IntersectionIsCommonCells(image.gridRect, clip);
    ClipKeepsSource(image, clip);
    var piece := ClipImage(image, clip).value;
    var outer, inner := image.gridRect, piece.gridRect;
    var left, top := inner.origin.col - outer.origin.col, inner.origin.row - outer.origin.row;
    ClippedAxis(image.sourceX, EffectiveWidth(image), outer.origin.col, outer.cols, left, inner.cols,
                piece.sourceX - image.sourceX, EffectiveWidth(piece));
    ClippedAxis(image.sourceY, EffectiveHeight(image), outer.origin.row, outer.rows, top, inner.rows,
                piece.sourceY - image.sourceY, EffectiveHeight(piece));
    ClippedScale(image.renderedPixelWidth, outer.cols, piece.renderedPixelWidth, inner.cols);
    ClippedScale(image.renderedPixelHeight, outer.rows, piece.renderedPixelHeight, inner.rows);
  }

  lemma SmallerProduct(a: nat, b: nat, c: nat, d: nat)
    requires a <= c && b <= d
    ensures a * b <= c * d
  {
    assert a * b <= c * b;
    assert c * b <= c * d;
  }

  lemma ClipKeepsUnsaturated(image: Image, clip: GridRect)
    requires Representable(image.gridRect) && Representable(clip) && Unsaturated(image)
    requires IntersectRect(image.gridRect, clip).Some?
    ensures ClipImage(image, clip).Some? && Unsaturated(ClipImage(image, clip).value)
  {
    hide KeptPixels, SkippedPixels, RenderedPixels;
    ClipKeepsSource(image, clip);
    IntersectionIsCommonCells(image.gridRect, clip);
    var piece := ClipImage(image, clip).value;
    var outer, inner := image.gridRect, piece.gridRect;
    PixelsStayInside(image.renderedPixelWidth, 0, inner.cols, outer.cols);
    PixelsStayInside(image.renderedPixelHeight, 0, inner.rows, outer.rows);
    KeptIsShare(image.renderedPixelWidth, inner.cols, outer.cols);
    KeptIsShare(image.renderedPixelHeight, inner.rows, outer.rows);
    SmallerProduct(EffectiveWidth(piece), inner.cols, EffectiveWidth(image), outer.cols);
    SmallerProduct(EffectiveHeight(piece), inner.rows, EffectiveHeight(image), outer.rows);
    SmallerProduct(piece.renderedPixelWidth, inner.cols, image.renderedPixelWidth, outer.cols);
    SmallerProduct(piece.renderedPixelHeight, inner.rows, image.renderedPixelHeight, outer.rows);
  }

  lemma AxisChains(
    aStart: nat, aLength: nat, aFirst: int, aCells: nat, bStart: nat, bLength: nat, bFirst: int, bCells: nat,
    cStart: nat, cLength: nat, cFirst: int, cCells: nat, m: nat, n: nat)
    requires AxisPart(aStart, aLength, aFirst, aCells, bStart, bLength, bFirst, bCells, m)
    requires AxisPart(bStart, bLength, bFirst, bCells, cStart, cLength, cFirst, cCells, n)
    ensures AxisPart(aStart, aLength, aFirst, aCells, cStart, cLength, cFirst, cCells, m + n)
  {
    hide SourceAt;
    forall edge | aFirst <= edge <= aFirst + aCells
      ensures -2.0 * (m + n) as real <= SourceAt(cStart, cLength, cFirst, cCells, edge)
                                        - SourceAt(aStart, aLength, aFirst, aCells, edge) <= 2.0 * (m + n) as real
    {
      var b := SourceAt(bStart, bLength, bFirst, bCells, edge);
      assert (m + n) as real == m as real + n as real;
    }
  }

  lemma ShowsPartChains(a: Image, b: Image, c: Image, m: nat, n: nat)
    requires ShowsPart(a, b, m) && ShowsPart(b, c, n)
    ensures ShowsPart(a, c, m + n)
  {
    hide AxisPart, Portion;
    var (i, k, o) := (a.gridRect, b.gridRect, c.gridRect);
    AxisOrder(a, b, m);
    AxisOrder(b, c, n);
    AxisChains(a.sourceX, EffectiveWidth(a), i.origin.col, i.cols, b.sourceX, EffectiveWidth(b), k.origin.col, k.cols,
               c.sourceX, EffectiveWidth(c), o.origin.col, o.cols, m, n);
    AxisChains(a.sourceY, EffectiveHeight(a), i.origin.row, i.rows, b.sourceY, EffectiveHeight(b), k.origin.row, k.rows,
               c.sourceY, EffectiveHeight(c), o.origin.row, o.rows, m, n);
    assert (m + n) as real == m as real + n as real;
  }

  lemma AxisOrder(inner: Image, outer: Image, clips: nat)
    requires ShowsPart(inner, outer, clips)
    ensures outer.gridRect.origin.col <= inner.gridRect.origin.col && outer.gridRect.origin.row <= inner.gridRect.origin.row
  {
  }

  lemma MoreClips(inner: Image, outer: Image, clips: nat, more: nat)
    requires ShowsPart(inner, outer, clips) && clips <= more
    ensures ShowsPart(inner, outer, more)
  {
    hide SourceAt, Portion;
    assert clips as real <= more as real;
  }

  lemma WholeIsPart(image: Image, clips: nat)
    requires image.gridRect.rows > 0 && image.gridRect.cols > 0
    ensures ShowsPart(image, image, clips)
  {
    hide SourceAt, Portion;
  }

  // ----- through clipping and cutting -----

  ghost predicate IsGoodPart(part: Image, image: Image, clips: nat) {
    && ShowsPart(part, image, clips) && Unsaturated(part)
    && Representable(part.gridRect) && part.gridRect.rows > 0 && part.gridRect.cols > 0
  }

  ghost predicate AllGoodParts(parts: seq<Image>, image: Image, clips: nat) {
    forall i :: 0 <= i < |parts| ==> IsGoodPart(parts[i], image, clips)
  }

  lemma PartsOfParts(parts: seq<Image>, part: Image, image: Image, clips: nat)
    requires AllGoodParts(parts, part, 1) && IsGoodPart(part, image, clips)
    ensures AllGoodParts(parts, image, clips + 1)
  {
    hide ShowsPart, Unsaturated, Representable;
    forall i | 0 <= i < |parts|
      ensures IsGoodPart(parts[i], image, clips + 1)
    {
      ShowsPartChains(parts[i], part, image, 1, clips);
      assert 1 + clips == clips + 1;
    }
  }

  lemma {:induction false} ClipAllShowsParts(image: Image, candidates: seq<GridRect>)
    requires Representable(image.gridRect) && Unsaturated(image)
    requires forall i :: 0 <= i < |candidates| ==> Representable(candidates[i])
    ensures AllGoodParts(ClipAll(image, candidates), image, 1)
  {
    hide ShowsPart, Unsaturated, Representable;
    if candidates != [] {
      var last := candidates[|candidates| - 1];
      ClipAllShowsParts(image, candidates[..|candidates| - 1]);
      if IntersectRect(image.gridRect, last).Some? {
        ClipShowsPart(image, last);
      }
    }
  }

  lemma SubtractShowsParts(image: Image, occluder: GridRect)
    requires Representable(image.gridRect) && Representable(occluder) && Unsaturated(image)
    requires image.gridRect.rows > 0 && image.gridRect.cols > 0
    ensures AllGoodParts(SubtractImage(image, occluder), image, 1)
  {
    hide ShowsPart, Unsaturated, Representable;
    IntersectionIsCommonCells(image.gridRect, occluder);
    match IntersectRect(image.gridRect, occluder) {
      case None => WholeIsPart(image, 1);
      case Some(hidden) =>
        SurroundingsAreGood(image.gridRect, hidden);
        ClipAllShowsParts(image, Surroundings(image.gridRect, hidden));
    }
  }

  lemma {:induction false} SubtractAllShowsParts(parts: seq<Image>, image: Image, occluder: GridRect, clips: nat)
    requires AllGoodParts(parts, image, clips) && Representable(occluder)
    ensures AllGoodParts(SubtractAll(parts, occluder), image, clips + 1)
  {
    hide ShowsPart, Unsaturated, Representable, SubtractImage;
    if parts != [] {
      var last := parts[|parts| - 1];
      assert IsGoodPart(last, image, clips);
      SubtractAllShowsParts(parts[..|parts| - 1], image, occluder, clips);
      SubtractShowsParts(last, occluder);
      PartsOfParts(SubtractImage(last, occluder), last, image, clips);
    }
  }

  lemma {:induction false} FragmentsShowParts(parts: seq<Image>, image: Image, occluders: seq<GridRect>, clips: nat)
    requires AllGoodParts(parts, image, clips)
    requires forall i :: 0 <= i < |occluders| ==> Representable(occluders[i])
    ensures AllGoodParts(Fragments(parts, occluders), image, clips + |occluders|)
  {
    hide IsGoodPart, SubtractAll, Representable;
    if occluders != [] {
      var front := occluders[..|occluders| - 1];
      FragmentsShowParts(parts, image, front, clips);
      SubtractAllShowsParts(Fragments(parts, front), image, occluders[|occluders| - 1], clips + |front|);
      assert clips + |front| + 1 == clips + |occluders|;
    }
  }

  /**
    * The fragments of a placement show, in every cell, the part of the picture the whole placement
    * shows there, up to the rounding of the clips they went through.
    */
  lemma VisibleFragmentsShowTheirPart(image: Image, bounds: GridRect, occluders: seq<GridRect>)
    requires Representable(image.gridRect) && Representable(bounds) && Unsaturated(image)
    requires forall i :: 0 <= i < |occluders| ==> Representable(occluders[i])
    ensures var pieces := VisibleFragments(image, bounds, occluders);
      forall i :: 0 <= i < |pieces| ==> ShowsPart(pieces[i], image, 1 + |occluders|)
  {
    hide ShowsPart, Unsaturated, Representable, Fragments;
    ClipKeepsSource(image, bounds);
    if IntersectRect(image.gridRect, bounds).Some? {
      ClipShowsPart(image, bounds);
      var clipped := ClipImage(image, bounds).value;
      FragmentsShowParts([clipped], image, occluders, 1);
      var pieces := VisibleFragments(image, bounds, occluders);
      forall i | 0 <= i < |pieces|
        ensures ShowsPart(pieces[i], image, 1 + |occluders|)
      {
        assert IsGoodPart(pieces[i], image, 1 + |occluders|);
      }
    }
  }
}

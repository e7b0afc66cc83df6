/** Composition of image placements: the visible fragments of every placement, with outer ids. */
module ImageComposition {
  import opened Common
  import opened Grid
  import opened SceneOperations
  import opened Composition
  import opened ImageClipping
  import opened ImageSources
  import opened OuterIds

  datatype ImageScene = ImageScene(
    scene: Scene, placements: seq<Placement>, uploads: seq<Upload>, cellWidthPx: U32, cellHeightPx: U32)

  datatype Record = Record(owner: nat, sourceImageId: nat, image: Image)

  /** The two hash functions; nothing about them is assumed. */
  datatype Seeds = Seeds(image: ImageKey -> nat, placement: (nat, nat, Image) -> nat)

  function RectOf(s: Surface): GridRect {
    GridRect(s.origin, s.geometry.rows, s.geometry.cols)
  }

  function Bounds(scene: Scene): GridRect {
    GridRect(GridPoint(0, 0), scene.geometry.rows, scene.geometry.cols)
  }

  /** The overlay the placement belongs to, as a position from back to front. */
  function OwnerLayer(sorted: seq<SceneOverlay>, owner: nat): (position: Option<nat>)
    ensures position.Some? ==> position.value < |sorted| && sorted[position.value].surface.id == owner
                               && forall i :: 0 <= i < position.value ==> sorted[i].surface.id != owner
    ensures position.None? ==> forall i :: 0 <= i < |sorted| ==> sorted[i].surface.id != owner
  {
    if sorted == [] then None
    else if sorted[0].surface.id == owner then Some(0)
    else
      match OwnerLayer(sorted[1..], owner)
      case None => None
      case Some(k) => Some(k + 1)
  }

  function RectsOf(overlays: seq<SceneOverlay>): (rects: seq<GridRect>)
    ensures |rects| == |overlays| && forall i :: 0 <= i < |rects| ==> rects[i] == RectOf(overlays[i].surface)
  {
    seq(|overlays|, i requires 0 <= i < |overlays| => RectOf(overlays[i].surface))
  }

  /** The overlays in front of the placement's owner: all of them for a pane. */
  function Occluders(sorted: seq<SceneOverlay>, owner: nat): seq<GridRect> {
    match OwnerLayer(sorted, owner)
    case None => RectsOf(sorted)
    case Some(k) => RectsOf(sorted[k + 1..])
  }

  function VisiblePieces(scene: Scene, p: Placement): seq<Image> {
    if p.image.visible then VisibleFragments(p.image, Bounds(scene), Occluders(SortedOverlays(scene.overlays), p.owner))
    else []
  }

  predicate ImageSceneFits(s: ImageScene) {
    && s.scene.geometry.rows <= Composition.MAX_U16 && s.scene.geometry.cols <= Composition.MAX_U16
    && (forall i :: 0 <= i < |s.scene.overlays| ==> Representable(RectOf(s.scene.overlays[i].surface)))
    && (forall i :: 0 <= i < |s.placements| ==> Representable(s.placements[i].image.gridRect))
  }

  /**
    * A placement keeps showing exactly the cells inside the scene and outside every overlay in front
    * of its owner, each in one fragment, with a nonempty part of the original source.
    */
  lemma PlacementShowsItsVisibleCells(s: ImageScene, k: nat)
    requires ImageSceneFits(s) && k < |s.placements| && s.placements[k].image.visible
    ensures var p := s.placements[k];
      var pieces := VisiblePieces(s.scene, p);
      && Disjoint(pieces) && AllFragments(pieces, p.image)
      && forall r, c :: Shows(pieces, r, c) <==>
           && Covers(p.image.gridRect, r, c)
           && 0 <= r < s.scene.geometry.rows && 0 <= c < s.scene.geometry.cols
           && !AnyCovers(Occluders(SortedOverlays(s.scene.overlays), p.owner), r, c)
  {
    hide Shows, AnyCovers, Disjoint, AllFragments, VisibleFragments;
    var p := s.placements[k];
    var sorted := SortedOverlays(s.scene.overlays);
    OverlaysFit(s, sorted);
    FragmentsPartitionVisibleCells(p.image, Bounds(s.scene), Occluders(sorted, p.owner));
  }

  lemma OverlaysFit(s: ImageScene, sorted: seq<SceneOverlay>)
    requires ImageSceneFits(s) && sorted == SortedOverlays(s.scene.overlays)
    ensures forall i :: 0 <= i < |sorted| ==> Representable(RectOf(sorted[i].surface))
  {
    SameElements(sorted, s.scene.overlays);
    forall i | 0 <= i < |sorted|
      ensures Representable(RectOf(sorted[i].surface))
    {
      assert sorted[i] in sorted;
      var k :| 0 <= k < |s.scene.overlays| && s.scene.overlays[k] == sorted[i];
    }
  }

  // ----- which overlays are in front -----

  predicate Behind(overlays: seq<SceneOverlay>, j: nat, i: nat)
    requires i < |overlays| && j < |overlays|
  {
    overlays[j].zIndex < overlays[i].zIndex || (overlays[j].zIndex == overlays[i].zIndex && j < i)
  }

  /** Overlay `i` is in front of everything a pane owns, and of what the overlays behind it own. */
  predicate InFront(overlays: seq<SceneOverlay>, i: nat, owner: nat)
    requires i < |overlays|
  {
    || (forall j :: 0 <= j < |overlays| ==> overlays[j].surface.id != owner)
    || (exists j :: 0 <= j < |overlays| && overlays[j].surface.id == owner && Behind(overlays, j, i))
  }

  predicate HiddenAt(overlays: seq<SceneOverlay>, owner: nat, r: int, c: int) {
    exists i :: 0 <= i < |overlays| && InFront(overlays, i, owner) && Covers(RectOf(overlays[i].surface), r, c)
  }

  predicate NumberedByPosition(overlays: seq<SceneOverlay>) {
    forall i :: 0 <= i < |overlays| ==> overlays[i].order == i
  }

  /** The sorted overlays, and where each of them was. */
  lemma SortedByDepth(overlays: seq<SceneOverlay>)
    requires NumberedByPosition(overlays)
    ensures var sorted := SortedOverlays(overlays);
      && (forall a :: 0 <= a < |sorted| ==> sorted[a].order < |overlays| && overlays[sorted[a].order] == sorted[a])
      && (forall i :: 0 <= i < |overlays| ==> overlays[i] in sorted)
      && (forall a, b :: 0 <= a < b < |sorted| ==> Behind(overlays, sorted[a].order, sorted[b].order))
  {
    hide SortedOverlays;
    var sorted := SortedOverlays(overlays);
    SortedInOrder(overlays);
    SameOverlays(overlays);
    forall a | 0 <= a < |sorted|
      ensures sorted[a].order < |overlays| && overlays[sorted[a].order] == sorted[a]
    {
      assert sorted[a] in overlays;
    }
  }

  lemma SameOverlays(overlays: seq<SceneOverlay>)
    ensures forall o :: o in SortedOverlays(overlays) <==> o in overlays
  {
    SameElements(SortedOverlays(overlays), overlays);
  }

  lemma SortedInOrder(overlays: seq<SceneOverlay>)
    requires NumberedByPosition(overlays)
    ensures var sorted := SortedOverlays(overlays);
      forall a, b :: 0 <= a < b < |sorted| ==>
        sorted[a].zIndex < sorted[b].zIndex || (sorted[a].zIndex == sorted[b].zIndex && sorted[a].order < sorted[b].order)
  {
    hide SortByKey;
    var key, order := (o: SceneOverlay) => o.zIndex, (o: SceneOverlay) => o.order;
    SortIsStable(overlays, key, order);
    var sorted := SortByKey(overlays, key);
    assert forall a :: 0 <= a < |sorted| ==> key(sorted[a]) == sorted[a].zIndex && order(sorted[a]) == sorted[a].order;
  }

  lemma OccluderIsInFront(overlays: seq<SceneOverlay>, owner: nat, r: int, c: int)
    requires NumberedByPosition(overlays) && AnyCovers(Occluders(SortedOverlays(overlays), owner), r, c)
    ensures HiddenAt(overlays, owner, r, c)
  {
    hide Covers, SortedOverlays, InFront, OwnerLayer;
    var sorted := SortedOverlays(overlays);
    OwnerLayerIsInside(sorted, owner);
    var first := if OwnerLayer(sorted, owner).Some? then OwnerLayer(sorted, owner).value + 1 else 0;
    var occluders := Occluders(sorted, owner);
    assert sorted[0..] == sorted && occluders == RectsOf(sorted[first..]);
    var p :| 0 <= p < |occluders| && Covers(occluders[p], r, c);
    PositionIsInFront(overlays, sorted, owner, first + p);
  }

  lemma InFrontOccludes(overlays: seq<SceneOverlay>, owner: nat, r: int, c: int)
    requires NumberedByPosition(overlays) && HiddenAt(overlays, owner, r, c)
    ensures AnyCovers(Occluders(SortedOverlays(overlays), owner), r, c)
  {
    hide Covers, SortedOverlays, InFront, OwnerLayer;
    var sorted := SortedOverlays(overlays);
    OwnerLayerIsInside(sorted, owner);
    var first := if OwnerLayer(sorted, owner).Some? then OwnerLayer(sorted, owner).value + 1 else 0;
    var occluders := Occluders(sorted, owner);
    assert sorted[0..] == sorted && occluders == RectsOf(sorted[first..]);
    var i :| 0 <= i < |overlays| && InFront(overlays, i, owner) && Covers(RectOf(overlays[i].surface), r, c);
    var a := FrontHasPosition(overlays, sorted, owner, i);
    assert occluders[a - first] == RectOf(overlays[i].surface);
  }

  /** The occluders are the overlays in front of the owner, wherever the sort put them. */
  lemma OccludersAreInFront(overlays: seq<SceneOverlay>, owner: nat, r: int, c: int)
    requires NumberedByPosition(overlays)
    ensures AnyCovers(Occluders(SortedOverlays(overlays), owner), r, c) <==> HiddenAt(overlays, owner, r, c)
  {
    hide AnyCovers, SortedOverlays, Occluders, HiddenAt;
    if AnyCovers(Occluders(SortedOverlays(overlays), owner), r, c) {
      OccluderIsInFront(overlays, owner, r, c);
    }
    if HiddenAt(overlays, owner, r, c) {
      InFrontOccludes(overlays, owner, r, c);
    }
  }

  lemma DeeperComesFirst(overlays: seq<SceneOverlay>, sorted: seq<SceneOverlay>, b: nat, a: nat)
    requires NumberedByPosition(overlays) && sorted == SortedOverlays(overlays) && a < |sorted| && b < |sorted|
    requires sorted[a].order < |overlays| && sorted[b].order < |overlays|
    requires Behind(overlays, sorted[b].order, sorted[a].order)
    ensures b < a
  {
    hide SortedOverlays;
    SortedByDepth(overlays);
  }

  lemma PositionIsInFront(overlays: seq<SceneOverlay>, sorted: seq<SceneOverlay>, owner: nat, a: nat)
    requires NumberedByPosition(overlays) && sorted == SortedOverlays(overlays) && a < |sorted|
    requires OwnerLayer(sorted, owner).Some? ==> OwnerLayer(sorted, owner).value < a
    ensures sorted[a].order < |overlays| && overlays[sorted[a].order] == sorted[a] && InFront(overlays, sorted[a].order, owner)
  {
    hide SortedOverlays, Behind;
    SortedByDepth(overlays);
    match OwnerLayer(sorted, owner) {
      case Some(k) => assert Behind(overlays, sorted[k].order, sorted[a].order);
      case None =>
        forall j | 0 <= j < |overlays|
          ensures overlays[j].surface.id != owner
        {
          var b :| 0 <= b < |sorted| && sorted[b] == overlays[j];
        }
    }
  }

  lemma FrontHasPosition(overlays: seq<SceneOverlay>, sorted: seq<SceneOverlay>, owner: nat, i: nat) returns (a: nat)
    requires NumberedByPosition(overlays) && sorted == SortedOverlays(overlays)
    requires i < |overlays| && InFront(overlays, i, owner)
    ensures a < |sorted| && sorted[a] == overlays[i]
    ensures OwnerLayer(sorted, owner).Some? ==> OwnerLayer(sorted, owner).value < a
  {
    hide SortedOverlays;
    SortedByDepth(overlays);
    assert overlays[i] in sorted;
    a :| 0 <= a < |sorted| && sorted[a] == overlays[i];
    if OwnerLayer(sorted, owner).Some? {
      var k := OwnerLayer(sorted, owner).value;
      assert overlays[sorted[k].order].surface.id == owner;
      var j :| 0 <= j < |overlays| && overlays[j].surface.id == owner && Behind(overlays, j, i);
      assert overlays[j] in sorted;
      var b :| 0 <= b < |sorted| && sorted[b] == overlays[j];
      DeeperComesFirst(overlays, sorted, b, a);
    }
  }

  /**
    * A visible placement shows exactly its cells on the screen that no overlay in front of its owner
    * covers, each in one fragment; and each fragment shows in its cells the part of the picture that
    * the placement shows there, up to the rounding of the clips.
    */
  lemma PlacementShowsWhatIsInFront(s: ImageScene, k: nat)
    requires ImageSceneFits(s) && NumberedByPosition(s.scene.overlays)
    requires k < |s.placements| && s.placements[k].image.visible && Unsaturated(s.placements[k].image)
    ensures var p := s.placements[k];
      var pieces := VisiblePieces(s.scene, p);
      && Disjoint(pieces)
      && (forall i :: 0 <= i < |pieces| ==> ShowsPart(pieces[i], p.image, 1 + |s.scene.overlays|))
      && forall r, c :: Shows(pieces, r, c) <==>
           && Covers(p.image.gridRect, r, c)
           && 0 <= r < s.scene.geometry.rows && 0 <= c < s.scene.geometry.cols
           && !HiddenAt(s.scene.overlays, p.owner, r, c)
  {
    hide Shows, AnyCovers, Disjoint, AllFragments, VisibleFragments, HiddenAt, ShowsPart, Unsaturated, Occluders, Representable,
         SortedOverlays;
    var p := s.placements[k];
    var sorted := SortedOverlays(s.scene.overlays);
    var occluders := Occluders(sorted, p.owner);
    PlacementShowsItsVisibleCells(s, k);
    forall r, c
      ensures AnyCovers(occluders, r, c) <==> HiddenAt(s.scene.overlays, p.owner, r, c)
    {
      OccludersAreInFront(s.scene.overlays, p.owner, r, c);
    }
    OverlaysFit(s, sorted);
    OccludersFit(s, sorted, p.owner);
    BoundsFit(s);
    VisibleFragmentsShowTheirPart(p.image, Bounds(s.scene), occluders);
    var pieces := VisiblePieces(s.scene, p);
    forall i | 0 <= i < |pieces|
      ensures ShowsPart(pieces[i], p.image, 1 + |s.scene.overlays|)
    {
      MoreClips(pieces[i], p.image, 1 + |occluders|, 1 + |s.scene.overlays|);
    }
  }

  lemma BoundsFit(s: ImageScene)
    requires ImageSceneFits(s)
    ensures Representable(Bounds(s.scene))
  {
  }

  lemma OccludersFit(s: ImageScene, sorted: seq<SceneOverlay>, owner: nat)
    requires sorted == SortedOverlays(s.scene.overlays)
    requires forall i :: 0 <= i < |sorted| ==> Representable(RectOf(sorted[i].surface))
    ensures var occluders := Occluders(sorted, owner);
      && |occluders| <= |s.scene.overlays|
      && forall i :: 0 <= i < |occluders| ==> Representable(occluders[i])
  {
    assert |sorted| == |multiset(sorted)| == |multiset(s.scene.overlays)| == |s.scene.overlays|;
  }

  /** Subtracts every overlay in front of the owner, stopping when nothing is left. */
  method CutOverlays(image: Image, sorted: seq<SceneOverlay>, owner: nat) returns (fragments: seq<Image>)
    ensures fragments == Fragments([image], Occluders(sorted, owner))
  {
    hide Fragments, SubtractAll, OwnerLayer;
    fragments := [image];
    var ownerLayer := OwnerLayer(sorted, owner);
    OwnerLayerIsInside(sorted, owner);
    var first := if ownerLayer.Some? then ownerLayer.value + 1 else 0;
    ghost var occluders := RectsOf(sorted[first..]);
    assert sorted[0..] == sorted;
    NoOccluders([image], occluders);
    for index := 0 to |sorted|
      invariant fragments == Fragments([image], occluders[..Max(0, index - first)])
    {
      if ownerLayer.Some? && index <= ownerLayer.value {
        continue;
      }
      assert occluders[index - first] == RectOf(sorted[index].surface);
      OneOccluder([image], occluders, index - first);
      fragments := SubtractAll(fragments, RectOf(sorted[index].surface));
      if fragments == [] {
        NothingLeft([image], occluders, index - first + 1);
        return;
      }
    }
    assert occluders[..|sorted| - first] == occluders;
  }

  lemma OwnerLayerIsInside(sorted: seq<SceneOverlay>, owner: nat)
    ensures OwnerLayer(sorted, owner).Some? ==> OwnerLayer(sorted, owner).value < |sorted|
  {
  }

  lemma NoOccluders(fragments: seq<Image>, occluders: seq<GridRect>)
    ensures Fragments(fragments, occluders[..0]) == fragments
  {
  }

  lemma OneOccluder(fragments: seq<Image>, occluders: seq<GridRect>, k: nat)
    requires k < |occluders|
    ensures Fragments(fragments, occluders[..k + 1]) == SubtractAll(Fragments(fragments, occluders[..k]), occluders[k])
  {
    assert occluders[..k + 1][..k] == occluders[..k];
  }

  lemma {:induction false} NothingLeft(fragments: seq<Image>, occluders: seq<GridRect>, k: nat)
    requires k <= |occluders| && Fragments(fragments, occluders[..k]) == []
    ensures Fragments(fragments, occluders) == []
    decreases |occluders|
  {
    if k < |occluders| {
      var front := occluders[..|occluders| - 1];
      assert front[..k] == occluders[..k];
      NothingLeft(fragments, front, k);
    } else {
      assert occluders[..k] == occluders;
    }
  }

  // ----- records -----

  function Dressed(s: ImageScene, p: Placement, fragment: Image, imageId: Id): Image {
    var upload := FindUpload(s.uploads, p.owner, p.image.imageId);
    fragment.(
      dataLength := if upload.Some? then upload.value.dataLength else fragment.dataLength,
      pixelWidth := if upload.Some? then upload.value.pixelWidth else fragment.pixelWidth,
      pixelHeight := if upload.Some? then upload.value.pixelHeight else fragment.pixelHeight,
      renderedPixelWidth :=
        if fragment.renderedPixelWidth == 0 && s.cellWidthPx > 0 then MulU32(fragment.gridRect.cols, s.cellWidthPx)
        else fragment.renderedPixelWidth,
      renderedPixelHeight :=
        if fragment.renderedPixelHeight == 0 && s.cellHeightPx > 0 then MulU32(fragment.gridRect.rows, s.cellHeightPx)
        else fragment.renderedPixelHeight,
      imageId := imageId)
  }

  /** A record that still carries its source placement id, with the seed of its outer one. */
  datatype Draft = Draft(record: Record, seed: nat)

  function DraftOf(s: ImageScene, seeds: Seeds, p: Placement, fragment: Image, imageId: Id): Draft {
    var image := Dressed(s, p, fragment, imageId);
    Draft(Record(p.owner, p.image.imageId, image), seeds.placement(p.owner, p.image.placementId, image))
  }

  function DraftsOfPieces(s: ImageScene, seeds: Seeds, p: Placement, pieces: seq<Image>, imageId: Id)
    : (drafts: seq<Draft>)
    ensures |drafts| == |pieces|
    ensures forall i :: 0 <= i < |pieces| ==> drafts[i] == DraftOf(s, seeds, p, pieces[i], imageId)
  {
    seq(|pieces|, i requires 0 <= i < |pieces| => DraftOf(s, seeds, p, pieces[i], imageId))
  }

  predicate HasKeys(s: ImageScene, ids: map<ImageKey, Id>, placements: seq<Placement>) {
    forall p :: p in placements ==> PlacementKey(s.uploads, p) in ids
  }

  /** All visible fragments, placement by placement. */
  function Drafts(s: ImageScene, seeds: Seeds, ids: map<ImageKey, Id>, placements: seq<Placement>): seq<Draft>
    requires HasKeys(s, ids, placements)
  {
    if placements == [] then []
    else
      var last := placements[|placements| - 1];
      Drafts(s, seeds, ids, placements[..|placements| - 1])
      + DraftsOfPieces(s, seeds, last, VisiblePieces(s.scene, last), ids[PlacementKey(s.uploads, last)])
  }

  function DraftSeeds(drafts: seq<Draft>): (seeds: seq<nat>)
    ensures |seeds| == |drafts| && forall i :: 0 <= i < |drafts| ==> seeds[i] == drafts[i].seed
  {
    seq(|drafts|, i requires 0 <= i < |drafts| => drafts[i].seed)
  }

  function WithPlacementId(r: Record, id: Id): Record {
    r.(image := r.image.(placementId := id))
  }

  function Numbered(drafts: seq<Draft>, ids: seq<Id>): (records: seq<Record>)
    requires |ids| == |drafts|
    ensures |records| == |drafts|
    ensures forall i :: 0 <= i < |drafts| ==> records[i] == WithPlacementId(drafts[i].record, ids[i])
  {
    seq(|drafts|, i requires 0 <= i < |drafts| => WithPlacementId(drafts[i].record, ids[i]))
  }

  /** The order of records: z-index, then image id, then placement id. */
  function Rank(r: Record): int {
    r.image.zIndex * 0x1_0000_0000_0000_0000 + r.image.imageId * 0x1_0000_0000 + r.image.placementId
  }

  predicate NotAfter(a: Record, b: Record) {
    || a.image.zIndex < b.image.zIndex
    || (a.image.zIndex == b.image.zIndex
        && (a.image.imageId < b.image.imageId
            || (a.image.imageId == b.image.imageId && a.image.placementId <= b.image.placementId)))
  }

  predicate InDisplayOrder(records: seq<Record>) {
    forall i, j :: 0 <= i < j < |records| ==> NotAfter(records[i], records[j])
  }

  lemma RankIsLexicographic(a: Record, b: Record)
    ensures Rank(a) <= Rank(b) <==> NotAfter(a, b)
  {
  }

  lemma RankOrderIsDisplayOrder(records: seq<Record>)
    requires OrderedBy(records, Rank)
    ensures InDisplayOrder(records)
  {
    forall i, j | 0 <= i < j < |records|
      ensures NotAfter(records[i], records[j])
    {
      RankIsLexicographic(records[i], records[j]);
    }
  }

  ghost predicate AreComposedRecords(records: seq<Record>, drafts: seq<Draft>) {
    exists ids: seq<Id> ::
      Assigned(DraftSeeds(drafts), ids) && records == SortByKey(Numbered(drafts, ids), Rank)
  }

  /** Numbers the fragments of one placement, after those numbered before. */
  method NumberPieces(s: ImageScene, seeds: Seeds, p: Placement, pieces: seq<Image>, imageId: Id, usedBefore: set<Id>,
                      ghost earlier: seq<Draft>, ghost idsBefore: seq<Id>)
    returns (records: seq<Record>, used: set<Id>, ghost ids: seq<Id>)
    requires |earlier| + |pieces| < MAX_U32
    requires Assigned(DraftSeeds(earlier), idsBefore) && usedBefore == SetOf(idsBefore)
    ensures Assigned(DraftSeeds(earlier + DraftsOfPieces(s, seeds, p, pieces, imageId)), idsBefore + ids)
    ensures used == SetOf(idsBefore + ids) && |ids| == |pieces|
    ensures records == Numbered(DraftsOfPieces(s, seeds, p, pieces, imageId), ids)
  {
    hide IsFirstFree, FirstId, Dressed, Assigned, SetOf, Numbered;
    records, used, ids := [], usedBefore, [];
    NothingNumbered();
    ghost var drafts := DraftsOfPieces(s, seeds, p, pieces, imageId);
    AssignedLength(DraftSeeds(earlier), idsBefore);
    assert earlier + drafts[..0] == earlier && idsBefore + [] == idsBefore;
    for i := 0 to |pieces|
      invariant |ids| == i && |idsBefore| == |earlier|
      invariant Assigned(DraftSeeds(earlier + drafts[..i]), idsBefore + ids)
      invariant used == SetOf(idsBefore + ids)
      invariant records == Numbered(drafts[..i], ids)
    {
      var upload := FindUpload(s.uploads, p.owner, p.image.imageId);
      var fragment := Dressed(s, p, pieces[i], imageId);
      var seed := seeds.placement(p.owner, p.image.placementId, fragment);
      SetOfIsSmall(idsBefore + ids);
      var id, usedAfter := AllocateOuterId(seed, used);
      AssignedPush(DraftSeeds(earlier + drafts[..i]), idsBefore + ids, seed, id);
      assert earlier + drafts[..i + 1] == earlier + drafts[..i] + [drafts[i]];
      assert DraftSeeds(earlier + drafts[..i + 1]) == DraftSeeds(earlier + drafts[..i]) + [seed];
      assert idsBefore + (ids + [id]) == idsBefore + ids + [id];
      SetOfPush(idsBefore + ids, id, idsBefore + (ids + [id]));
      assert drafts[..i + 1] == drafts[..i] + [drafts[i]];
      NumberedPush(drafts[..i], ids, drafts[i], id);
      records := records + [Record(p.owner, p.image.imageId, fragment.(placementId := id))];
      ids := ids + [id];
      used := usedAfter;
    }
    assert drafts[..|pieces|] == drafts;
  }

  lemma NothingNumbered()
    ensures Numbered([], []) == []
  {
  }

  lemma NumberedPush(drafts: seq<Draft>, ids: seq<Id>, draft: Draft, id: Id)
    requires |ids| == |drafts|
    ensures Numbered(drafts + [draft], ids + [id]) == Numbered(drafts, ids) + [WithPlacementId(draft.record, id)]
  {
  }

  lemma AssignedLength(seeds: seq<nat>, ids: seq<Id>)
    requires Assigned(seeds, ids)
    ensures |ids| == |seeds|
  {
  }

  lemma NumberedConcat(a: seq<Draft>, b: seq<Draft>, idsA: seq<Id>, idsB: seq<Id>)
    requires |a| == |idsA| && |b| == |idsB|
    ensures Numbered(a + b, idsA + idsB) == Numbered(a, idsA) + Numbered(b, idsB)
  {
  }

  function PieceCount(scene: Scene, placements: seq<Placement>): nat {
    if placements == [] then 0
    else PieceCount(scene, placements[..|placements| - 1]) + |VisiblePieces(scene, placements[|placements| - 1])|
  }

  lemma {:induction false} DraftsPerPiece(s: ImageScene, seeds: Seeds, ids: map<ImageKey, Id>,
                                          placements: seq<Placement>)
    requires HasKeys(s, ids, placements)
    ensures |Drafts(s, seeds, ids, placements)| == PieceCount(s.scene, placements)
  {
    hide VisiblePieces, PlacementKey;
    if placements != [] {
      DraftsPerPiece(s, seeds, ids, placements[..|placements| - 1]);
    }
  }

  lemma {:induction false} DraftsGrow(s: ImageScene, seeds: Seeds, ids: map<ImageKey, Id>, placements: seq<Placement>,
                                      n: nat)
    requires HasKeys(s, ids, placements) && n <= |placements|
    ensures HasKeys(s, ids, placements[..n])
    ensures |Drafts(s, seeds, ids, placements[..n])| <= |Drafts(s, seeds, ids, placements)|
    decreases |placements|
  {
    if n < |placements| {
      var front := placements[..|placements| - 1];
      assert front[..n] == placements[..n];
      DraftsGrow(s, seeds, ids, front, n);
    } else {
      assert placements[..n] == placements;
    }
  }

  /** All image records of a scene, in display order. */
  method ComposeImageRecords(s: ImageScene, seeds: Seeds)
    returns (records: seq<Record>, imageIds: map<ImageKey, Id>)
    requires |s.uploads| + |s.placements| < MAX_U32
    requires PieceCount(s.scene, s.placements) < MAX_U32
    ensures IsImageIdMap(imageIds, ImageKeys(s.uploads, s.placements), seeds.image)
    ensures HasKeys(s, imageIds, s.placements)
    ensures AreComposedRecords(records, Drafts(s, seeds, imageIds, s.placements))
  {
    hide Assigned, DraftsOfPieces, VisiblePieces, Fragments, IsImageIdMap, PlacementKey, Occluders, Drafts, ClipImage,
         Rank, SetOf, Injective, Numbered, DraftSeeds, VisibleFragments, SortedOverlays, Bounds;
    var sorted := SortedOverlays(s.scene.overlays);
    imageIds := OuterImageIds(s.uploads, s.placements, seeds.image);
    ImageIdsAreInjective(imageIds, s.uploads, s.placements, seeds.image);
    assert HasKeys(s, imageIds, s.placements);
    DraftsPerPiece(s, seeds, imageIds, s.placements);
    records := [];
    var used: set<Id> := {};
    ghost var ids: seq<Id> := [];
    ghost var drafts: seq<Draft> := [];
    StartNumbering();
    NoPlacements(s, seeds, imageIds, s.placements);
    for i := 0 to |s.placements|
      invariant HasKeys(s, imageIds, s.placements[..i])
      invariant drafts == Drafts(s, seeds, imageIds, s.placements[..i])
      invariant |ids| == |drafts| && Assigned(DraftSeeds(drafts), ids) && used == SetOf(ids)
      invariant records == Numbered(drafts, ids)
    {
      var p := s.placements[i];
      DraftsGrow(s, seeds, imageIds, s.placements, i + 1);
      OneMorePlacement(s, seeds, imageIds, s.placements, i);
      var pieces := [];
      var clipped := ClipImage(p.image, Bounds(s.scene));
      if clipped.Some? && p.image.visible {
        pieces := CutOverlays(clipped.value, sorted, p.owner);
      }
      assert pieces == VisiblePieces(s.scene, p) by { PiecesAreVisible(s.scene, p, sorted, pieces); }
      var imageId := imageIds[PlacementKey(s.uploads, p)];
      ghost var more := DraftsOfPieces(s, seeds, p, pieces, imageId);
      assert |more| == |pieces| by { DraftCount(s, seeds, p, pieces, imageId); }
      ghost var later: seq<Id>;
      var added: seq<Record>;
      added, used, later := NumberPieces(s, seeds, p, pieces, imageId, used, drafts, ids);
      NumberedConcat(drafts, more, ids, later);
      records := records + added;
      ids := ids + later;
      drafts := drafts + more;
    }
    assert s.placements[..|s.placements|] == s.placements;
    records := SortByKey(records, Rank);
  }

  lemma NoPlacements(s: ImageScene, seeds: Seeds, ids: map<ImageKey, Id>, placements: seq<Placement>)
    ensures HasKeys(s, ids, placements[..0]) && Drafts(s, seeds, ids, placements[..0]) == []
  {
  }

  lemma OneMorePlacement(s: ImageScene, seeds: Seeds, ids: map<ImageKey, Id>, placements: seq<Placement>, i: nat)
    requires i < |placements| && HasKeys(s, ids, placements)
    ensures HasKeys(s, ids, placements[..i]) && HasKeys(s, ids, placements[..i + 1])
    ensures var p := placements[i];
      && PlacementKey(s.uploads, p) in ids
      && Drafts(s, seeds, ids, placements[..i + 1])
         == Drafts(s, seeds, ids, placements[..i])
            + DraftsOfPieces(s, seeds, p, VisiblePieces(s.scene, p), ids[PlacementKey(s.uploads, p)])
  {
    hide PlacementKey, VisiblePieces, DraftsOfPieces;
    var next := placements[..i + 1];
    assert next[..i] == placements[..i] && next[i] == placements[i];
    assert placements[i] in placements;
  }

  lemma StartNumbering()
    ensures Assigned(DraftSeeds([]), []) && SetOf([]) == {}
  {
  }

  lemma DraftCount(s: ImageScene, seeds: Seeds, p: Placement, pieces: seq<Image>, imageId: Id)
    ensures |DraftsOfPieces(s, seeds, p, pieces, imageId)| == |pieces|
  {
  }

  lemma PiecesAreVisible(scene: Scene, p: Placement, sorted: seq<SceneOverlay>, pieces: seq<Image>)
    requires sorted == SortedOverlays(scene.overlays)
    requires var clipped := ClipImage(p.image, Bounds(scene));
      pieces == if clipped.Some? && p.image.visible then Fragments([clipped.value], Occluders(sorted, p.owner)) else []
    ensures pieces == VisiblePieces(scene, p)
  {
    hide Fragments;
  }

  // ----- distinct placement ids -----

  predicate DistinctPlacementIds(records: seq<Record>) {
    forall i, j :: 0 <= i < j < |records| ==> records[i].image.placementId != records[j].image.placementId
  }

  lemma {:induction false} OccursOnce(records: seq<Record>, r: Record)
    requires DistinctPlacementIds(records)
    ensures multiset(records)[r] <= 1
  {
    if records != [] {
      var front, last := records[..|records| - 1], records[|records| - 1];
      assert records == front + [last];
      OccursOnce(front, r);
      forall i | 0 <= i < |front|
        ensures front[i] != last
      {
        assert records[i] == front[i];
      }
      assert multiset(records) == multiset(front) + multiset{last};
    }
  }

  lemma TwiceInMultiset(records: seq<Record>, i: nat, j: nat)
    requires i < j < |records| && records[i] == records[j]
    ensures multiset(records)[records[i]] >= 2
  {
    assert records == records[..j] + [records[j]] + records[j + 1..];
    assert records[..j][i] == records[i];
    assert records[i] in multiset(records[..j]);
  }

  lemma ReorderingKeepsIdsDistinct(records: seq<Record>, sorted: seq<Record>)
    requires DistinctPlacementIds(records) && multiset(sorted) == multiset(records)
    ensures DistinctPlacementIds(sorted)
  {
    forall i, j | 0 <= i < j < |sorted|
      ensures sorted[i].image.placementId != sorted[j].image.placementId
    {
      SameElement(sorted, records, sorted[i]);
      SameElement(sorted, records, sorted[j]);
      var a :| 0 <= a < |records| && records[a] == sorted[i];
      var b :| 0 <= b < |records| && records[b] == sorted[j];
      if a == b {
        TwiceInMultiset(sorted, i, j);
        OccursOnce(records, sorted[i]);
      }
    }
  }

  /** All fragments of a scene get distinct, nonzero outer placement ids, and keep everything else. */
  lemma ComposedPlacementIdsAreDistinct(records: seq<Record>, drafts: seq<Draft>)
    requires AreComposedRecords(records, drafts)
    ensures DistinctPlacementIds(records) && |records| == |drafts|
    ensures forall i :: 0 <= i < |records| ==> records[i].image.placementId != 0
    ensures InDisplayOrder(records)
    ensures forall r :: r in records ==>
              exists k, id :: 0 <= k < |drafts| && r == WithPlacementId(drafts[k].record, id)
  {
    hide IsFirstFree, Rank, SortByKey;
    var ids: seq<Id> :| Assigned(DraftSeeds(drafts), ids) && records == SortByKey(Numbered(drafts, ids), Rank);
    AssignedIdsAreDistinct(DraftSeeds(drafts), ids);
    var numbered := Numbered(drafts, ids);
    SortIsOrdered(numbered, Rank);
    RankOrderIsDisplayOrder(records);
    SortKeepsElements(numbered, records);
    assert DistinctPlacementIds(numbered);
    ReorderingKeepsIdsDistinct(numbered, records);
    SameElements(records, numbered);
    forall r | r in records
      ensures exists k, id :: 0 <= k < |drafts| && r == WithPlacementId(drafts[k].record, id)
    {
      assert r in numbered;
      var k :| 0 <= k < |numbered| && numbered[k] == r;
      assert r == WithPlacementId(drafts[k].record, ids[k]);
    }
    forall i | 0 <= i < |records|
      ensures records[i].image.placementId != 0
    {
      assert records[i] in records;
    }
  }

  lemma SortKeepsElements(records: seq<Record>, sorted: seq<Record>)
    requires sorted == SortByKey(records, Rank)
    ensures multiset(sorted) == multiset(records)
  {
  }

  // ----- what a record says -----

  predicate Supplies(upload: Upload, p: Placement) {
    upload.owner == p.owner && upload.imageId == p.image.imageId
  }

  /** The first upload of the placement's owner with its image id. */
  predicate FirstSupply(uploads: seq<Upload>, p: Placement, u: nat) {
    u < |uploads| && Supplies(uploads[u], p) && forall v :: 0 <= v < u ==> !Supplies(uploads[v], p)
  }

  /** A record has the outer id, the size and the length of its upload, or what the placement says when there is none. */
  ghost predicate RecordSupplied(image: Image, uploads: seq<Upload>, ids: map<ImageKey, Id>, p: Placement, piece: Image) {
    && ((forall u :: u in uploads ==> !Supplies(u, p)) ==>
          var key := ImageKey(p.owner, p.image.imageId, p.image.dataDigest);
          && key in ids && image.imageId == ids[key]
          && image.pixelWidth == piece.pixelWidth && image.pixelHeight == piece.pixelHeight
          && image.dataLength == piece.dataLength)
    && (forall u: nat :: FirstSupply(uploads, p, u) ==>
          var key := ImageKey(p.owner, p.image.imageId, uploads[u].digest);
          && key in ids && image.imageId == ids[key]
          && image.pixelWidth == uploads[u].pixelWidth && image.pixelHeight == uploads[u].pixelHeight
          && image.dataLength == uploads[u].dataLength)
  }

  function RenderedSize(rendered: U32, cells: nat, cellPx: U32): nat {
    if rendered > 0 then rendered else Min(cells * cellPx, MAX_U32)
  }

  /** The record shows the fragment: the same cells and the same part of the picture. */
  ghost predicate RecordShows(r: Record, s: ImageScene, ids: map<ImageKey, Id>, p: Placement, piece: Image) {
    && r.owner == p.owner && r.sourceImageId == p.image.imageId
    && r.image.gridRect == piece.gridRect && r.image.zIndex == piece.zIndex && r.image.visible == piece.visible
    && r.image.sourceX == piece.sourceX && r.image.sourceY == piece.sourceY
    && r.image.sourceWidth == piece.sourceWidth && r.image.sourceHeight == piece.sourceHeight
    && r.image.xOffset == piece.xOffset && r.image.yOffset == piece.yOffset
    && r.image.dataDigest == piece.dataDigest
    && r.image.renderedPixelWidth == RenderedSize(piece.renderedPixelWidth, piece.gridRect.cols, s.cellWidthPx)
    && r.image.renderedPixelHeight == RenderedSize(piece.renderedPixelHeight, piece.gridRect.rows, s.cellHeightPx)
    && RecordSupplied(r.image, s.uploads, ids, p, piece)
  }

  ghost predicate HasRecord(records: seq<Record>, s: ImageScene, ids: map<ImageKey, Id>, p: Placement, piece: Image) {
    exists r :: r in records && RecordShows(r, s, ids, p, piece)
  }

  lemma {:induction false} FindsTheFirst(uploads: seq<Upload>, p: Placement)
    ensures match FindUpload(uploads, p.owner, p.image.imageId)
            case None => forall u :: u in uploads ==> !Supplies(u, p)
            case Some(found) => (exists u :: u in uploads && Supplies(u, p))
                                && forall u: nat :: FirstSupply(uploads, p, u) ==> uploads[u] == found
  {
    if uploads != [] && !Supplies(uploads[0], p) {
      var rest := uploads[1..];
      FindsTheFirst(rest, p);
      forall u: nat | FirstSupply(uploads, p, u)
        ensures u > 0 && FirstSupply(rest, p, u - 1)
      {
        assert forall v :: 0 <= v < u - 1 ==> rest[v] == uploads[v + 1];
      }
    }
  }

  lemma DressedRecordShows(s: ImageScene, seeds: Seeds, ids: map<ImageKey, Id>, p: Placement, piece: Image, id: Id)
    requires PlacementKey(s.uploads, p) in ids
    ensures RecordShows(WithPlacementId(DraftOf(s, seeds, p, piece, ids[PlacementKey(s.uploads, p)]).record, id), s, ids, p, piece)
  {
    FindsTheFirst(s.uploads, p);
  }

  /** Draft number `d` is fragment `i` of placement `k`. */
  predicate IsDraft(s: ImageScene, seeds: Seeds, ids: map<ImageKey, Id>, placements: seq<Placement>, d: Draft, k: nat, i: nat)
    requires HasKeys(s, ids, placements)
  {
    && k < |placements| && i < |VisiblePieces(s.scene, placements[k])|
    && placements[k] in placements
    && d == DraftOf(s, seeds, placements[k], VisiblePieces(s.scene, placements[k])[i], ids[PlacementKey(s.uploads, placements[k])])
  }

  lemma {:induction false} DraftIsFragment(
    s: ImageScene, seeds: Seeds, ids: map<ImageKey, Id>, placements: seq<Placement>, d: nat) returns (k: nat, i: nat)
    requires HasKeys(s, ids, placements) && d < |Drafts(s, seeds, ids, placements)|
    ensures IsDraft(s, seeds, ids, placements, Drafts(s, seeds, ids, placements)[d], k, i)
  {
    hide VisiblePieces, PlacementKey, DraftOf;
    var front := placements[..|placements| - 1];
    var earlier := Drafts(s, seeds, ids, front);
    if d < |earlier| {
      k, i := DraftIsFragment(s, seeds, ids, front, d);
      assert placements[k] == front[k];
    } else {
      k, i := |front|, d - |earlier|;
    }
  }

  lemma {:induction false} FragmentIsDraft(
    s: ImageScene, seeds: Seeds, ids: map<ImageKey, Id>, placements: seq<Placement>, k: nat, i: nat) returns (d: nat)
    requires HasKeys(s, ids, placements) && k < |placements| && i < |VisiblePieces(s.scene, placements[k])|
    ensures d < |Drafts(s, seeds, ids, placements)|
    ensures IsDraft(s, seeds, ids, placements, Drafts(s, seeds, ids, placements)[d], k, i)
  {
    hide VisiblePieces, PlacementKey, DraftOf;
    var front := placements[..|placements| - 1];
    if k < |front| {
      assert front[k] == placements[k];
      d := FragmentIsDraft(s, seeds, ids, front, k, i);
    } else {
      d := |Drafts(s, seeds, ids, front)| + i;
    }
  }

  /**
    * The records of a scene are its visible fragments: every record shows one, and every one has its
    * record, with the outer id, size and length of its upload.
    */
  lemma RecordsAreTheFragments(s: ImageScene, seeds: Seeds, ids: map<ImageKey, Id>, records: seq<Record>)
    requires HasKeys(s, ids, s.placements) && AreComposedRecords(records, Drafts(s, seeds, ids, s.placements))
    ensures forall r :: r in records ==>
              exists k, i :: 0 <= k < |s.placements| && 0 <= i < |VisiblePieces(s.scene, s.placements[k])|
                             && RecordShows(r, s, ids, s.placements[k], VisiblePieces(s.scene, s.placements[k])[i])
    ensures forall k, i :: 0 <= k < |s.placements| && 0 <= i < |VisiblePieces(s.scene, s.placements[k])| ==>
              HasRecord(records, s, ids, s.placements[k], VisiblePieces(s.scene, s.placements[k])[i])
  {
    hide VisiblePieces, PlacementKey, DraftOf, RecordShows, Drafts, Rank, Assigned;
    var drafts := Drafts(s, seeds, ids, s.placements);
    ComposedPlacementIdsAreDistinct(records, drafts);
    forall r | r in records
      ensures exists k, i :: 0 <= k < |s.placements| && 0 <= i < |VisiblePieces(s.scene, s.placements[k])|
                             && RecordShows(r, s, ids, s.placements[k], VisiblePieces(s.scene, s.placements[k])[i])
    {
      var d, id :| 0 <= d < |drafts| && r == WithPlacementId(drafts[d].record, id);
      var k, i := DraftIsFragment(s, seeds, ids, s.placements, d);
      DressedRecordShows(s, seeds, ids, s.placements[k], VisiblePieces(s.scene, s.placements[k])[i], id);
    }
    forall k, i | 0 <= k < |s.placements| && 0 <= i < |VisiblePieces(s.scene, s.placements[k])|
      ensures HasRecord(records, s, ids, s.placements[k], VisiblePieces(s.scene, s.placements[k])[i])
    {
      var r := FragmentHasItsRecord(s, seeds, ids, records, k, i);
    }
  }

  lemma FragmentHasItsRecord(s: ImageScene, seeds: Seeds, ids: map<ImageKey, Id>, records: seq<Record>, k: nat, i: nat)
    returns (r: Record)
    requires HasKeys(s, ids, s.placements) && AreComposedRecords(records, Drafts(s, seeds, ids, s.placements))
    requires k < |s.placements| && i < |VisiblePieces(s.scene, s.placements[k])|
    ensures r in records && RecordShows(r, s, ids, s.placements[k], VisiblePieces(s.scene, s.placements[k])[i])
  {
    hide VisiblePieces, PlacementKey, DraftOf, RecordShows, Drafts, AreComposedRecords;
    var drafts := Drafts(s, seeds, ids, s.placements);
    var d := FragmentIsDraft(s, seeds, ids, s.placements, k, i);
    var id := DraftHasItsRecord(records, drafts, d);
    r := WithPlacementId(drafts[d].record, id);
    DressedRecordShows(s, seeds, ids, s.placements[k], VisiblePieces(s.scene, s.placements[k])[i], id);
  }

  lemma DraftHasItsRecord(records: seq<Record>, drafts: seq<Draft>, d: nat) returns (id: Id)
    requires AreComposedRecords(records, drafts) && d < |drafts|
    ensures WithPlacementId(drafts[d].record, id) in records
  {
    hide Rank, SortByKey, IsFirstFree;
    var ids: seq<Id> :| Assigned(DraftSeeds(drafts), ids) && records == SortByKey(Numbered(drafts, ids), Rank);
    var numbered := Numbered(drafts, ids);
    SortKeepsElements(numbered, records);
    SameElements(records, numbered);
    id := ids[d];
    assert numbered[d] in numbered;
  }
}

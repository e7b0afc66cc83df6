/** Outer image ids: hashed seeds, linear probing on collisions, one id for each image of a scene. */
module OuterIds {
  import opened Common
  import opened SceneOperations
  import opened ImageClipping

  type Id = id: int | 1 <= id <= MAX_U32 witness 1

  // ----- probing -----

  function FirstId(seed: nat): Id {
    Max(seed % 0x1_0000_0000, 1)
  }

  /** Wrapping addition of one, skipping zero. */
  function NextId(id: Id): Id {
    Max((id + 1) % 0x1_0000_0000, 1)
  }

  /** How many steps the probe needs from one id to another, around the 32-bit circle without zero. */
  function Distance(start: Id, end: Id): nat {
    if start <= end then end - start else end + MAX_U32 - start
  }

  /** The first unused id on the circle from `start` on. */
  ghost predicate IsFirstFree(start: Id, used: set<Id>, id: Id) {
    id !in used && forall x: Id :: Distance(start, x) < Distance(start, id) ==> x in used
  }

  lemma DistanceIsInjective(start: Id, a: Id, b: Id)
    requires Distance(start, a) == Distance(start, b)
    ensures a == b
  {
  }

  lemma FirstFreeIsUnique(start: Id, used: set<Id>, a: Id, b: Id)
    requires IsFirstFree(start, used, a) && IsFirstFree(start, used, b)
    ensures a == b
  {
    if Distance(start, a) == Distance(start, b) {
      DistanceIsInjective(start, a, b);
    }
  }

  lemma {:induction false} FullSetIsLarge(used: set<Id>, n: nat)
    requires n <= MAX_U32 && forall x: Id :: x <= n ==> x in used
    ensures |used| >= n
  {
    if n > 0 {
      var top: Id := n;
      var fewer := used - {top};
      FullSetIsLarge(fewer, n - 1);
      assert used == fewer + {top};
    }
  }

  /** With fewer than 2^32 - 1 ids in use the probe cannot come full circle. */
  lemma ProbeHasRoom(start: Id, used: set<Id>, id: Id)
    requires |used| < MAX_U32 && id in used
    requires forall x: Id :: Distance(start, x) < Distance(start, id) ==> x in used
    ensures Distance(start, NextId(id)) == Distance(start, id) + 1
  {
    if Distance(start, id) == MAX_U32 - 1 {
      forall x: Id | x <= MAX_U32
        ensures x in used
      {
        if Distance(start, x) == Distance(start, id) {
          DistanceIsInjective(start, x, id);
        }
      }
      FullSetIsLarge(used, MAX_U32);
    }
  }

  /** A seed that is free and not zero is the id, and seeds count modulo 2^32, zero as one. */
  lemma FreeSeedIsKept(seed: nat, used: set<Id>, id: Id)
    requires IsFirstFree(FirstId(seed), used, id)
    ensures 1 <= seed <= MAX_U32 && seed !in used ==> id == seed
    ensures seed == 0 && 1 !in used ==> id == 1
    ensures IsFirstFree(FirstId(seed + 0x1_0000_0000), used, id)
  {
    assert Distance(FirstId(seed), FirstId(seed)) == 0;
    if FirstId(seed) !in used && Distance(FirstId(seed), id) == 0 {
      DistanceIsInjective(FirstId(seed), FirstId(seed), id);
    }
  }

  /** Terminates on the first free id at or after the seed. */
  method AllocateOuterId(seed: nat, used: set<Id>) returns (id: Id, usedAfter: set<Id>)
    requires |used| < MAX_U32
    ensures IsFirstFree(FirstId(seed), used, id)
    ensures usedAfter == used + {id} && id !in used && id != 0
  {
    hide FirstId;
    var start := FirstId(seed);
    id := start;
    while id in used
      invariant forall x: Id :: Distance(start, x) < Distance(start, id) ==> x in used
      decreases MAX_U32 - Distance(start, id)
    {
      ProbeHasRoom(start, used, id);
      ghost var before := id;
      id := NextId(id);
      forall x: Id | Distance(start, x) < Distance(start, id)
        ensures x in used
      {
        if Distance(start, x) == Distance(start, before) {
          DistanceIsInjective(start, x, before);
        }
      }
    }
    usedAfter := used + {id};
  }

  // ----- a list of seeds -----

  function SetOf(ids: seq<Id>): set<Id> {
    set i | 0 <= i < |ids| :: ids[i]
  }

  /** One id for each seed, in order, each the first free one after those before it. */
  ghost predicate Assigned(seeds: seq<nat>, ids: seq<Id>) {
    && |ids| == |seeds|
    && forall i :: 0 <= i < |ids| ==> IsFirstFree(FirstId(seeds[i]), SetOf(ids[..i]), ids[i])
  }

  /** Colliding seeds still get distinct ids, none of them zero. */
  lemma AssignedIdsAreDistinct(seeds: seq<nat>, ids: seq<Id>)
    requires Assigned(seeds, ids)
    ensures forall i, j :: 0 <= i < j < |ids| ==> ids[i] != ids[j]
    ensures forall i :: 0 <= i < |ids| ==> ids[i] != 0
  {
    forall i, j | 0 <= i < j < |ids|
      ensures ids[i] != ids[j]
    {
      assert IsFirstFree(FirstId(seeds[j]), SetOf(ids[..j]), ids[j]);
      assert ids[..j][i] == ids[i];
    }
  }

  /** The ids are a function of the seeds: two passes over one scene agree. */
  lemma {:induction false} AssignmentIsUnique(seeds: seq<nat>, a: seq<Id>, b: seq<Id>)
    requires Assigned(seeds, a) && Assigned(seeds, b)
    ensures a == b
  {
    hide IsFirstFree;
    if seeds != [] {
      var n := |seeds| - 1;
      forall i | 0 <= i < n
        ensures a[..n][..i] == a[..i] && b[..n][..i] == b[..i]
      {
      }
      AssignmentIsUnique(seeds[..n], a[..n], b[..n]);
      FirstFreeIsUnique(FirstId(seeds[n]), SetOf(a[..n]), a[n], b[n]);
      assert a == a[..n] + [a[n]] && b == b[..n] + [b[n]];
    }
  }

  lemma {:induction false} SetOfIsSmall(ids: seq<Id>)
    ensures |SetOf(ids)| <= |ids|
  {
    if ids != [] {
      var front, last := ids[..|ids| - 1], ids[|ids| - 1];
      SetOfIsSmall(front);
      assert SetOf(ids) == SetOf(front) + {last} by { SetOfPush(front, last, ids); }
    }
  }

  lemma SetOfPush(ids: seq<Id>, last: Id, all: seq<Id>)
    requires all == ids + [last]
    ensures SetOf(all) == SetOf(ids) + {last}
  {
    forall x: Id
      ensures x in SetOf(all) <==> x in SetOf(ids) || x == last
    {
      if x in SetOf(ids) {
        var i :| 0 <= i < |ids| && ids[i] == x;
        assert all[i] == x;
      }
      if x == last {
        assert all[|ids|] == x;
      }
    }
  }

  lemma AssignedPush(seeds: seq<nat>, ids: seq<Id>, seed: nat, id: Id)
    requires Assigned(seeds, ids) && IsFirstFree(FirstId(seed), SetOf(ids), id)
    ensures Assigned(seeds + [seed], ids + [id])
  {
    hide IsFirstFree;
    var allSeeds, all := seeds + [seed], ids + [id];
    forall i | 0 <= i < |all|
      ensures IsFirstFree(FirstId(allSeeds[i]), SetOf(all[..i]), all[i])
    {
      assert all[..i] == if i < |ids| then ids[..i] else ids;
    }
  }

  // ----- image ids -----

  datatype ImageKey = ImageKey(owner: nat, imageId: nat, digest: nat)

  datatype Upload = Upload(owner: nat, imageId: nat, pixelWidth: U32, pixelHeight: U32, dataLength: nat, digest: nat)

  datatype Placement = Placement(owner: nat, image: Image)

  predicate Before(a: ImageKey, b: ImageKey) {
    || a.owner < b.owner
    || (a.owner == b.owner && (a.imageId < b.imageId || (a.imageId == b.imageId && a.digest < b.digest)))
  }

  predicate StrictlySorted(keys: seq<ImageKey>) {
    forall i, j :: 0 <= i < j < |keys| ==> Before(keys[i], keys[j])
  }

  /** Insertion into an ordered set. */
  function InsertKey(keys: seq<ImageKey>, key: ImageKey): (r: seq<ImageKey>)
    ensures |r| <= |keys| + 1
  {
    if keys == [] || Before(key, keys[0]) then [key] + keys
    else if key == keys[0] then keys
    else [keys[0]] + InsertKey(keys[1..], key)
  }

  lemma {:induction false} InsertedKey(keys: seq<ImageKey>, key: ImageKey)
    requires StrictlySorted(keys)
    ensures StrictlySorted(InsertKey(keys, key))
    ensures forall k :: k in InsertKey(keys, key) <==> k in keys || k == key
  {
    if keys == [] || Before(key, keys[0]) {
    } else if key != keys[0] {
      var tail := keys[1..];
      InsertedKey(tail, key);
      var rest := InsertKey(tail, key);
      forall j | 0 <= j < |rest|
        ensures Before(keys[0], rest[j])
      {
        assert rest[j] in tail || rest[j] == key;
        if rest[j] in tail {
          var m :| 0 <= m < |tail| && tail[m] == rest[j];
          assert keys[m + 1] == rest[j];
        }
      }
    }
  }

  function UploadKey(u: Upload): ImageKey {
    ImageKey(u.owner, u.imageId, u.digest)
  }

  /** The first upload of the placement's owner with its image id. */
  function FindUpload(uploads: seq<Upload>, owner: nat, imageId: nat): (found: Option<Upload>)
    ensures found.Some? ==> found.value in uploads && found.value.owner == owner && found.value.imageId == imageId
    ensures found.None? ==> forall u :: u in uploads ==> !(u.owner == owner && u.imageId == imageId)
  {
    if uploads == [] then None
    else if uploads[0].owner == owner && uploads[0].imageId == imageId then Some(uploads[0])
    else FindUpload(uploads[1..], owner, imageId)
  }

  function PlacementKey(uploads: seq<Upload>, p: Placement): ImageKey {
    var upload := FindUpload(uploads, p.owner, p.image.imageId);
    ImageKey(p.owner, p.image.imageId, if upload.Some? then upload.value.digest else p.image.dataDigest)
  }

  function ImageKeys(uploads: seq<Upload>, placements: seq<Placement>): (keys: seq<ImageKey>)
    ensures |keys| <= |uploads| + |placements|
  {
    KeysOfPlacements(uploads, placements, KeysOfUploads(uploads))
  }

  function KeysOfUploads(uploads: seq<Upload>): (keys: seq<ImageKey>)
    ensures |keys| <= |uploads|
  {
    if uploads == [] then []
    else InsertKey(KeysOfUploads(uploads[..|uploads| - 1]), UploadKey(uploads[|uploads| - 1]))
  }

  function KeysOfPlacements(uploads: seq<Upload>, placements: seq<Placement>, keys: seq<ImageKey>): (r: seq<ImageKey>)
    ensures |r| <= |placements| + |keys|
  {
    if placements == [] then keys
    else InsertKey(KeysOfPlacements(uploads, placements[..|placements| - 1], keys),
                   PlacementKey(uploads, placements[|placements| - 1]))
  }

  lemma {:induction false} UploadKeysAreSorted(uploads: seq<Upload>)
    ensures StrictlySorted(KeysOfUploads(uploads))
    ensures forall u :: u in uploads ==> UploadKey(u) in KeysOfUploads(uploads)
  {
    if uploads != [] {
      var front, last := uploads[..|uploads| - 1], uploads[|uploads| - 1];
      UploadKeysAreSorted(front);
      InsertedKey(KeysOfUploads(front), UploadKey(last));
      assert uploads == front + [last];
    }
  }

  lemma {:induction false} PlacementKeysAreSorted(uploads: seq<Upload>, placements: seq<Placement>, keys: seq<ImageKey>)
    requires StrictlySorted(keys)
    ensures StrictlySorted(KeysOfPlacements(uploads, placements, keys))
    ensures forall k :: k in keys ==> k in KeysOfPlacements(uploads, placements, keys)
    ensures forall p :: p in placements ==> PlacementKey(uploads, p) in KeysOfPlacements(uploads, placements, keys)
  {
    if placements != [] {
      var front, last := placements[..|placements| - 1], placements[|placements| - 1];
      PlacementKeysAreSorted(uploads, front, keys);
      InsertedKey(KeysOfPlacements(uploads, front, keys), PlacementKey(uploads, last));
      assert placements == front + [last];
    }
  }

  /** Every upload and every placement of the scene has a key, and no key occurs twice. */
  lemma ImageKeysAreComplete(uploads: seq<Upload>, placements: seq<Placement>)
    ensures StrictlySorted(ImageKeys(uploads, placements))
    ensures forall u :: u in uploads ==> UploadKey(u) in ImageKeys(uploads, placements)
    ensures forall p :: p in placements ==> PlacementKey(uploads, p) in ImageKeys(uploads, placements)
  {
    UploadKeysAreSorted(uploads);
    PlacementKeysAreSorted(uploads, placements, KeysOfUploads(uploads));
  }

  /** And nothing else has one. */
  lemma {:induction false} KeysComeFromTheScene(uploads: seq<Upload>, placements: seq<Placement>, k: ImageKey)
    requires k in ImageKeys(uploads, placements)
    ensures (exists u :: u in uploads && UploadKey(u) == k) || exists p :: p in placements && PlacementKey(uploads, p) == k
    decreases |uploads| + |placements|
  {
    UploadKeysAreSorted(uploads);
    if placements != [] {
      var front, last := placements[..|placements| - 1], placements[|placements| - 1];
      PlacementKeysAreSorted(uploads, front, KeysOfUploads(uploads));
      InsertedKey(KeysOfPlacements(uploads, front, KeysOfUploads(uploads)), PlacementKey(uploads, last));
      assert placements == front + [last];
      if k in ImageKeys(uploads, front) {
        KeysComeFromTheScene(uploads, front, k);
      }
    } else {
      UploadOfKey(uploads, k);
    }
  }

  lemma {:induction false} UploadOfKey(uploads: seq<Upload>, k: ImageKey)
    requires k in KeysOfUploads(uploads)
    ensures exists u :: u in uploads && UploadKey(u) == k
  {
    var front, last := uploads[..|uploads| - 1], uploads[|uploads| - 1];
    assert uploads == front + [last];
    UploadKeysAreSorted(front);
    InsertedKey(KeysOfUploads(front), UploadKey(last));
    if k != UploadKey(last) {
      UploadOfKey(front, k);
    }
  }

  function SeedsOf(keys: seq<ImageKey>, seed: ImageKey -> nat): (seeds: seq<nat>)
    ensures |seeds| == |keys| && forall i :: 0 <= i < |keys| ==> seeds[i] == seed(keys[i])
  {
    seq(|keys|, i requires 0 <= i < |keys| => seed(keys[i]))
  }

  /** `ids` gives each key of the scene its own nonzero outer id, whatever the hash does. */
  ghost predicate IsImageIdMap(ids: map<ImageKey, Id>, keys: seq<ImageKey>, seed: ImageKey -> nat) {
    exists list: seq<Id> ::
      && Assigned(SeedsOf(keys, seed), list)
      && (forall k :: k in ids <==> k in keys)
      && forall i :: 0 <= i < |keys| ==> keys[i] in ids && ids[keys[i]] == list[i]
  }

  method OuterImageIds(uploads: seq<Upload>, placements: seq<Placement>, seed: ImageKey -> nat)
    returns (ids: map<ImageKey, Id>)
    requires |uploads| + |placements| < MAX_U32
    ensures IsImageIdMap(ids, ImageKeys(uploads, placements), seed)
  {
    hide IsFirstFree, FirstId;
    var keys: seq<ImageKey> := [];
    for i := 0 to |uploads|
      invariant keys == KeysOfUploads(uploads[..i])
    {
      assert uploads[..i + 1][..i] == uploads[..i];
      keys := InsertKey(keys, UploadKey(uploads[i]));
    }
    assert uploads[..|uploads|] == uploads;
    for i := 0 to |placements|
      invariant keys == KeysOfPlacements(uploads, placements[..i], KeysOfUploads(uploads))
    {
      assert placements[..i + 1][..i] == placements[..i];
      keys := InsertKey(keys, PlacementKey(uploads, placements[i]));
    }
    assert placements[..|placements|] == placements;
    ImageKeysAreComplete(uploads, placements);
    ids := NumberKeys(keys, seed);
  }

  lemma SortedKeysAreDistinct(keys: seq<ImageKey>, i: nat)
    requires StrictlySorted(keys) && i < |keys|
    ensures keys[i] !in keys[..i]
  {
  }

  lemma SeedsPush(keys: seq<ImageKey>, seed: ImageKey -> nat, i: nat)
    requires i < |keys|
    ensures SeedsOf(keys[..i + 1], seed) == SeedsOf(keys[..i], seed) + [seed(keys[i])]
    ensures keys[..i + 1] == keys[..i] + [keys[i]]
  {
  }

  lemma NothingAssigned(seed: ImageKey -> nat)
    ensures Assigned(SeedsOf([], seed), []) && SetOf([]) == {}
  {
  }

  method NumberKeys(keys: seq<ImageKey>, seed: ImageKey -> nat) returns (ids: map<ImageKey, Id>)
    requires |keys| < MAX_U32 && StrictlySorted(keys)
    ensures IsImageIdMap(ids, keys, seed)
  {
    hide IsFirstFree, FirstId, StrictlySorted, Assigned, SetOf, SeedsOf;
    var used: set<Id> := {};
    ids := map[];
    ghost var list: seq<Id> := [];
    NothingAssigned(seed);
    assert keys[..0] == [];
    for i := 0 to |keys|
      invariant |list| == i && used == SetOf(list)
      invariant Assigned(SeedsOf(keys[..i], seed), list)
      invariant forall k :: k in ids <==> k in keys[..i]
      invariant forall j :: 0 <= j < i ==> keys[j] in ids && ids[keys[j]] == list[j]
    {
      SetOfIsSmall(list);
      SortedKeysAreDistinct(keys, i);
      SeedsPush(keys, seed, i);
      var id, usedAfter := AllocateOuterId(seed(keys[i]), used);
      AssignedPush(SeedsOf(keys[..i], seed), list, seed(keys[i]), id);
      SetOfPush(list, id, list + [id]);
      ids := ids[keys[i] := id];
      list := list + [id];
      used := usedAfter;
    }
    assert keys[..|keys|] == keys;
  }

  /** Different images never share an outer id, and every image of the scene has one. */
  lemma ImageIdsAreInjective(ids: map<ImageKey, Id>, uploads: seq<Upload>, placements: seq<Placement>,
                             seed: ImageKey -> nat)
    requires IsImageIdMap(ids, ImageKeys(uploads, placements), seed)
    ensures forall a, b :: a in ids && b in ids && a != b ==> ids[a] != ids[b]
    ensures forall u :: u in uploads ==> UploadKey(u) in ids
    ensures forall p :: p in placements ==> PlacementKey(uploads, p) in ids
  {
    hide PlacementKey, UploadKey, StrictlySorted, IsFirstFree, FirstId, ImageKeys;
    var keys := ImageKeys(uploads, placements);
    ImageKeysAreComplete(uploads, placements);
    var list: seq<Id> :| Assigned(SeedsOf(keys, seed), list)
                         && (forall k :: k in ids <==> k in keys)
                         && forall i :: 0 <= i < |keys| ==> keys[i] in ids && ids[keys[i]] == list[i];
    AssignedIdsAreDistinct(SeedsOf(keys, seed), list);
    forall a, b | a in ids && b in ids && a != b
      ensures ids[a] != ids[b]
    {
      var i :| 0 <= i < |keys| && keys[i] == a;
      var j :| 0 <= j < |keys| && keys[j] == b;
    }
  }

  /** The uploads and the placements of a scene are numbered in separate passes that agree. */
  lemma ImageIdMapIsUnique(a: map<ImageKey, Id>, b: map<ImageKey, Id>, keys: seq<ImageKey>, seed: ImageKey -> nat)
    requires IsImageIdMap(a, keys, seed) && IsImageIdMap(b, keys, seed)
    ensures a == b
  {
    var listA: seq<Id> :| Assigned(SeedsOf(keys, seed), listA)
                          && (forall k :: k in a <==> k in keys)
                          && forall i :: 0 <= i < |keys| ==> keys[i] in a && a[keys[i]] == listA[i];
    var listB: seq<Id> :| Assigned(SeedsOf(keys, seed), listB)
                          && (forall k :: k in b <==> k in keys)
                          && forall i :: 0 <= i < |keys| ==> keys[i] in b && b[keys[i]] == listB[i];
    AssignmentIsUnique(SeedsOf(keys, seed), listA, listB);
    forall k | k in a
      ensures a[k] == b[k]
    {
      var i :| 0 <= i < |keys| && keys[i] == k;
    }
  }

  predicate Injective(ids: map<ImageKey, Id>) {
    forall a, b :: a in ids && b in ids && a != b ==> ids[a] != ids[b]
  }

  /**
    * The upload table: no image is overwritten by another, and a placement finds under its outer id
    * the pixels its owner uploaded.
    */
  method ComposeImageUploads(uploads: seq<Upload>, ids: map<ImageKey, Id>) returns (table: map<Id, Upload>)
    requires Injective(ids)
    ensures forall u :: u in uploads && UploadKey(u) in ids ==>
              ids[UploadKey(u)] in table && UploadKey(table[ids[UploadKey(u)]]) == UploadKey(u)
    ensures forall i :: 0 <= i < |uploads| && UploadKey(uploads[i]) in ids
                        && (forall j :: i < j < |uploads| ==> UploadKey(uploads[j]) != UploadKey(uploads[i])) ==>
              ids[UploadKey(uploads[i])] in table && table[ids[UploadKey(uploads[i])]] == uploads[i]
    ensures forall id :: id in table ==>
              table[id] in uploads && UploadKey(table[id]) in ids && ids[UploadKey(table[id])] == id
    ensures forall p: Placement :: FindUpload(uploads, p.owner, p.image.imageId).Some?
                                   && PlacementKey(uploads, p) in ids ==>
              var id := ids[PlacementKey(uploads, p)];
              && id in table
              && UploadKey(table[id]) == UploadKey(FindUpload(uploads, p.owner, p.image.imageId).value)
  {
    table := map[];
    for i := 0 to |uploads|
      invariant forall k :: 0 <= k < i && UploadKey(uploads[k]) in ids ==>
                  ids[UploadKey(uploads[k])] in table
                  && UploadKey(table[ids[UploadKey(uploads[k])]]) == UploadKey(uploads[k])
      invariant forall k :: 0 <= k < i && UploadKey(uploads[k]) in ids
                            && (forall j :: k < j < i ==> UploadKey(uploads[j]) != UploadKey(uploads[k])) ==>
                  ids[UploadKey(uploads[k])] in table && table[ids[UploadKey(uploads[k])]] == uploads[k]
      invariant forall id :: id in table ==>
                  table[id] in uploads && UploadKey(table[id]) in ids && ids[UploadKey(table[id])] == id
    {
      var key := UploadKey(uploads[i]);
      if key !in ids {
        continue;
      }
      table := table[ids[key] := uploads[i]];
    }
  }
}

/** CollectionService: a user's named collections of assets. Names are unique
    per user once trimmed and lower-cased; each collection caches the number
    of its CollectionAsset links in AssetCount. */
module Collections {
  import opened Wrappers
  import opened Base
  import opened Seqs
  import opened Sorting
  import opened Text
  import opened Assets
  import opened IdChecks

  datatype Collection = Collection(
    id: Guid, name: string, description: Option<string>, userId: string, companyId: Option<Guid>,
    assetCount: int, coverPhotoAssetId: Option<Guid>, createdAt: Ticks, updatedAt: Ticks)

  /** A CollectionAsset row (its surrogate Id is never read and is not modelled). */
  datatype CollectionAsset = CollectionAsset(collectionId: Guid, assetId: Guid, addedAt: Ticks)

  const DuplicateMessage: string := "A collection with this name already exists"
  const CoverMissingMessage: string := "Cover photo asset not found or doesn't belong to you"
  const CoverNotImageMessage: string := "Cover photo must be an image asset"

  function CollectionWithId(id: Guid, userId: string): Collection -> bool {
    (c: Collection) => c.id == id && c.userId == userId
  }

  /** Another of the user's collections (other than `except`) with the name key. */
  function NameTaken(key: string, userId: string, except: Option<Guid>): Collection -> bool {
    (c: Collection) => c.userId == userId && NameKey(c.name) == key && (except.None? || c.id != except.value)
  }

  function LinksOf(collectionId: Guid): CollectionAsset -> bool {
    (l: CollectionAsset) => l.collectionId == collectionId
  }

  /** The number of links of a collection: CountAsync(ca => ca.CollectionId == id). */
  function LinkCount(links: seq<CollectionAsset>, collectionId: Guid): nat {
    |Filter(links, LinksOf(collectionId))|
  }

  function LinkKey(): CollectionAsset -> (Guid, Guid) {
    (l: CollectionAsset) => (l.collectionId, l.assetId)
  }

  predicate UniqueCollectionIds(cs: seq<Collection>) {
    forall i, j | 0 <= i < j < |cs| :: cs[i].id != cs[j].id
  }

  predicate DistinctCollectionNames(cs: seq<Collection>) {
    forall i, j | 0 <= i < j < |cs| && cs[i].userId == cs[j].userId ::
      NameKey(cs[i].name) != NameKey(cs[j].name)
  }

  /** Every collection's AssetCount is its number of links. */
  predicate CountsAgree(cs: seq<Collection>, links: seq<CollectionAsset>) {
    forall i | 0 <= i < |cs| :: cs[i].assetCount == LinkCount(links, cs[i].id)
  }

  /** The state the service keeps: unique ids, unique names per user, an
      asset at most once per collection, and the cached counts right. */
  ghost predicate ValidState(cs: seq<Collection>, links: seq<CollectionAsset>) {
    UniqueCollectionIds(cs) && DistinctCollectionNames(cs) && UniqueKeys(links, LinkKey()) && CountsAgree(cs, links)
  }

  lemma NameFree(cs: seq<Collection>, key: string, userId: string, except: Option<Guid>)
    ensures FirstIndex(cs, NameTaken(key, userId, except)) < 0 <==>
      forall c | c in cs && c.userId == userId && (except.None? || c.id != except.value) ::
        NameKey(c.name) != key
  {
    if FirstIndex(cs, NameTaken(key, userId, except)) < 0 {
      forall c | c in cs && c.userId == userId && (except.None? || c.id != except.value)
        ensures NameKey(c.name) != key
      {
        var k :| 0 <= k < |cs| && cs[k] == c;
        assert !NameTaken(key, userId, except)(cs[k]);
      }
    }
  }

  // ---------------------------------------------------------------------
  // Counting links

  /** Links appended for other collections leave a collection's count alone;
      links appended for it add to it. */
  lemma CountAfterAppend(links: seq<CollectionAsset>, more: seq<CollectionAsset>, c: Guid)
    ensures LinkCount(links + more, c) == LinkCount(links, c) + LinkCount(more, c)
  {
    FilterAppend(links, more, LinksOf(c));
  }

  /** Removing one link takes one from its collection's count only. */
  lemma CountAfterRemoval(links: seq<CollectionAsset>, i: nat, c: Guid)
    requires i < |links|
    ensures LinkCount(links[..i] + links[i + 1..], c) ==
      LinkCount(links, c) - if links[i].collectionId == c then 1 else 0
  {
    assert links == links[..i] + [links[i]] + links[i + 1..];
    FilterAppend(links[..i] + [links[i]], links[i + 1..], LinksOf(c));
    FilterAppend(links[..i], [links[i]], LinksOf(c));
    FilterAppend(links[..i], links[i + 1..], LinksOf(c));
  }

  /** Dropping a collection's links leaves every other collection's count. */
  lemma CountAfterPurge(links: seq<CollectionAsset>, gone: Guid, c: Guid)
    requires c != gone
    ensures LinkCount(Filter(links, (l: CollectionAsset) => l.collectionId != gone), c) == LinkCount(links, c)
  {
    FilterFilter(links, (l: CollectionAsset) => l.collectionId != gone, LinksOf(c), LinksOf(c));
  }

  // ---------------------------------------------------------------------
  // Queries

  function RecentlyUpdatedFirst(): (Collection, Collection) -> bool {
    (a: Collection, b: Collection) => a.updatedAt >= b.updatedAt
  }

  function OwnerIs(userId: string): Collection -> bool {
    (c: Collection) => c.userId == userId
  }

  /** GetUserCollectionsAsync: the user's collections, most recently updated first. */
  function UserCollections(cs: seq<Collection>, userId: string): (r: seq<Collection>)
    ensures multiset(r) == multiset(Filter(cs, OwnerIs(userId)))
    ensures forall c :: c in r <==> c in cs && c.userId == userId
    ensures SortedBy(r, RecentlyUpdatedFirst())
  {
    var mine := Filter(cs, OwnerIs(userId));
    var r := SortBy(mine, RecentlyUpdatedFirst());
    forall c ensures c in r <==> c in mine {
      SortByMembers(mine, RecentlyUpdatedFirst(), c);
    }
    r
  }

  /** The assets of the links, joined by id, one per link whose asset exists. */
  function LinkedAssets(links: seq<CollectionAsset>, assets: seq<Asset>): (r: seq<Asset>)
    ensures |r| <= |links|
    ensures forall a | a in r :: a in assets && exists l | l in links :: l.assetId == a.id
    decreases |links|
  {
    if |links| == 0 then []
    else
      var init, l := links[..|links| - 1], links[|links| - 1];
      assert links == init + [l];
      var i := FirstIndex(assets, AssetIdIs(l.assetId));
      LinkedAssets(init, assets) + (if i >= 0 then [assets[i]] else [])
  }

  /** Every asset a link points to is among the joined assets. */
  lemma {:induction false} LinkedAssetsCover(links: seq<CollectionAsset>, assets: seq<Asset>, l: CollectionAsset, a: Asset)
    requires UniqueKeys(assets, AssetKey()) && l in links && a in assets && a.id == l.assetId
    ensures a in LinkedAssets(links, assets)
    decreases |links|
  {
    var init, m := links[..|links| - 1], links[|links| - 1];
    assert links == init + [m];
    if l in init {
      LinkedAssetsCover(init, assets, l, a);
    } else {
      var i := FirstIndex(assets, AssetIdIs(m.assetId));
      var k :| 0 <= k < |assets| && assets[k] == a;
      assert AssetIdIs(m.assetId)(assets[k]);
      assert i >= 0;
      assert AssetKey()(assets[i]) == AssetKey()(assets[k]);
    }
  }

  datatype CollectionView = CollectionView(collection: Collection, assets: seq<Asset>)

  /** GetCollectionByIdAsync: null unless the collection is the user's;
      otherwise the collection with the assets of its links. */
  function CollectionById(cs: seq<Collection>, links: seq<CollectionAsset>, assets: seq<Asset>,
                          id: Guid, userId: string): (r: Option<CollectionView>)
    ensures r.Some? <==> exists c | c in cs :: c.id == id && c.userId == userId
    ensures r.Some? ==> r.value.collection in cs && r.value.collection.id == id && r.value.collection.userId == userId
    ensures r.Some? ==> forall a | a in r.value.assets ::
      a in assets && exists l | l in links :: l.collectionId == id && l.assetId == a.id
  {
    var i := FirstIndex(cs, CollectionWithId(id, userId));
    if i < 0 then None
    else
      var mine := Filter(links, LinksOf(id));
      var r := LinkedAssets(mine, assets);
      assert forall a | a in r :: exists l | l in mine :: l.assetId == a.id;
      Some(CollectionView(cs[i], r))
  }

  /** Every linked asset shows up in the collection's view. */
  lemma CollectionByIdShowsLinks(cs: seq<Collection>, links: seq<CollectionAsset>, assets: seq<Asset>,
                                 id: Guid, userId: string, l: CollectionAsset, a: Asset)
    requires UniqueKeys(assets, AssetKey())
    requires l in links && l.collectionId == id && a in assets && a.id == l.assetId
    requires CollectionById(cs, links, assets, id, userId).Some?
    ensures a in CollectionById(cs, links, assets, id, userId).value.assets
  {
    var mine := Filter(links, LinksOf(id));
    assert l in mine;
    LinkedAssetsCover(mine, assets, l, a);
  }

  // ---------------------------------------------------------------------
  // Adding assets

  /** The asset ids already in the collection. */
  function ExistingIds(links: seq<CollectionAsset>, collectionId: Guid): (r: seq<Guid>)
    ensures forall a :: a in r <==> CollectionAsset(collectionId, a, 0) in Unstamped(links)
  {
    var mine := Filter(links, LinksOf(collectionId));
    var r := Keys(mine, (l: CollectionAsset) => l.assetId);
    forall a ensures a in r <==> CollectionAsset(collectionId, a, 0) in Unstamped(links) {
      UnstampedMembers(links, collectionId, a);
      if a in r {
        var k :| 0 <= k < |mine| && r[k] == a;
        assert mine[k] in mine;
      }
      if exists l | l in links :: l.collectionId == collectionId && l.assetId == a {
        var l :| l in links && l.collectionId == collectionId && l.assetId == a;
        assert l in mine;
        var k :| 0 <= k < |mine| && mine[k] == l;
        assert r[k] == a;
      }
    }
    r
  }

  /** The links with their AddedAt cleared: the link table as pairs. */
  function Unstamped(links: seq<CollectionAsset>): (r: seq<CollectionAsset>)
    ensures |r| == |links|
    ensures forall i | 0 <= i < |links| :: r[i] == links[i].(addedAt := 0)
  {
    seq(|links|, i requires 0 <= i < |links| => links[i].(addedAt := 0))
  }

  lemma UnstampedMembers(links: seq<CollectionAsset>, c: Guid, a: Guid)
    ensures CollectionAsset(c, a, 0) in Unstamped(links) <==>
      exists l | l in links :: l.collectionId == c && l.assetId == a
  {
    if CollectionAsset(c, a, 0) in Unstamped(links) {
      var k :| 0 <= k < |links| && Unstamped(links)[k] == CollectionAsset(c, a, 0);
      assert links[k] in links;
    }
    if exists l | l in links :: l.collectionId == c && l.assetId == a {
      var l :| l in links && l.collectionId == c && l.assetId == a;
      var k :| 0 <= k < |links| && links[k] == l;
      assert Unstamped(links)[k] == CollectionAsset(c, a, 0);
    }
  }

  /** One link per new asset id. */
  function NewLinks(collectionId: Guid, ids: seq<Guid>, now: Ticks): (r: seq<CollectionAsset>)
    ensures |r| == |ids|
    ensures forall i | 0 <= i < |ids| :: r[i] == CollectionAsset(collectionId, ids[i], now)
  {
    seq(|ids|, i requires 0 <= i < |ids| => CollectionAsset(collectionId, ids[i], now))
  }

  /** The ids AddAssetsToCollectionAsync links: assetIds.Except(existing). */
  function ToAdd(links: seq<CollectionAsset>, collectionId: Guid, assetIds: seq<Guid>): seq<Guid> {
    Except(assetIds, ExistingIds(links, collectionId))
  }

  /** After adding, every requested asset is in the collection, and adding
      the same assets again adds nothing. */
  lemma AddedAllLinked(links: seq<CollectionAsset>, c: Guid, assetIds: seq<Guid>, now: Ticks)
    ensures var after := links + NewLinks(c, ToAdd(links, c, assetIds), now);
      (forall a | a in assetIds :: a in ExistingIds(after, c)) && ToAdd(after, c, assetIds) == []
  {
    var ids := ToAdd(links, c, assetIds);
    var after := links + NewLinks(c, ids, now);
    forall a | a in assetIds ensures a in ExistingIds(after, c) {
      UnstampedMembers(links, c, a);
      UnstampedMembers(after, c, a);
      if a in ExistingIds(links, c) {
        var l :| l in links && l.collectionId == c && l.assetId == a;
        assert l in after;
      } else {
        assert a in ids;
        var k :| 0 <= k < |ids| && ids[k] == a;
        assert after[|links| + k] == CollectionAsset(c, a, now);
      }
    }
    FilterNone(assetIds, NotIn(ExistingIds(after, c)));
  }

  /** The new links never repeat a pair: existing pairs are skipped and the
      new ids are distinct. */
  lemma AddedLinksUnique(links: seq<CollectionAsset>, c: Guid, assetIds: seq<Guid>, now: Ticks)
    requires UniqueKeys(links, LinkKey())
    ensures UniqueKeys(links + NewLinks(c, ToAdd(links, c, assetIds), now), LinkKey())
  {
    var ids := ToAdd(links, c, assetIds);
    var more := NewLinks(c, ids, now);
    var after := links + more;
    forall i, j | 0 <= i < j < |after| ensures LinkKey()(after[i]) != LinkKey()(after[j]) {
      if j >= |links| {
        var a := ids[j - |links|];
        assert after[j] == CollectionAsset(c, a, now);
        assert a !in ExistingIds(links, c);
        if i < |links| {
          UnstampedMembers(links, c, a);
          assert links[i] in links;
        } else {
          assert after[i] == CollectionAsset(c, ids[i - |links|], now);
        }
      } else {
        assert after[i] == links[i] && after[j] == links[j];
      }
    }
  }

  /** AssetCount as AddAssetsToCollectionAsync writes it: counted before
      SaveAsync, so the links it has just added are not yet in the table and
      the count is the old one. */
  function AddedCountAsWritten(links: seq<CollectionAsset>, collectionId: Guid): nat {
    LinkCount(links, collectionId)
  }

  /** The count it evidently intends: the links after the insertion. */
  function AddedCount(links: seq<CollectionAsset>, collectionId: Guid, ids: seq<Guid>, now: Ticks): (r: nat)
    ensures r == LinkCount(links, collectionId) + |ids|
  {
    CountAfterAppend(links, NewLinks(collectionId, ids, now), collectionId);
    FilterAll(NewLinks(collectionId, ids, now), LinksOf(collectionId));
    LinkCount(links + NewLinks(collectionId, ids, now), collectionId)
  }

  /** Adding one asset to an empty collection: the count as written stays 0
      although the collection now has one asset. */
  lemma AddedCountAsWrittenIsStale(c: Guid, a: Guid, now: Ticks)
    ensures var after := [] + NewLinks(c, ToAdd([], c, [a]), now);
      AddedCountAsWritten([], c) == 0 && LinkCount(after, c) == 1 && AddedCount([], c, ToAdd([], c, [a]), now) == 1
  {
    var ids := ToAdd([], c, [a]);
    assert Filter([a], NotIn([])) == [a];
    assert ids == [a];
    var after := [] + NewLinks(c, ids, now);
    assert after == [CollectionAsset(c, a, now)];
    assert Filter(after, LinksOf(c)) == [CollectionAsset(c, a, now)];
  }

  /** The loop that stages one link per new id. */
  method AppendLinks(links0: seq<CollectionAsset>, collectionId: Guid, ids: seq<Guid>, now: Ticks)
    returns (links: seq<CollectionAsset>)
    ensures links == links0 + NewLinks(collectionId, ids, now)
  {
    links := links0;
    for k := 0 to |ids|
      invariant links == links0 + NewLinks(collectionId, ids[..k], now)
    {
      assert NewLinks(collectionId, ids[..k + 1], now) == NewLinks(collectionId, ids[..k], now) + [CollectionAsset(collectionId, ids[k], now)];
      links := links + [CollectionAsset(collectionId, ids[k], now)];
    }
    assert ids[..|ids|] == ids;
  }

  // ---------------------------------------------------------------------
  // Keeping the state valid

  lemma AddedCollectionValid(cs: seq<Collection>, links: seq<CollectionAsset>, c: Collection)
    requires ValidState(cs, links)
    requires forall d | d in cs :: d.id != c.id
    requires forall l | l in links :: l.collectionId != c.id
    requires c.assetCount == 0
    requires FirstIndex(cs, NameTaken(NameKey(c.name), c.userId, None)) < 0
    ensures ValidState(cs + [c], links)
  {
    AddedIdsUnique(cs, c);
    AddedNameDistinct(cs, c);
    AddedCountsAgree(cs, links, c);
  }

  lemma AddedIdsUnique(cs: seq<Collection>, c: Collection)
    requires UniqueCollectionIds(cs)
    requires forall d | d in cs :: d.id != c.id
    ensures UniqueCollectionIds(cs + [c])
  {
    var us := cs + [c];
    forall i, j | 0 <= i < j < |us| ensures us[i].id != us[j].id {
      if j == |cs| {
        assert us[i] in cs;
      }
    }
  }

  lemma AddedNameDistinct(cs: seq<Collection>, c: Collection)
    requires DistinctCollectionNames(cs)
    requires FirstIndex(cs, NameTaken(NameKey(c.name), c.userId, None)) < 0
    ensures DistinctCollectionNames(cs + [c])
  {
    NameFree(cs, NameKey(c.name), c.userId, None);
    var us := cs + [c];
    forall i, j | 0 <= i < j < |us| && us[i].userId == us[j].userId
      ensures NameKey(us[i].name) != NameKey(us[j].name)
    {
      if j == |cs| {
        assert us[i] in cs;
      }
    }
  }

  lemma AddedCountsAgree(cs: seq<Collection>, links: seq<CollectionAsset>, c: Collection)
    requires CountsAgree(cs, links)
    requires forall l | l in links :: l.collectionId != c.id
    requires c.assetCount == 0
    ensures CountsAgree(cs + [c], links)
  {
    FilterNone(links, LinksOf(c.id));
  }

  lemma RenamedValid(cs: seq<Collection>, links: seq<CollectionAsset>, i: nat, c: Collection)
    requires ValidState(cs, links) && i < |cs|
    requires c.id == cs[i].id && c.userId == cs[i].userId && c.assetCount == cs[i].assetCount
    requires FirstIndex(cs, NameTaken(NameKey(c.name), c.userId, Some(c.id))) < 0
    ensures ValidState(cs[i := c], links)
  {
    RenamedNames(cs, i, c);
    var us := cs[i := c];
    assert forall a | 0 <= a < |us| :: us[a].id == cs[a].id && us[a].assetCount == cs[a].assetCount;
  }

  lemma RenamedNames(cs: seq<Collection>, i: nat, c: Collection)
    requires UniqueCollectionIds(cs) && DistinctCollectionNames(cs) && i < |cs|
    requires c.id == cs[i].id && c.userId == cs[i].userId
    requires FirstIndex(cs, NameTaken(NameKey(c.name), c.userId, Some(c.id))) < 0
    ensures DistinctCollectionNames(cs[i := c])
  {
    NameFree(cs, NameKey(c.name), c.userId, Some(c.id));
    var us := cs[i := c];
    forall a, b | 0 <= a < b < |us| && us[a].userId == us[b].userId
      ensures NameKey(us[a].name) != NameKey(us[b].name)
    {
      if a == i {
        assert cs[b] in cs && cs[b].id != c.id;
      } else if b == i {
        assert cs[a] in cs && cs[a].id != c.id;
      }
    }
  }

  lemma RecountedValid(cs: seq<Collection>, links: seq<CollectionAsset>, after: seq<CollectionAsset>,
                       i: nat, now: Ticks)
    requires ValidState(cs, links) && i < |cs| && UniqueKeys(after, LinkKey())
    requires forall d | d in cs && d.id != cs[i].id :: LinkCount(after, d.id) == LinkCount(links, d.id)
    ensures ValidState(cs[i := cs[i].(assetCount := LinkCount(after, cs[i].id), updatedAt := now)], after)
  {
    var us := cs[i := cs[i].(assetCount := LinkCount(after, cs[i].id), updatedAt := now)];
    assert forall a | 0 <= a < |us| :: us[a].id == cs[a].id && us[a].name == cs[a].name && us[a].userId == cs[a].userId;
    forall a | 0 <= a < |us| ensures us[a].assetCount == LinkCount(after, us[a].id) {
      if a != i {
        assert cs[a] in cs && cs[a].id != cs[i].id;
      }
    }
  }

  lemma RemovedValid(cs: seq<Collection>, links: seq<CollectionAsset>, i: nat)
    requires ValidState(cs, links) && i < |cs|
    ensures var kept := Filter(links, (l: CollectionAsset) => l.collectionId != cs[i].id);
      ValidState(cs[..i] + cs[i + 1..], kept) &&
      (forall c | c in cs[..i] + cs[i + 1..] :: c.id != cs[i].id) &&
      forall l | l in kept :: l.collectionId != cs[i].id
  {
    var gone := cs[i].id;
    var us := cs[..i] + cs[i + 1..];
    var kept := Filter(links, (l: CollectionAsset) => l.collectionId != gone);
    RemovedRows(cs, i);
    FilterKeepsKeys(links, LinkKey(), (l: CollectionAsset) => l.collectionId != gone);
    forall a | 0 <= a < |us| ensures us[a].assetCount == LinkCount(kept, us[a].id) {
      CountAfterPurge(links, gone, us[a].id);
    }
  }

  /** Dropping row `i` keeps ids and names unique and leaves no row with its id. */
  lemma RemovedRows(cs: seq<Collection>, i: nat)
    requires UniqueCollectionIds(cs) && DistinctCollectionNames(cs) && i < |cs|
    ensures var us := cs[..i] + cs[i + 1..];
      UniqueCollectionIds(us) && DistinctCollectionNames(us) && forall c | c in us :: c.id != cs[i].id
  {
    var us := cs[..i] + cs[i + 1..];
    forall a | 0 <= a < |us| ensures us[a] == cs[if a < i then a else a + 1] {
    }
    forall a, b | 0 <= a < b < |us| ensures us[a].id != us[b].id {
      Shifted(cs, i, a, b);
    }
    forall a, b | 0 <= a < b < |us| && us[a].userId == us[b].userId
      ensures NameKey(us[a].name) != NameKey(us[b].name)
    {
      Shifted(cs, i, a, b);
    }
    forall c | c in us ensures c.id != cs[i].id {
      var a :| 0 <= a < |us| && us[a] == c;
    }
  }

  /** Positions in cs[..i] + cs[i + 1..] keep their order in cs. */
  lemma Shifted(cs: seq<Collection>, i: nat, a: nat, b: nat)
    requires i < |cs| && a < b < |cs| - 1
    ensures var us := cs[..i] + cs[i + 1..];
      var a', b' := if a < i then a else a + 1, if b < i then b else b + 1;
      a' < b' < |cs| && us[a] == cs[a'] && us[b] == cs[b']
  {
  }

  /** Linking new assets and recounting the collection keeps the state valid. */
  lemma LinkedValid(cs: seq<Collection>, links: seq<CollectionAsset>, i: nat, c: Guid, assetIds: seq<Guid>, now: Ticks)
    requires ValidState(cs, links) && i < |cs| && cs[i].id == c
    ensures var after := links + NewLinks(c, ToAdd(links, c, assetIds), now);
      ValidState(cs[i := cs[i].(assetCount := LinkCount(after, c), updatedAt := now)], after)
  {
    var ids := ToAdd(links, c, assetIds);
    var after := links + NewLinks(c, ids, now);
    AddedLinksUnique(links, c, assetIds, now);
    forall d | d in cs && d.id != c ensures LinkCount(after, d.id) == LinkCount(links, d.id) {
      CountAfterAppend(links, NewLinks(c, ids, now), d.id);
      FilterNone(NewLinks(c, ids, now), LinksOf(d.id));
    }
    RecountedValid(cs, links, after, i, now);
  }

  // ---------------------------------------------------------------------
  // The service's tables

  class CollectionStore {
    var collections: seq<Collection>
    var links: seq<CollectionAsset>
    var assets: seq<Asset>

    ghost predicate Valid()
      reads this
    {
      ValidState(collections, links) && UniqueKeys(assets, AssetKey())
    }

    constructor (assets: seq<Asset>)
      requires UniqueKeys(assets, AssetKey())
      ensures Valid() && collections == [] && links == [] && this.assets == assets
    {
      collections := [];
      links := [];
      this.assets := assets;
    }

    /** CreateCollectionAsync: refused when another collection of the user has
        the same name key; otherwise stored with the name as given, no assets
        and both timestamps `now`. `id` is the fresh Guid. */
    method CreateCollection(name: string, description: Option<string>, userId: string, companyId: Option<Guid>,
                            id: Guid, now: Ticks) returns (r: Result<Collection>)
      requires Valid()
      requires forall c | c in collections :: c.id != id
      requires forall l | l in links :: l.collectionId != id
      modifies this
      ensures Valid()
      ensures links == old(links) && assets == old(assets)
      ensures FirstIndex(old(collections), NameTaken(NameKey(name), userId, None)) >= 0 ==>
        r == Err(DuplicateMessage) && collections == old(collections)
      ensures FirstIndex(old(collections), NameTaken(NameKey(name), userId, None)) < 0 ==>
        r == Ok(Collection(id, name, description, userId, companyId, 0, None, now, now)) &&
        collections == old(collections) + [r.value]
    {
      if FirstIndex(collections, NameTaken(NameKey(name), userId, None)) >= 0 {
        return Err(DuplicateMessage);
      }
      var c := Collection(id, name, description, userId, companyId, 0, None, now, now);
      AddedCollectionValid(collections, links, c);
      collections := collections + [c];
      r := Ok(c);
    }

    /** UpdateCollectionAsync: null for a collection that is not the user's;
        refused when the new name key is taken, or when a cover photo is
        given that is not one of the user's image assets; otherwise the name
        and description are written, the cover photo when one is given. */
    method UpdateCollection(id: Guid, name: string, description: Option<string>, cover: Option<Guid>,
                            userId: string, now: Ticks) returns (r: Result<Option<Collection>>)
      requires Valid()
      modifies this
      ensures Valid()
      ensures links == old(links) && assets == old(assets)
      ensures var i := FirstIndex(old(collections), CollectionWithId(id, userId));
        var taken := FirstIndex(old(collections), NameTaken(NameKey(name), userId, Some(id))) >= 0;
        var coverError := CoverCheck(old(assets), cover, userId);
        (i < 0 ==> r == Ok(None) && collections == old(collections)) &&
        (i >= 0 && taken ==> r == Err(DuplicateMessage) && collections == old(collections)) &&
        (i >= 0 && !taken && coverError.Some? ==> r == Err(coverError.value) && collections == old(collections)) &&
        (i >= 0 && !taken && coverError.None? ==>
          r == Ok(Some(old(collections)[i].(name := name, description := description,
                         coverPhotoAssetId := if cover.Some? then cover else old(collections)[i].coverPhotoAssetId,
                         updatedAt := now))) &&
          collections == old(collections)[i := r.value.value])
    {
      var i := FirstIndex(collections, CollectionWithId(id, userId));
      if i < 0 {
        return Ok(None);
      }
      if FirstIndex(collections, NameTaken(NameKey(name), userId, Some(id))) >= 0 {
        return Err(DuplicateMessage);
      }
      var coverError := CoverCheck(assets, cover, userId);
      if coverError.Some? {
        return Err(coverError.value);
      }
      var c := collections[i].(name := name, description := description,
                               coverPhotoAssetId := if cover.Some? then cover else collections[i].coverPhotoAssetId,
                               updatedAt := now);
      RenamedValid(collections, links, i, c);
      collections := collections[i := c];
      r := Ok(Some(c));
    }

    /** DeleteCollectionAsync: the collection and its links are deleted. */
    method DeleteCollection(id: Guid, userId: string) returns (r: bool)
      requires Valid()
      modifies this
      ensures Valid()
      ensures assets == old(assets)
      ensures var i := FirstIndex(old(collections), CollectionWithId(id, userId));
        (i < 0 ==> !r && collections == old(collections) && links == old(links)) &&
        (i >= 0 ==> r && collections == old(collections)[..i] + old(collections)[i + 1..] &&
                    links == Filter(old(links), (l: CollectionAsset) => l.collectionId != id))
      ensures r ==> (forall l | l in links :: l.collectionId != id) && forall c | c in collections :: c.id != id
    {
      var i := FirstIndex(collections, CollectionWithId(id, userId));
      if i < 0 {
        return false;
      }
      RemovedValid(collections, links, i);
      links := Keep(links, (l: CollectionAsset) => l.collectionId != id);
      collections := collections[..i] + collections[i + 1..];
      r := true;
    }

    /** AddAssetsToCollectionAsync: -1 unless the collection and every
        requested asset are the user's; otherwise links the requested assets
        not yet in the collection, recounts it and returns how many it linked.
        The count is taken after the insertion (see AddedCountAsWritten). */
    method AddAssets(id: Guid, assetIds: seq<Guid>, userId: string, now: Ticks) returns (r: int)
      requires Valid()
      modifies this
      ensures Valid()
      ensures assets == old(assets)
      ensures var i := FirstIndex(old(collections), CollectionWithId(id, userId));
        var ok := i >= 0 && CountMatches(old(assets), assetIds, AssetKey(), AssetOwner(userId));
        var ids := ToAdd(old(links), id, assetIds);
        (!ok ==> r == -1 && collections == old(collections) && links == old(links)) &&
        (ok ==> r == |ids| && links == old(links) + NewLinks(id, ids, now) &&
                collections == old(collections)[i := old(collections)[i].(
                  assetCount := AddedCount(old(links), id, ids, now), updatedAt := now)])
    {
      var i := FirstIndex(collections, CollectionWithId(id, userId));
      if i < 0 {
        return -1;
      }
      if !CountMatches(assets, assetIds, AssetKey(), AssetOwner(userId)) {
        return -1;
      }
      var ids := ToAdd(links, id, assetIds);
      var after := AppendLinks(links, id, ids, now);
      LinkedValid(collections, links, i, id, assetIds, now);
      collections := collections[i := collections[i].(assetCount := LinkCount(after, id), updatedAt := now)];
      links := after;
      r := |ids|;
    }

    /** RemoveAssetFromCollectionAsync: false unless the collection is the
        user's and holds the asset; otherwise the link is deleted and the
        collection recounted. */
    method RemoveAsset(id: Guid, assetId: Guid, userId: string, now: Ticks) returns (r: bool)
      requires Valid()
      modifies this
      ensures Valid()
      ensures assets == old(assets)
      ensures var i := FirstIndex(old(collections), CollectionWithId(id, userId));
        var k := FirstIndex(old(links), LinkWith(id, assetId));
        (i < 0 || k < 0 ==> !r && collections == old(collections) && links == old(links)) &&
        (i >= 0 && k >= 0 ==>
          r && links == old(links)[..k] + old(links)[k + 1..] &&
          collections == old(collections)[i := old(collections)[i].(
            assetCount := LinkCount(links, id), updatedAt := now)] &&
          collections[i].assetCount == old(collections)[i].assetCount - 1)
      ensures r ==> forall l | l in links :: l.collectionId != id || l.assetId != assetId
    {
      var i := FirstIndex(collections, CollectionWithId(id, userId));
      if i < 0 {
        return false;
      }
      var k := FirstIndex(links, LinkWith(id, assetId));
      if k < 0 {
        return false;
      }
      var after := links[..k] + links[k + 1..];
      UnlinkedValid(collections, links, i, k, now);
      collections := collections[i := collections[i].(assetCount := LinkCount(after, id), updatedAt := now)];
      links := after;
      r := true;
    }
  }

  function LinkWith(collectionId: Guid, assetId: Guid): CollectionAsset -> bool {
    (l: CollectionAsset) => l.collectionId == collectionId && l.assetId == assetId
  }

  /** Deleting the collection's link at `k` and recounting keeps the state
      valid, and the recount is one less than before. */
  lemma UnlinkedValid(cs: seq<Collection>, links: seq<CollectionAsset>, i: nat, k: nat, now: Ticks)
    requires ValidState(cs, links) && i < |cs| && k < |links| && links[k].collectionId == cs[i].id
    ensures var after := links[..k] + links[k + 1..];
      LinkCount(after, cs[i].id) == cs[i].assetCount - 1 &&
      ValidState(cs[i := cs[i].(assetCount := cs[i].assetCount - 1, updatedAt := now)], after) &&
      forall l | l in after :: LinkKey()(l) != LinkKey()(links[k])
  {
    var after := links[..k] + links[k + 1..];
    RemovedLinkGone(links, k);
    forall d | d in cs && d.id != cs[i].id ensures LinkCount(after, d.id) == LinkCount(links, d.id) {
      CountAfterRemoval(links, k, d.id);
    }
    CountAfterRemoval(links, k, cs[i].id);
    RecountedValid(cs, links, after, i, now);
  }

  /** Removing a link keeps the pairs unique and leaves no link with its pair. */
  lemma RemovedLinkGone(links: seq<CollectionAsset>, k: nat)
    requires UniqueKeys(links, LinkKey()) && k < |links|
    ensures UniqueKeys(links[..k] + links[k + 1..], LinkKey())
    ensures forall l | l in links[..k] + links[k + 1..] :: LinkKey()(l) != LinkKey()(links[k])
  {
    var after := links[..k] + links[k + 1..];
    forall a | 0 <= a < |after| ensures after[a] == links[if a < k then a else a + 1] {
    }
    forall l | l in after ensures LinkKey()(l) != LinkKey()(links[k]) {
      var a :| 0 <= a < |after| && after[a] == l;
    }
  }

  /** The cover-photo check: the asset must be the user's, with a FileType
      that lower-cases to "image" (a null FileType fails). */
  function CoverCheck(assets: seq<Asset>, cover: Option<Guid>, userId: string): (r: Option<string>)
    ensures cover.None? ==> r.None?
    ensures cover.Some? && r.None? ==>
      exists a | a in assets :: a.id == cover.value && a.userId == userId && a.fileType.Some? && Lower(a.fileType.value) == "image"
    ensures cover.Some? && (forall a | a in assets :: a.id != cover.value || a.userId != userId) ==>
      r == Some(CoverMissingMessage)
  {
    match cover
    case None => None
    case Some(c) =>
      var i := FirstIndex(assets, (a: Asset) => a.id == c && a.userId == userId);
      if i < 0 then Some(CoverMissingMessage)
      else if assets[i].fileType.None? || Lower(assets[i].fileType.value) != "image" then Some(CoverNotImageMessage)
      else None
  }
}

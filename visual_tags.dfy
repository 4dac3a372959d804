/** VisualTagService: a user's coloured tags, with names unique per user once
    trimmed and lower-cased, and the AssetTag links between the user's assets
    and tags. Each tag caches its number of links in AssetCount. */
module VisualTags {
  import opened Wrappers
  import opened Base
  import opened Seqs
  import opened Sorting
  import opened Text
  import opened Assets
  import opened IdChecks

  datatype VisualTag = VisualTag(
    id: Guid, name: string, color: string, userId: string, companyId: Option<Guid>,
    assetCount: int, createdAt: Ticks, updatedAt: Ticks)

  /** An AssetTag row (its surrogate Id is never read and is not modelled). */
  datatype AssetTag = AssetTag(assetId: Guid, tagId: Guid, assignedAt: Ticks)

  const AssetsDeniedMessage: string := "Some assets not found or you don't have access to them."
  const TagsDeniedMessage: string := "Some tags not found or you don't have access to them."

  function DuplicateMessage(name: string): string {
    "A tag with the name '" + name + "' already exists."
  }

  function TagWithId(id: Guid, userId: string): VisualTag -> bool {
    (t: VisualTag) => t.id == id && t.userId == userId
  }

  /** Another of the user's tags (other than `except`) with the same name key. */
  function NameTaken(key: string, userId: string, except: Option<Guid>): VisualTag -> bool {
    (t: VisualTag) => t.userId == userId && NameKey(t.name) == key && (except.None? || t.id != except.value)
  }

  predicate UniqueTagIds(ts: seq<VisualTag>) {
    forall i, j | 0 <= i < j < |ts| :: ts[i].id != ts[j].id
  }

  /** No two tags of one user share a name key. */
  predicate DistinctTagNames(ts: seq<VisualTag>) {
    forall i, j | 0 <= i < j < |ts| && ts[i].userId == ts[j].userId ::
      NameKey(ts[i].name) != NameKey(ts[j].name)
  }

  predicate ValidTags(ts: seq<VisualTag>) {
    UniqueTagIds(ts) && DistinctTagNames(ts)
  }

  /** The name check passes exactly when no other tag of the user has the key. */
  lemma NameFree(ts: seq<VisualTag>, key: string, userId: string, except: Option<Guid>)
    ensures FirstIndex(ts, NameTaken(key, userId, except)) < 0 <==>
      forall t | t in ts && t.userId == userId && (except.None? || t.id != except.value) ::
        NameKey(t.name) != key
  {
    if FirstIndex(ts, NameTaken(key, userId, except)) < 0 {
      forall t | t in ts && t.userId == userId && (except.None? || t.id != except.value)
        ensures NameKey(t.name) != key
      {
        var k :| 0 <= k < |ts| && ts[k] == t;
        assert !NameTaken(key, userId, except)(ts[k]);
      }
    }
  }

  lemma AddedTagValid(ts: seq<VisualTag>, t: VisualTag)
    requires ValidTags(ts)
    requires forall u | u in ts :: u.id != t.id
    requires FirstIndex(ts, NameTaken(NameKey(t.name), t.userId, None)) < 0
    ensures ValidTags(ts + [t])
  {
    NameFree(ts, NameKey(t.name), t.userId, None);
    var us := ts + [t];
    forall i, j | 0 <= i < j < |us| ensures us[i].id != us[j].id {
      if j == |ts| {
        assert us[i] in ts;
      }
    }
    forall i, j | 0 <= i < j < |us| && us[i].userId == us[j].userId
      ensures NameKey(us[i].name) != NameKey(us[j].name)
    {
      if j == |ts| {
        assert us[i] in ts;
      }
    }
  }

  lemma ReplacedTagValid(ts: seq<VisualTag>, i: nat, t: VisualTag)
    requires ValidTags(ts) && i < |ts|
    requires t.id == ts[i].id && t.userId == ts[i].userId
    requires FirstIndex(ts, NameTaken(NameKey(t.name), t.userId, Some(t.id))) < 0
    ensures ValidTags(ts[i := t])
  {
    NameFree(ts, NameKey(t.name), t.userId, Some(t.id));
    var us := ts[i := t];
    forall a, b | 0 <= a < b < |us| ensures us[a].id != us[b].id {
      assert us[a].id == ts[a].id && us[b].id == ts[b].id;
    }
    forall a, b | 0 <= a < b < |us| && us[a].userId == us[b].userId
      ensures NameKey(us[a].name) != NameKey(us[b].name)
    {
      if a == i {
        assert ts[b] in ts && ts[b].id != t.id;
      } else if b == i {
        assert ts[a] in ts && ts[a].id != t.id;
      }
    }
  }

  lemma RemovedTagValid(ts: seq<VisualTag>, i: nat)
    requires ValidTags(ts) && i < |ts|
    ensures ValidTags(ts[..i] + ts[i + 1..])
    ensures forall t | t in ts[..i] + ts[i + 1..] :: t.id != ts[i].id
  {
    var us := ts[..i] + ts[i + 1..];
    forall a | 0 <= a < |us| ensures us[a] == ts[if a < i then a else a + 1] {
    }
    forall t | t in us ensures t.id != ts[i].id {
      var a :| 0 <= a < |us| && us[a] == t;
    }
  }

  // ---------------------------------------------------------------------
  // Queries

  function OwnerIs(userId: string): VisualTag -> bool {
    (t: VisualTag) => t.userId == userId
  }

  function ByName(nameLe: (string, string) -> bool): (VisualTag, VisualTag) -> bool {
    (a: VisualTag, b: VisualTag) => nameLe(a.name, b.name)
  }

  lemma ByNameOrders(nameLe: (string, string) -> bool)
    requires TotalPreorder(nameLe)
    ensures TotalPreorder(ByName(nameLe))
  {
    var le := ByName(nameLe);
    forall x: VisualTag, y: VisualTag, z: VisualTag | le(x, y) && le(y, z) ensures le(x, z) {
      assert nameLe(x.name, y.name) && nameLe(y.name, z.name);
    }
    forall x: VisualTag, y: VisualTag ensures le(x, y) || le(y, x) {
      assert nameLe(x.name, y.name) || nameLe(y.name, x.name);
    }
  }

  /** GetAllAsync: the user's tags ordered by name. */
  function UserTags(ts: seq<VisualTag>, userId: string, nameLe: (string, string) -> bool): (r: seq<VisualTag>)
    requires TotalPreorder(nameLe)
    ensures multiset(r) == multiset(Filter(ts, OwnerIs(userId)))
    ensures forall t :: t in r <==> t in ts && t.userId == userId
    ensures SortedBy(r, ByName(nameLe))
  {
    ByNameOrders(nameLe);
    var mine := Filter(ts, OwnerIs(userId));
    var r := SortBy(mine, ByName(nameLe));
    forall t ensures t in r <==> t in mine {
      SortByMembers(mine, ByName(nameLe), t);
    }
    r
  }

  /** GetByIdAsync: null unless the tag is the user's. */
  function TagById(ts: seq<VisualTag>, tagId: Guid, userId: string): (r: Option<VisualTag>)
    ensures r.Some? <==> exists t | t in ts :: t.id == tagId && t.userId == userId
    ensures r.Some? ==> r.value in ts && r.value.id == tagId && r.value.userId == userId
  {
    var i := FirstIndex(ts, TagWithId(tagId, userId));
    if i < 0 then None else Some(ts[i])
  }

  function TagKey(): VisualTag -> Guid {
    (t: VisualTag) => t.id
  }

  /** The link's Asset (Include(at => at.Asset)) belongs to the user. */
  predicate AssetOwnedBy(assets: seq<Asset>, assetId: Guid, userId: string) {
    var i := FirstIndex(assets, AssetIdIs(assetId));
    i >= 0 && assets[i].userId == userId
  }

  function LinksOfAsset(assetId: Guid): AssetTag -> bool {
    (l: AssetTag) => l.assetId == assetId
  }

  function LinksOfTag(tagId: Guid): AssetTag -> bool {
    (l: AssetTag) => l.tagId == tagId
  }

  /** The tags of the links, joined by id (an inner join), one per link. */
  function LinkedTags(links: seq<AssetTag>, ts: seq<VisualTag>): (r: seq<VisualTag>)
    ensures forall t | t in r :: t in ts && exists l | l in links :: l.tagId == t.id
    decreases |links|
  {
    if |links| == 0 then []
    else
      var init, l := links[..|links| - 1], links[|links| - 1];
      assert links == init + [l];
      var i := FirstIndex(ts, (t: VisualTag) => t.id == l.tagId);
      LinkedTags(init, ts) + (if i >= 0 then [ts[i]] else [])
  }

  /** Every tag a link points to is joined. */
  lemma {:induction false} LinkedTagsCover(links: seq<AssetTag>, ts: seq<VisualTag>, l: AssetTag, t: VisualTag)
    requires UniqueTagIds(ts) && l in links && t in ts && t.id == l.tagId
    ensures t in LinkedTags(links, ts)
    decreases |links|
  {
    var init, m := links[..|links| - 1], links[|links| - 1];
    assert links == init + [m];
    if l in init {
      LinkedTagsCover(init, ts, l, t);
    } else {
      var i := FirstIndex(ts, (u: VisualTag) => u.id == m.tagId);
      var k :| 0 <= k < |ts| && ts[k] == t;
      assert i >= 0;
      assert ts[i].id == ts[k].id;
    }
  }

  /** GetTagsByAssetIdAsync: nothing unless the asset is the user's; otherwise
      the tags linked to it, ordered by name. */
  function TagsOfAsset(assets: seq<Asset>, links: seq<AssetTag>, ts: seq<VisualTag>, assetId: Guid,
                       userId: string, nameLe: (string, string) -> bool): (r: seq<VisualTag>)
    requires TotalPreorder(nameLe)
    ensures FirstIndex(assets, (a: Asset) => a.id == assetId && a.userId == userId) < 0 ==> r == []
    ensures forall t | t in r :: t in ts && exists l | l in links :: l.assetId == assetId && l.tagId == t.id
    ensures SortedBy(r, ByName(nameLe))
  {
    if FirstIndex(assets, (a: Asset) => a.id == assetId && a.userId == userId) < 0 then []
    else
      ByNameOrders(nameLe);
      var mine := Filter(links, LinksOfAsset(assetId));
      var joined := LinkedTags(mine, ts);
      var r := SortBy(joined, ByName(nameLe));
      forall t | t in r ensures t in joined {
        SortByMembers(joined, ByName(nameLe), t);
      }
      r
  }

  /** When the asset is the user's, every tag linked to it is listed. */
  lemma TagsOfAssetShowsLinks(assets: seq<Asset>, links: seq<AssetTag>, ts: seq<VisualTag>, assetId: Guid,
                              userId: string, nameLe: (string, string) -> bool, l: AssetTag, t: VisualTag)
    requires TotalPreorder(nameLe) && UniqueTagIds(ts)
    requires FirstIndex(assets, (a: Asset) => a.id == assetId && a.userId == userId) >= 0
    requires l in links && l.assetId == assetId && t in ts && t.id == l.tagId
    ensures t in TagsOfAsset(assets, links, ts, assetId, userId, nameLe)
  {
    ByNameOrders(nameLe);
    var mine := Filter(links, LinksOfAsset(assetId));
    assert l in mine;
    LinkedTagsCover(mine, ts, l, t);
    SortByMembers(LinkedTags(mine, ts), ByName(nameLe), t);
  }

  /** GetAssetIdsByTagIdAsync: nothing unless the tag is the user's; otherwise
      the asset ids of its links. */
  function AssetIdsOfTag(ts: seq<VisualTag>, links: seq<AssetTag>, tagId: Guid, userId: string): (r: seq<Guid>)
    ensures TagById(ts, tagId, userId).None? ==> r == []
    ensures TagById(ts, tagId, userId).Some? ==>
      forall a :: a in r <==> AssetTag(a, tagId, 0) in Stamped(links, 0)
  {
    if TagById(ts, tagId, userId).None? then []
    else
      var mine := Filter(links, LinksOfTag(tagId));
      var r := Keys(mine, (l: AssetTag) => l.assetId);
      forall a ensures a in r <==> AssetTag(a, tagId, 0) in Stamped(links, 0) {
        StampedMembers(links, 0, a, tagId);
        if a in r {
          var k :| 0 <= k < |mine| && r[k] == a;
          assert mine[k] in mine;
        }
        if exists l | l in links :: l.assetId == a && l.tagId == tagId {
          var l :| l in links && l.assetId == a && l.tagId == tagId;
          assert l in mine;
          var k :| 0 <= k < |mine| && mine[k] == l;
          assert r[k] == a;
        }
      }
      r
  }

  /** The links with their assignment times set to `t`: a link table read as
      a set of (asset, tag) pairs. */
  function Stamped(links: seq<AssetTag>, t: Ticks): (r: seq<AssetTag>)
    ensures |r| == |links|
    ensures forall i | 0 <= i < |links| :: r[i] == links[i].(assignedAt := t)
  {
    seq(|links|, i requires 0 <= i < |links| => links[i].(assignedAt := t))
  }

  lemma StampedMembers(links: seq<AssetTag>, t: Ticks, a: Guid, g: Guid)
    ensures AssetTag(a, g, t) in Stamped(links, t) <==> exists l | l in links :: l.assetId == a && l.tagId == g
  {
    if AssetTag(a, g, t) in Stamped(links, t) {
      var k :| 0 <= k < |links| && Stamped(links, t)[k] == AssetTag(a, g, t);
      assert links[k] in links;
    }
    if exists l | l in links :: l.assetId == a && l.tagId == g {
      var l :| l in links && l.assetId == a && l.tagId == g;
      var k :| 0 <= k < |links| && links[k] == l;
      assert Stamped(links, t)[k] == AssetTag(a, g, t);
    }
  }

  // ---------------------------------------------------------------------
  // Assigning tags

  /** The keys of the existing links among AssetIds × TagIds. */
  function ExistingPairs(links: seq<AssetTag>, assetIds: seq<Guid>, tagIds: seq<Guid>): set<(Guid, Guid)> {
    set l | l in links && l.assetId in assetIds && l.tagId in tagIds :: (l.assetId, l.tagId)
  }

  /** The links the inner loop adds for one asset. */
  function RowLinks(a: Guid, tagIds: seq<Guid>, existing: set<(Guid, Guid)>, now: Ticks): seq<AssetTag>
    decreases |tagIds|
  {
    if |tagIds| == 0 then []
    else
      var init, t := tagIds[..|tagIds| - 1], tagIds[|tagIds| - 1];
      RowLinks(a, init, existing, now) + (if (a, t) in existing then [] else [AssetTag(a, t, now)])
  }

  /** The links both loops add: one per pair not already linked, asset by asset. */
  function NewLinks(assetIds: seq<Guid>, tagIds: seq<Guid>, existing: set<(Guid, Guid)>, now: Ticks): seq<AssetTag>
    decreases |assetIds|
  {
    if |assetIds| == 0 then []
    else
      var init, a := assetIds[..|assetIds| - 1], assetIds[|assetIds| - 1];
      NewLinks(init, tagIds, existing, now) + RowLinks(a, tagIds, existing, now)
  }

  lemma {:induction false} RowLinksMembers(a: Guid, tagIds: seq<Guid>, existing: set<(Guid, Guid)>, now: Ticks, l: AssetTag)
    ensures l in RowLinks(a, tagIds, existing, now) <==>
      l.assetId == a && l.tagId in tagIds && (a, l.tagId) !in existing && l.assignedAt == now
    decreases |tagIds|
  {
    if |tagIds| > 0 {
      var init := tagIds[..|tagIds| - 1];
      assert tagIds == init + [tagIds[|tagIds| - 1]];
      RowLinksMembers(a, init, existing, now, l);
    }
  }

  /** Exactly the pairs of AssetIds × TagIds not already linked are added. */
  lemma {:induction false} NewLinksMembers(assetIds: seq<Guid>, tagIds: seq<Guid>, existing: set<(Guid, Guid)>,
                                           now: Ticks, l: AssetTag)
    ensures l in NewLinks(assetIds, tagIds, existing, now) <==>
      l.assetId in assetIds && l.tagId in tagIds && (l.assetId, l.tagId) !in existing && l.assignedAt == now
    decreases |assetIds|
  {
    if |assetIds| > 0 {
      var init, a := assetIds[..|assetIds| - 1], assetIds[|assetIds| - 1];
      assert assetIds == init + [a];
      NewLinksMembers(init, tagIds, existing, now, l);
      RowLinksMembers(a, tagIds, existing, now, l);
    }
  }

  /** Nothing is added once every pair is linked. */
  lemma {:induction false} NewLinksNone(assetIds: seq<Guid>, tagIds: seq<Guid>, existing: set<(Guid, Guid)>, now: Ticks)
    requires forall a, t | a in assetIds && t in tagIds :: (a, t) in existing
    ensures NewLinks(assetIds, tagIds, existing, now) == []
  {
    var n := NewLinks(assetIds, tagIds, existing, now);
    if |n| > 0 {
      NewLinksMembers(assetIds, tagIds, existing, now, n[0]);
      assert false;
    }
  }

  /** After an assignment every requested pair is linked. */
  lemma AssignedAllLinked(links: seq<AssetTag>, assetIds: seq<Guid>, tagIds: seq<Guid>, now: Ticks)
    ensures var after := links + NewLinks(assetIds, tagIds, ExistingPairs(links, assetIds, tagIds), now);
      forall a, t | a in assetIds && t in tagIds :: (a, t) in ExistingPairs(after, assetIds, tagIds)
  {
    var existing := ExistingPairs(links, assetIds, tagIds);
    var after := links + NewLinks(assetIds, tagIds, existing, now);
    forall a, t | a in assetIds && t in tagIds ensures (a, t) in ExistingPairs(after, assetIds, tagIds) {
      if (a, t) in existing {
        var l :| l in links && l.assetId in assetIds && l.tagId in tagIds && (l.assetId, l.tagId) == (a, t);
        assert l in after;
      } else {
        NewLinksMembers(assetIds, tagIds, existing, now, AssetTag(a, t, now));
        assert AssetTag(a, t, now) in after;
      }
    }
  }

  /** Assigning the same tags to the same assets again adds nothing. */
  lemma AssignAgainAddsNothing(links: seq<AssetTag>, assetIds: seq<Guid>, tagIds: seq<Guid>, now: Ticks, later: Ticks)
    ensures var after := links + NewLinks(assetIds, tagIds, ExistingPairs(links, assetIds, tagIds), now);
      NewLinks(assetIds, tagIds, ExistingPairs(after, assetIds, tagIds), later) == []
  {
    AssignedAllLinked(links, assetIds, tagIds, now);
    var after := links + NewLinks(assetIds, tagIds, ExistingPairs(links, assetIds, tagIds), now);
    NewLinksNone(assetIds, tagIds, ExistingPairs(after, assetIds, tagIds), later);
  }

  /** The inner loop. */
  method InsertRow(links0: seq<AssetTag>, a: Guid, tagIds: seq<Guid>, existing: set<(Guid, Guid)>, now: Ticks)
    returns (links: seq<AssetTag>, added: nat)
    ensures links == links0 + RowLinks(a, tagIds, existing, now)
    ensures added == |RowLinks(a, tagIds, existing, now)|
  {
    links, added := links0, 0;
    for j := 0 to |tagIds|
      invariant links == links0 + RowLinks(a, tagIds[..j], existing, now)
      invariant added == |RowLinks(a, tagIds[..j], existing, now)|
    {
      assert tagIds[..j + 1][..j] == tagIds[..j];
      if (a, tagIds[j]) !in existing {
        links := links + [AssetTag(a, tagIds[j], now)];
        added := added + 1;
      }
    }
    assert tagIds[..|tagIds|] == tagIds;
  }

  /** The outer loop. */
  method InsertLinks(links0: seq<AssetTag>, assetIds: seq<Guid>, tagIds: seq<Guid>, existing: set<(Guid, Guid)>, now: Ticks)
    returns (links: seq<AssetTag>, added: nat)
    ensures links == links0 + NewLinks(assetIds, tagIds, existing, now)
    ensures added == |NewLinks(assetIds, tagIds, existing, now)|
  {
    links, added := links0, 0;
    for i := 0 to |assetIds|
      invariant links == links0 + NewLinks(assetIds[..i], tagIds, existing, now)
      invariant added == |NewLinks(assetIds[..i], tagIds, existing, now)|
    {
      assert assetIds[..i + 1][..i] == assetIds[..i];
      var more;
      links, more := InsertRow(links, assetIds[i], tagIds, existing, now);
      added := added + more;
    }
    assert assetIds[..|assetIds|] == assetIds;
  }

  /** The number of links of a tag: CountAsync(at => at.VisualTagId == tagId). */
  function LinkCount(links: seq<AssetTag>, tagId: Guid): nat {
    |Filter(links, LinksOfTag(tagId))|
  }

  /** The tags after their AssetCount is recomputed: each of the user's tags
      whose id is listed gets its current number of links. */
  function Recounted(ts: seq<VisualTag>, links: seq<AssetTag>, ids: seq<Guid>, userId: string): (r: seq<VisualTag>)
    ensures |r| == |ts|
    ensures forall k | 0 <= k < |ts| ::
      r[k] == if ts[k].id in ids && ts[k].userId == userId then ts[k].(assetCount := LinkCount(links, ts[k].id)) else ts[k]
  {
    seq(|ts|, k requires 0 <= k < |ts| =>
      if ts[k].id in ids && ts[k].userId == userId then ts[k].(assetCount := LinkCount(links, ts[k].id)) else ts[k])
  }

  lemma RecountedValid(ts: seq<VisualTag>, links: seq<AssetTag>, ids: seq<Guid>, userId: string)
    requires ValidTags(ts)
    ensures ValidTags(Recounted(ts, links, ids, userId))
  {
    var r := Recounted(ts, links, ids, userId);
    assert forall k | 0 <= k < |ts| :: r[k].id == ts[k].id && r[k].name == ts[k].name && r[k].userId == ts[k].userId;
  }

  /** One step of the recount loop when the user has no tag with the id. */
  lemma RecountSkip(ts: seq<VisualTag>, links: seq<AssetTag>, done: seq<Guid>, x: Guid, userId: string)
    requires FirstIndex(Recounted(ts, links, done, userId), TagWithId(x, userId)) < 0
    ensures Recounted(ts, links, done + [x], userId) == Recounted(ts, links, done, userId)
  {
    var cur := Recounted(ts, links, done, userId);
    var next := Recounted(ts, links, done + [x], userId);
    forall m | 0 <= m < |ts| ensures next[m] == cur[m] {
      assert !TagWithId(x, userId)(cur[m]);
    }
  }

  /** One step of the recount loop when the user's tag with the id is at `i`. */
  lemma RecountHit(ts: seq<VisualTag>, links: seq<AssetTag>, done: seq<Guid>, x: Guid, userId: string, i: nat)
    requires UniqueTagIds(ts)
    requires var cur := Recounted(ts, links, done, userId); i < |cur| && TagWithId(x, userId)(cur[i])
    ensures var cur := Recounted(ts, links, done, userId);
      Recounted(ts, links, done + [x], userId) == cur[i := cur[i].(assetCount := LinkCount(links, x))]
  {
    var cur := Recounted(ts, links, done, userId);
    var next := Recounted(ts, links, done + [x], userId);
    assert ts[i].id == x && ts[i].userId == userId;
    forall m | 0 <= m < |ts| ensures next[m] == cur[i := cur[i].(assetCount := LinkCount(links, x))][m] {
      assert m != i ==> ts[m].id != ts[i].id;
    }
  }

  /** The loop that recomputes AssetCount for the listed tags. */
  method Recount(ts0: seq<VisualTag>, links: seq<AssetTag>, ids: seq<Guid>, userId: string)
    returns (ts: seq<VisualTag>)
    requires UniqueTagIds(ts0)
    ensures ts == Recounted(ts0, links, ids, userId)
  {
    ts := ts0;
    assert Recounted(ts0, links, ids[..0], userId) == ts0;
    for k := 0 to |ids|
      invariant ts == Recounted(ts0, links, ids[..k], userId)
    {
      assert ids[..k + 1] == ids[..k] + [ids[k]];
      var i := FirstIndex(ts, TagWithId(ids[k], userId));
      if i >= 0 {
        RecountHit(ts0, links, ids[..k], ids[k], userId, i);
        ts := ts[i := ts[i].(assetCount := LinkCount(links, ids[k]))];
      } else {
        RecountSkip(ts0, links, ids[..k], ids[k], userId);
      }
    }
    assert ids[..|ids|] == ids;
  }

  /** After a recount each listed tag of the user caches its number of links. */
  lemma RecountedCounts(ts: seq<VisualTag>, links: seq<AssetTag>, ids: seq<Guid>, userId: string)
    ensures forall t | t in Recounted(ts, links, ids, userId) && t.id in ids && t.userId == userId ::
      t.assetCount == LinkCount(links, t.id)
  {
    var r := Recounted(ts, links, ids, userId);
    forall t | t in r && t.id in ids && t.userId == userId ensures t.assetCount == LinkCount(links, t.id) {
      var k :| 0 <= k < |r| && r[k] == t;
    }
  }

  // ---------------------------------------------------------------------
  // Removing tags

  /** A link RemoveTagsFromAssetsAsync deletes: a requested asset of the
      user's and a requested tag. */
  function Matches(assetIds: seq<Guid>, tagIds: seq<Guid>, assets: seq<Asset>, userId: string): AssetTag -> bool {
    (l: AssetTag) => l.assetId in assetIds && l.tagId in tagIds && AssetOwnedBy(assets, l.assetId, userId)
  }

  function Spared(assetIds: seq<Guid>, tagIds: seq<Guid>, assets: seq<Asset>, userId: string): AssetTag -> bool {
    (l: AssetTag) => !Matches(assetIds, tagIds, assets, userId)(l)
  }

  function TagIdsOf(links: seq<AssetTag>): seq<Guid> {
    Keys(links, (l: AssetTag) => l.tagId)
  }

  /** The number removed is the number of links that disappear, and a
      second removal removes nothing. */
  lemma RemovalCounts(links: seq<AssetTag>, assetIds: seq<Guid>, tagIds: seq<Guid>, assets: seq<Asset>, userId: string)
    ensures var removed := Filter(links, Matches(assetIds, tagIds, assets, userId));
      var kept := Filter(links, Spared(assetIds, tagIds, assets, userId));
      |removed| + |kept| == |links| &&
      Filter(kept, Matches(assetIds, tagIds, assets, userId)) == []
  {
    FilterSplit(links, Matches(assetIds, tagIds, assets, userId), Spared(assetIds, tagIds, assets, userId));
    FilterNone(Filter(links, Spared(assetIds, tagIds, assets, userId)), Matches(assetIds, tagIds, assets, userId));
  }

  /** A tag whose links were not touched keeps its count. */
  lemma RemovalSparesOtherTags(links: seq<AssetTag>, assetIds: seq<Guid>, tagIds: seq<Guid>, assets: seq<Asset>,
                               userId: string, tagId: Guid)
    requires tagId !in tagIds
    ensures LinkCount(Filter(links, Spared(assetIds, tagIds, assets, userId)), tagId) == LinkCount(links, tagId)
  {
    forall l | l in links
      ensures LinksOfTag(tagId)(l) == (Spared(assetIds, tagIds, assets, userId)(l) && LinksOfTag(tagId)(l))
    {
      if l.tagId == tagId {
        assert !Matches(assetIds, tagIds, assets, userId)(l);
      }
    }
    FilterFilter(links, Spared(assetIds, tagIds, assets, userId), LinksOfTag(tagId), LinksOfTag(tagId));
  }

  // ---------------------------------------------------------------------
  // The service's tables

  class TagStore {
    var tags: seq<VisualTag>
    var links: seq<AssetTag>
    var assets: seq<Asset>

    ghost predicate Valid()
      reads this
    {
      ValidTags(tags) && UniqueKeys(assets, AssetKey())
    }

    constructor (assets: seq<Asset>)
      requires UniqueKeys(assets, AssetKey())
      ensures Valid() && tags == [] && links == [] && this.assets == assets
    {
      tags := [];
      links := [];
      this.assets := assets;
    }

    /** CreateAsync: refused when another tag of the user has the same name
        key; otherwise the tag is stored with its name trimmed and no assets.
        `id` is the fresh Guid. */
    method CreateTag(name: string, color: string, userId: string, companyId: Option<Guid>, id: Guid, now: Ticks)
      returns (r: Result<VisualTag>)
      requires Valid()
      requires forall t | t in tags :: t.id != id
      modifies this
      ensures Valid()
      ensures links == old(links) && assets == old(assets)
      ensures FirstIndex(old(tags), NameTaken(NameKey(name), userId, None)) >= 0 ==>
        r == Err(DuplicateMessage(name)) && tags == old(tags)
      ensures FirstIndex(old(tags), NameTaken(NameKey(name), userId, None)) < 0 ==>
        r == Ok(VisualTag(id, Trim(name), color, userId, companyId, 0, now, now)) &&
        tags == old(tags) + [r.value]
    {
      if FirstIndex(tags, NameTaken(NameKey(name), userId, None)) >= 0 {
        return Err(DuplicateMessage(name));
      }
      var t := VisualTag(id, Trim(name), color, userId, companyId, 0, now, now);
      TrimIdempotent(name);
      AddedTagValid(tags, t);
      tags := tags + [t];
      r := Ok(t);
    }

    /** UpdateAsync: null for a tag that is not the user's; refused when
        another tag of the user has the new name key; otherwise the trimmed
        name and the colour are written. */
    method UpdateTag(tagId: Guid, name: string, color: string, userId: string, now: Ticks)
      returns (r: Result<Option<VisualTag>>)
      requires Valid()
      modifies this
      ensures Valid()
      ensures links == old(links) && assets == old(assets)
      ensures var i := FirstIndex(old(tags), TagWithId(tagId, userId));
        var taken := FirstIndex(old(tags), NameTaken(NameKey(name), userId, Some(tagId))) >= 0;
        (i < 0 ==> r == Ok(None) && tags == old(tags)) &&
        (i >= 0 && taken ==> r == Err(DuplicateMessage(name)) && tags == old(tags)) &&
        (i >= 0 && !taken ==>
          r == Ok(Some(old(tags)[i].(name := Trim(name), color := color, updatedAt := now))) &&
          tags == old(tags)[i := r.value.value])
    {
      var i := FirstIndex(tags, TagWithId(tagId, userId));
      if i < 0 {
        return Ok(None);
      }
      if FirstIndex(tags, NameTaken(NameKey(name), userId, Some(tagId))) >= 0 {
        return Err(DuplicateMessage(name));
      }
      var t := tags[i].(name := Trim(name), color := color, updatedAt := now);
      TrimIdempotent(name);
      ReplacedTagValid(tags, i, t);
      tags := tags[i := t];
      r := Ok(Some(t));
    }

    /** DeleteAsync: the tag and every link to it are deleted. */
    method DeleteTag(tagId: Guid, userId: string) returns (r: bool)
      requires Valid()
      modifies this
      ensures Valid()
      ensures assets == old(assets)
      ensures var i := FirstIndex(old(tags), TagWithId(tagId, userId));
        (i < 0 ==> !r && tags == old(tags) && links == old(links)) &&
        (i >= 0 ==> r && tags == old(tags)[..i] + old(tags)[i + 1..] &&
                    links == Filter(old(links), (l: AssetTag) => l.tagId != tagId))
      ensures r ==> (forall l | l in links :: l.tagId != tagId) && TagById(tags, tagId, userId).None?
    {
      var i := FirstIndex(tags, TagWithId(tagId, userId));
      if i < 0 {
        return false;
      }
      links := Keep(links, (l: AssetTag) => l.tagId != tagId);
      RemovedTagValid(tags, i);
      tags := tags[..i] + tags[i + 1..];
      r := true;
    }

    /** AssignTagsToAssetsAsync: refused unless every requested asset and
        every requested tag is the user's; then adds the pairs not already
        linked and, when it added any, recomputes the requested tags' counts.
        Returns the number of links added. */
    method AssignTags(assetIds: seq<Guid>, tagIds: seq<Guid>, userId: string, now: Ticks)
      returns (r: Result<nat>)
      requires Valid()
      modifies this
      ensures Valid()
      ensures assets == old(assets)
      ensures !CountMatches(old(assets), assetIds, AssetKey(), AssetOwner(userId)) ==>
        r == Err(AssetsDeniedMessage) && tags == old(tags) && links == old(links)
      ensures CountMatches(old(assets), assetIds, AssetKey(), AssetOwner(userId)) &&
              !CountMatches(old(tags), tagIds, TagKey(), OwnerIs(userId)) ==>
        r == Err(TagsDeniedMessage) && tags == old(tags) && links == old(links)
      ensures CountMatches(old(assets), assetIds, AssetKey(), AssetOwner(userId)) &&
              CountMatches(old(tags), tagIds, TagKey(), OwnerIs(userId)) ==>
        var added := NewLinks(assetIds, tagIds, ExistingPairs(old(links), assetIds, tagIds), now);
        r == Ok(|added|) && links == old(links) + added &&
        tags == if |added| > 0 then Recounted(old(tags), links, tagIds, userId) else old(tags)
    {
      if !CountMatches(assets, assetIds, AssetKey(), AssetOwner(userId)) {
        return Err(AssetsDeniedMessage);
      }
      if !CountMatches(tags, tagIds, TagKey(), OwnerIs(userId)) {
        return Err(TagsDeniedMessage);
      }
      var existing := ExistingPairs(links, assetIds, tagIds);
      var added;
      links, added := InsertLinks(links, assetIds, tagIds, existing, now);
      if added > 0 {
        RecountedValid(tags, links, tagIds, userId);
        tags := Recount(tags, links, tagIds, userId);
      }
      r := Ok(added);
    }

    /** RemoveTagsFromAssetsAsync: deletes the requested links on the user's
        assets, recomputes the counts of the user's tags among them, and
        returns how many links it deleted. */
    method RemoveTags(assetIds: seq<Guid>, tagIds: seq<Guid>, userId: string) returns (r: nat)
      requires Valid()
      modifies this
      ensures Valid()
      ensures assets == old(assets)
      ensures var removed := Filter(old(links), Matches(assetIds, tagIds, old(assets), userId));
        r == |removed| &&
        (r == 0 ==> tags == old(tags) && links == old(links)) &&
        (r > 0 ==> links == Filter(old(links), Spared(assetIds, tagIds, old(assets), userId)) &&
                   tags == Recounted(old(tags), links, Distinct(TagIdsOf(removed)), userId))
    {
      var removed := Keep(links, Matches(assetIds, tagIds, assets, userId));
      if |removed| == 0 {
        return 0;
      }
      var affected := Distinct(TagIdsOf(removed));
      var kept := Keep(links, Spared(assetIds, tagIds, assets, userId));
      RecountedValid(tags, kept, affected, userId);
      var recounted := Recount(tags, kept, affected, userId);
      links, tags := kept, recounted;
      r := |removed|;
    }
  }
}

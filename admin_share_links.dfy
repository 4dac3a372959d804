/** The administrator's view of share links: the listing of every active link
    of both kinds, removing and editing a link with an audit record, and the
    audit log query. */
module AdminShareLinks {
  import opened Wrappers
  import opened Base
  import opened Text
  import opened Seqs
  import opened Sorting
  import opened ShareLinks

  const AssetTypeName: string := "Asset"
  const CollectionTypeName: string := "Collection"
  const DeletedAction: string := "Deleted"
  const UpdatedAction: string := "Updated"
  const DefaultAuditLimit: int := 100

  /** The ShareLinkType text of a request, compared ignoring case. */
  function ParseKind(typeName: string): (k: Option<LinkKind>)
    ensures k == Some(AssetLink) <==> EqualsIgnoreCase(typeName, AssetTypeName)
    ensures k == Some(CollectionLink) <==> EqualsIgnoreCase(typeName, CollectionTypeName)
  {
    if EqualsIgnoreCase(typeName, AssetTypeName) then Some(AssetLink)
    else if EqualsIgnoreCase(typeName, CollectionTypeName) then Some(CollectionLink)
    else None
  }

  // ------------------------------------------------------------ listing

  /** One row of the listing: the kind of link and the link as shown (a
      collection row always shows no download limit). */
  datatype AdminEntry = AdminEntry(kind: LinkKind, link: ShareLink)

  function IsActive(): ShareLink -> bool {
    (l: ShareLink) => l.isActive
  }

  function NewestEntryFirst(): (AdminEntry, AdminEntry) -> bool {
    (x: AdminEntry, y: AdminEntry) => x.link.createdAt >= y.link.createdAt
  }

  function AsEntries(kind: LinkKind, links: seq<ShareLink>): (r: seq<AdminEntry>)
    ensures |r| == |links|
    ensures forall i | 0 <= i < |r| ::
      r[i].kind == kind && r[i].link == (if kind == AssetLink then links[i] else links[i].(downloadLimit := None))
  {
    seq(|links|, i requires 0 <= i < |links| =>
      AdminEntry(kind, if kind == AssetLink then links[i] else links[i].(downloadLimit := None)))
  }

  /** GetAllActiveShareLinksAsync: the active links of each table newest first,
      asset rows then collection rows, the whole ordered newest first. Expired
      links that were not revoked yet are listed too. */
  function AdminListing(assetLinks: seq<ShareLink>, collectionLinks: seq<ShareLink>): seq<AdminEntry> {
    NewestEntryOrders();
    SortBy(AsEntries(AssetLink, ActiveByAge(assetLinks)) + AsEntries(CollectionLink, ActiveByAge(collectionLinks)),
           NewestEntryFirst())
  }

  /** Where(IsActive).OrderByDescending(CreatedAt) on one table. */
  function ActiveByAge(links: seq<ShareLink>): (r: seq<ShareLink>)
    ensures |r| == |Filter(links, IsActive())|
    ensures forall l :: l in r <==> l in links && l.isActive
    ensures forall i, j | 0 <= i < j < |r| :: r[i].createdAt >= r[j].createdAt
  {
    NewestFirstOrders();
    var r := SortBy(Filter(links, IsActive()), NewestFirst());
    forall l ensures l in r <==> l in links && l.isActive {
      SortByMembers(Filter(links, IsActive()), NewestFirst(), l);
    }
    r
  }

  lemma NewestEntryOrders()
    ensures TotalPreorder(NewestEntryFirst())
  {
  }

  /** The listing has one row per active link of either table and is ordered
      newest first. */
  lemma AdminListingSize(assetLinks: seq<ShareLink>, collectionLinks: seq<ShareLink>)
    ensures |AdminListing(assetLinks, collectionLinks)| ==
      |Filter(assetLinks, IsActive())| + |Filter(collectionLinks, IsActive())|
    ensures SortedBy(AdminListing(assetLinks, collectionLinks), NewestEntryFirst())
  {
  }

  /** The rows of the listing are the rows of the two per-table lists. */
  lemma ListingMembers(assetLinks: seq<ShareLink>, collectionLinks: seq<ShareLink>, e: AdminEntry)
    ensures e in AdminListing(assetLinks, collectionLinks) <==>
      e in AsEntries(AssetLink, ActiveByAge(assetLinks)) + AsEntries(CollectionLink, ActiveByAge(collectionLinks))
  {
    NewestEntryOrders();
    SortByMembers(AsEntries(AssetLink, ActiveByAge(assetLinks)) + AsEntries(CollectionLink, ActiveByAge(collectionLinks)),
                  NewestEntryFirst(), e);
  }

  lemma AssetEntries(links: seq<ShareLink>, l: ShareLink)
    ensures AdminEntry(AssetLink, l) in AsEntries(AssetLink, links) <==> l in links
  {
    var es := AsEntries(AssetLink, links);
    if AdminEntry(AssetLink, l) in es {
      var i :| 0 <= i < |es| && es[i] == AdminEntry(AssetLink, l);
      assert links[i] == l;
    }
    if l in links {
      var i :| 0 <= i < |links| && links[i] == l;
      assert es[i] == AdminEntry(AssetLink, l);
    }
  }

  lemma CollectionEntries(links: seq<ShareLink>, l: ShareLink)
    ensures AdminEntry(CollectionLink, l) in AsEntries(CollectionLink, links) <==>
      (l.downloadLimit.None? && exists c :: c in links && l == c.(downloadLimit := None))
  {
    var es := AsEntries(CollectionLink, links);
    if AdminEntry(CollectionLink, l) in es {
      var i :| 0 <= i < |es| && es[i] == AdminEntry(CollectionLink, l);
      assert links[i] in links && l == links[i].(downloadLimit := None);
    }
    if l.downloadLimit.None? && exists c :: c in links && l == c.(downloadLimit := None) {
      var c :| c in links && l == c.(downloadLimit := None);
      var i :| 0 <= i < |links| && links[i] == c;
      assert es[i] == AdminEntry(CollectionLink, l);
    }
  }

  /** No row of one kind is among the rows made for the other kind. */
  lemma EntriesOfKind(kind: LinkKind, links: seq<ShareLink>, e: AdminEntry)
    requires e.kind != kind
    ensures e !in AsEntries(kind, links)
  {
  }

  /** An asset row is listed exactly for an active asset link, as stored. */
  lemma ListingAssetRows(assetLinks: seq<ShareLink>, collectionLinks: seq<ShareLink>, l: ShareLink)
    ensures AdminEntry(AssetLink, l) in AdminListing(assetLinks, collectionLinks) <==> l in assetLinks && l.isActive
  {
    ListingMembers(assetLinks, collectionLinks, AdminEntry(AssetLink, l));
    AssetEntries(ActiveByAge(assetLinks), l);
    EntriesOfKind(CollectionLink, ActiveByAge(collectionLinks), AdminEntry(AssetLink, l));
  }

  /** A collection row is listed exactly for an active collection link, shown
      without a download limit. */
  lemma ListingCollectionRows(assetLinks: seq<ShareLink>, collectionLinks: seq<ShareLink>, l: ShareLink)
    ensures AdminEntry(CollectionLink, l) in AdminListing(assetLinks, collectionLinks) <==>
      (l.downloadLimit.None? && exists c :: c in collectionLinks && c.isActive && l == c.(downloadLimit := None))
  {
    var fc := ActiveByAge(collectionLinks);
    ListingMembers(assetLinks, collectionLinks, AdminEntry(CollectionLink, l));
    CollectionEntries(fc, l);
    EntriesOfKind(AssetLink, ActiveByAge(assetLinks), AdminEntry(CollectionLink, l));
    assert (exists c :: c in fc && l == c.(downloadLimit := None)) <==>
      (exists c :: c in collectionLinks && c.isActive && l == c.(downloadLimit := None));
  }

  // ------------------------------------------------------------ audit

  function AuditRecord(id: Guid, linkId: Guid, typeName: string, action: string,
                       adminId: string, adminName: string, now: Ticks,
                       details: AuditDetails, ipAddress: Option<string>): AuditEntry {
    AuditEntry(id, linkId, typeName, action, adminId, adminName, now, details, ipAddress)
  }

  /** DeleteShareLinkAsync: for a known type and an existing id the link is
      deactivated with RevokedAt = now and one "Deleted" record is logged
      (with the type text as given); otherwise nothing changes. */
  method DeleteShareLink(store: ShareLinkStore, linkId: Guid, typeName: string,
                         adminId: string, adminName: string, ipAddress: Option<string>,
                         now: Ticks, auditId: Guid)
    returns (success: bool)
    modifies store
    ensures var kind := ParseKind(typeName);
      success <==> kind.Some? && IdIndex(old(store.Links(kind.value)), linkId) >= 0
    ensures !success ==>
      store.assetLinks == old(store.assetLinks) && store.collectionLinks == old(store.collectionLinks) &&
      store.auditLog == old(store.auditLog)
    ensures success ==>
      var kind := ParseKind(typeName).value;
      var links := old(store.Links(kind));
      var i := IdIndex(links, linkId);
      store.Links(kind) == links[i := links[i].(isActive := false, revokedAt := Some(now))] &&
      (forall k | k != kind :: store.Links(k) == old(store.Links(k))) &&
      store.auditLog == old(store.auditLog) +
        [AuditRecord(auditId, linkId, typeName, DeletedAction, adminId, adminName, now, RemovedLink(links[i].token), ipAddress)]
  {
    success := false;
    var kind := ParseKind(typeName);
    if kind.None? {
      return;
    }
    var links := store.Links(kind.value);
    var i := IdIndex(links, linkId);
    if i < 0 {
      return;
    }
    var token := links[i].token;
    store.Store(kind.value, links[i := links[i].(isActive := false, revokedAt := Some(now))]);
    success := true;
    store.auditLog := store.auditLog +
      [AuditRecord(auditId, linkId, typeName, DeletedAction, adminId, adminName, now, RemovedLink(token), ipAddress)];
  }

  /** UpdateShareLinkDto. */
  datatype UpdateRequest = UpdateRequest(linkId: Guid, typeName: string, expiresAt: Option<Ticks>, downloadLimit: Option<int>)

  /** The request sets an expiry other than the link's. */
  predicate ExpiryChange(link: ShareLink, req: UpdateRequest) {
    req.expiresAt.Some? && req.expiresAt.value != link.expiresAt
  }

  /** The request sets a download limit other than the link's; collection
      links ignore a limit. */
  predicate LimitChange(kind: LinkKind, link: ShareLink, req: UpdateRequest) {
    kind == AssetLink && req.downloadLimit.Some? && Some(req.downloadLimit.value) != link.downloadLimit
  }

  /** The changes a request makes to a link, expiry first. */
  function Changes(kind: LinkKind, link: ShareLink, req: UpdateRequest): (r: seq<Change>)
    ensures |r| <= 2
    ensures r == [] <==> !ExpiryChange(link, req) && !LimitChange(kind, link, req)
    ensures ExpiryChange(link, req) ==> r[0] == ExpiryChanged(link.expiresAt, req.expiresAt.value)
    ensures LimitChange(kind, link, req) ==> r[|r| - 1] == LimitChanged(link.downloadLimit, req.downloadLimit.value)
  {
    (if ExpiryChange(link, req) then [ExpiryChanged(link.expiresAt, req.expiresAt.value)] else []) +
    (if LimitChange(kind, link, req) then [LimitChanged(link.downloadLimit, req.downloadLimit.value)] else [])
  }

  /** The link with the request's values written over it. */
  function Updated(kind: LinkKind, link: ShareLink, req: UpdateRequest): (u: ShareLink)
    ensures u.expiresAt == req.expiresAt.GetOr(link.expiresAt)
    ensures u.downloadLimit == (if kind == AssetLink && req.downloadLimit.Some? then Some(req.downloadLimit.value) else link.downloadLimit)
    ensures u.(expiresAt := link.expiresAt, downloadLimit := link.downloadLimit) == link
  {
    var e := if ExpiryChange(link, req) then link.(expiresAt := req.expiresAt.value) else link;
    if LimitChange(kind, e, req) then e.(downloadLimit := Some(req.downloadLimit.value)) else e
  }

  /** A request applied once has nothing left to change: sending it again
      reports no success and logs nothing. */
  lemma UpdateSettles(kind: LinkKind, link: ShareLink, req: UpdateRequest)
    ensures Changes(kind, Updated(kind, link, req), req) == []
  {
  }

  /** The link is rewritten exactly when there are changes. */
  lemma NoChangesNoUpdate(kind: LinkKind, link: ShareLink, req: UpdateRequest)
    ensures Changes(kind, link, req) == [] <==> Updated(kind, link, req) == link
  {
  }

  /** UpdateShareLinkAsync: succeeds exactly when the type is known, the link
      exists and something changes; then the link is rewritten and one
      "Updated" record lists the changes. */
  method UpdateShareLink(store: ShareLinkStore, req: UpdateRequest,
                         adminId: string, adminName: string, ipAddress: Option<string>,
                         now: Ticks, auditId: Guid)
    returns (success: bool)
    modifies store
    ensures var kind := ParseKind(req.typeName);
      success <==> (kind.Some? && IdIndex(old(store.Links(kind.value)), req.linkId) >= 0 &&
        Changes(kind.value, old(store.Links(kind.value))[IdIndex(old(store.Links(kind.value)), req.linkId)], req) != [])
    ensures !success ==>
      store.assetLinks == old(store.assetLinks) && store.collectionLinks == old(store.collectionLinks) &&
      store.auditLog == old(store.auditLog)
    ensures success ==>
      var kind := ParseKind(req.typeName).value;
      var links := old(store.Links(kind));
      var i := IdIndex(links, req.linkId);
      store.Links(kind) == links[i := Updated(kind, links[i], req)] &&
      (forall k | k != kind :: store.Links(k) == old(store.Links(k))) &&
      store.auditLog == old(store.auditLog) +
        [AuditRecord(auditId, req.linkId, req.typeName, UpdatedAction, adminId, adminName, now,
                     ChangedFields(Changes(kind, links[i], req)), ipAddress)]
  {
    success := false;
    var kind := ParseKind(req.typeName);
    if kind.None? {
      return;
    }
    var links := store.Links(kind.value);
    var i := IdIndex(links, req.linkId);
    if i < 0 {
      return;
    }
    var link := links[i];
    var changes: seq<Change> := [];
    if req.expiresAt.Some? && req.expiresAt.value != link.expiresAt {
      changes := changes + [ExpiryChanged(link.expiresAt, req.expiresAt.value)];
      link := link.(expiresAt := req.expiresAt.value);
    }
    if kind.value == AssetLink && req.downloadLimit.Some? && Some(req.downloadLimit.value) != link.downloadLimit {
      changes := changes + [LimitChanged(link.downloadLimit, req.downloadLimit.value)];
      link := link.(downloadLimit := Some(req.downloadLimit.value));
    }
    assert changes == Changes(kind.value, links[i], req);
    assert link == Updated(kind.value, links[i], req);
    if |changes| > 0 {
      store.Store(kind.value, links[i := link]);
      success := true;
      store.auditLog := store.auditLog +
        [AuditRecord(auditId, req.linkId, req.typeName, UpdatedAction, adminId, adminName, now, ChangedFields(changes), ipAddress)];
    }
  }

  // ------------------------------------------------------------ audit query

  function NewestAuditFirst(): (AuditEntry, AuditEntry) -> bool {
    (x: AuditEntry, y: AuditEntry) => x.performedAt >= y.performedAt
  }

  function ForLink(linkId: Option<Guid>): AuditEntry -> bool {
    (e: AuditEntry) => linkId.None? || e.shareLinkId == linkId.value
  }

  /** GetShareLinkAuditLogsAsync: the newest `limit` records (100 by
      default), optionally of one link, newest first. */
  function AuditLogs(log: seq<AuditEntry>, linkId: Option<Guid>, limit: int): (r: seq<AuditEntry>)
    ensures |r| == (if limit <= 0 then 0 else Min(limit, |Filter(log, ForLink(linkId))|))
    ensures forall e | e in r :: e in log && (linkId.Some? ==> e.shareLinkId == linkId.value)
    ensures multiset(r) <= multiset(Filter(log, ForLink(linkId)))
    ensures NoNewerLeftOut(r, multiset(Filter(log, ForLink(linkId))))
    ensures SortedBy(r, NewestAuditFirst())
  {
    AuditLogsNewest(log, linkId, limit);
    AuditLogsSorted(log, linkId, limit);
    Take(MatchingByAge(log, linkId), limit)
  }

  /** No record of `pool` left out of `r` is newer than a record of `r`. */
  predicate NoNewerLeftOut(r: seq<AuditEntry>, pool: multiset<AuditEntry>) {
    forall e, f | e in r && f in pool - multiset(r) :: e.performedAt >= f.performedAt
  }

  lemma AuditLogsNewest(log: seq<AuditEntry>, linkId: Option<Guid>, limit: int)
    ensures multiset(Take(MatchingByAge(log, linkId), limit)) <= multiset(Filter(log, ForLink(linkId)))
    ensures NoNewerLeftOut(Take(MatchingByAge(log, linkId), limit), multiset(Filter(log, ForLink(linkId))))
  {
    var m := MatchingByAge(log, linkId);
    var r := Take(m, limit);
    var pool := multiset(Filter(log, ForLink(linkId)));
    TakeComesFirst(m, limit, NewestAuditFirst());
    assert multiset(m) == pool;
    forall e, f | e in r && f in pool - multiset(r) ensures e.performedAt >= f.performedAt {
      assert NewestAuditFirst()(e, f);
    }
  }

  lemma AuditLogsSorted(log: seq<AuditEntry>, linkId: Option<Guid>, limit: int)
    ensures SortedBy(Take(MatchingByAge(log, linkId), limit), NewestAuditFirst())
  {
    var m := MatchingByAge(log, linkId);
    var r := Take(m, limit);
    forall i, j | 0 <= i < j < |r| ensures NewestAuditFirst()(r[i], r[j]) {
      assert r[i] == m[i] && r[j] == m[j];
    }
  }

  /** OrderByDescending(PerformedAt) then Where(link): the matching records, newest first. */
  function MatchingByAge(log: seq<AuditEntry>, linkId: Option<Guid>): (r: seq<AuditEntry>)
    ensures multiset(r) == multiset(Filter(log, ForLink(linkId)))
    ensures |r| == |Filter(log, ForLink(linkId))|
    ensures forall e | e in r :: e in log && (linkId.Some? ==> e.shareLinkId == linkId.value)
    ensures SortedBy(r, NewestAuditFirst())
  {
    assert TotalPreorder(NewestAuditFirst());
    var sorted := SortBy(log, NewestAuditFirst());
    var r := Filter(sorted, ForLink(linkId));
    FilterSorted(sorted, ForLink(linkId), NewestAuditFirst());
    forall e | e in r ensures e in log {
      SortByMembers(log, NewestAuditFirst(), e);
    }
    FilterPermuted(log, sorted, ForLink(linkId));
    FilterPermutedMultiset(sorted, log, ForLink(linkId));
    r
  }
}

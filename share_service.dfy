/** The owner-facing share-link services for assets and for collections:
    creating a link, opening it, counting a download, revoking it, listing
    the live links, and downloading one asset through a collection link.
    The two services differ only where `kind` says so. */
module ShareService {
  import opened Wrappers
  import opened Base
  import opened ShareRules
  import opened ShareLinks

  const AssetNotFoundMessage: string := "Asset not found"
  const CollectionNotFoundMessage: string := "Collection not found"
  const ShareAssetDeniedMessage: string := "You don't have permission to share this asset"
  const ShareCollectionDeniedMessage: string := "You don't have permission to share this collection"
  const ExpiredMessage: string := "This share link has expired."
  const LimitReachedMessage: string := "This share link has reached its download limit."
  const RevokeDeniedMessage: string := "You don't have permission to revoke this share link"
  const ViewAssetLinksDeniedMessage: string := "You don't have permission to view share links for this asset"
  const ViewCollectionLinksDeniedMessage: string := "You don't have permission to view share links for this collection"
  const InvalidLinkMessage: string := "This share link has expired or is invalid."
  const DownloadsDisabledMessage: string := "Downloads are disabled for this shared collection."
  const FileMissingMessage: string := "Asset file not found on server."

  function NotFoundMessage(kind: LinkKind): string {
    if kind == AssetLink then AssetNotFoundMessage else CollectionNotFoundMessage
  }

  function ShareDeniedMessage(kind: LinkKind): string {
    if kind == AssetLink then ShareAssetDeniedMessage else ShareCollectionDeniedMessage
  }

  /** A link that may still be downloaded from: only asset links carry a limit,
      and the collection services never look at it. */
  predicate UnderLimit(kind: LinkKind, l: ShareLink) {
    kind == CollectionLink || l.downloadLimit.None? || l.downloadCount < l.downloadLimit.value
  }

  /** CreateShareLinkAsync. `ownerOf` is the owning user of an asset or
      collection (None when it does not exist); `id` and `base64` stand for
      the fresh Guid and the Base64 text of 32 random bytes. The checks run
      in the source's order: existence, ownership, then the expiry rules. */
  method CreateShareLink(store: ShareLinkStore, kind: LinkKind, target: Guid,
                         ownerOf: Guid -> Option<string>, userId: string,
                         custom: Option<Ticks>, hours: Option<int>,
                         allowDownload: bool, downloadLimit: Option<int>,
                         now: Ticks, yearLater: Ticks, id: Guid, base64: string)
    returns (r: Result<ShareLink>)
    modifies store
    ensures ownerOf(target).None? ==> r == Err(NotFoundMessage(kind))
    ensures ownerOf(target).Some? && ownerOf(target).value != userId ==> r == Err(ShareDeniedMessage(kind))
    ensures ownerOf(target) == Some(userId) && ExpiresAt(custom, hours, now, yearLater).Err? ==>
      r == Err(ExpiresAt(custom, hours, now, yearLater).message)
    ensures r.Ok? <==> ownerOf(target) == Some(userId) && ExpiresAt(custom, hours, now, yearLater).Ok?
    ensures r.Ok? ==>
      r.value.target == target && r.value.token == SecureToken(base64) &&
      r.value.expiresAt == ExpiresAt(custom, hours, now, yearLater).value &&
      Live(r.value, now) && r.value.downloadCount == 0 && r.value.revokedAt.None? &&
      r.value.allowDownload == allowDownload && r.value.createdBy == userId && r.value.createdAt == now &&
      r.value.downloadLimit == (if kind == AssetLink then downloadLimit else None)
    ensures r.Ok? ==> store.Links(kind) == old(store.Links(kind)) + [r.value]
    ensures r.Err? ==> store.Links(kind) == old(store.Links(kind))
    ensures forall k | k != kind :: store.Links(k) == old(store.Links(k))
    ensures store.auditLog == old(store.auditLog)
  {
    var owner := ownerOf(target);
    if owner.None? {
      return Err(NotFoundMessage(kind));
    }
    if owner.value != userId {
      return Err(ShareDeniedMessage(kind));
    }
    var expiry := ExpiresAt(custom, hours, now, yearLater);
    if expiry.Err? {
      return Err(expiry.message);
    }
    ExpiryAhead(custom, hours, now, yearLater);
    var link := ShareLink(id, target, SecureToken(base64), allowDownload, expiry.value, true,
                          if kind == AssetLink then downloadLimit else None, 0, userId, now, None);
    store.Store(kind, store.Links(kind) + [link]);
    r := Ok(link);
  }

  /** GetSharedAssetAsync / GetSharedCollectionAsync: an unknown token gives
      nothing; a revoked or expired link, and an asset link whose downloads
      have reached the limit, are refused. */
  function SharedView(links: seq<ShareLink>, kind: LinkKind, token: string, now: Ticks): (r: Result<Option<ShareLink>>)
    ensures r == Ok(None) <==> forall l | l in links :: l.token != token
    ensures r.Ok? && r.value.Some? ==>
      r.value.value in links && r.value.value.token == token &&
      Live(r.value.value, now) && UnderLimit(kind, r.value.value)
    ensures r.Err? ==> r.message in {ExpiredMessage, LimitReachedMessage}
    ensures r == Err(LimitReachedMessage) ==> kind == AssetLink
  {
    var i := TokenIndex(links, token);
    if i < 0 then Ok(None)
    else if !Live(links[i], now) then Err(ExpiredMessage)
    else if !UnderLimit(kind, links[i]) then Err(LimitReachedMessage)
    else Ok(Some(links[i]))
  }

  /** The table after IncrementDownloadCountAsync: the link with the token,
      if it is live and (for assets) under its limit, counts one more. */
  function Counted(links: seq<ShareLink>, kind: LinkKind, token: string, now: Ticks): seq<ShareLink> {
    var i := TokenIndex(links, token);
    if i >= 0 && Live(links[i], now) && UnderLimit(kind, links[i]) then
      links[i := links[i].(downloadCount := links[i].downloadCount + 1)]
    else links
  }

  /** IncrementDownloadCountAsync. */
  method IncrementDownloadCount(store: ShareLinkStore, kind: LinkKind, token: string, now: Ticks)
    modifies store
    ensures store.Links(kind) == Counted(old(store.Links(kind)), kind, token, now)
    ensures forall k | k != kind :: store.Links(k) == old(store.Links(k))
    ensures store.auditLog == old(store.auditLog)
  {
    var links := store.Links(kind);
    var i := TokenIndex(links, token);
    if i >= 0 && Live(links[i], now) {
      if kind == CollectionLink || links[i].downloadLimit.None? || links[i].downloadCount < links[i].downloadLimit.value {
        var link := links[i].(downloadCount := links[i].downloadCount + 1);
        store.Store(kind, links[i := link]);
      }
    }
  }

  /** A count changes only on the link with the token, and by exactly one. */
  lemma CountedChangesOne(links: seq<ShareLink>, kind: LinkKind, token: string, now: Ticks)
    ensures |Counted(links, kind, token, now)| == |links|
    ensures forall j | 0 <= j < |links| ::
      var c := Counted(links, kind, token, now)[j];
      c == links[j] || (links[j].token == token && c == links[j].(downloadCount := links[j].downloadCount + 1))
    ensures Counted(links, kind, token, now) != links <==>
      exists j | 0 <= j < |links| :: links[j].token == token &&
        (forall m | 0 <= m < j :: links[m].token != token) &&
        Live(links[j], now) && UnderLimit(kind, links[j])
  {
    var i := TokenIndex(links, token);
    if i >= 0 && Live(links[i], now) && UnderLimit(kind, links[i]) {
      assert Counted(links, kind, token, now)[i] != links[i];
    }
  }

  /** Counting never pushes an asset link past its download limit. */
  lemma CountedWithinLimit(links: seq<ShareLink>, kind: LinkKind, token: string, now: Ticks)
    requires kind == AssetLink
    requires forall j | 0 <= j < |links| :: WithinLimit(links[j])
    ensures forall j | 0 <= j < |links| :: WithinLimit(Counted(links, kind, token, now)[j])
  {
  }

  /** RevokeShareLinkAsync: false for an unknown id; only the owner of the
      asset or collection may revoke; the link becomes inactive, revoked at `now`. */
  method RevokeShareLink(store: ShareLinkStore, kind: LinkKind, linkId: Guid,
                         ownerOf: Guid -> Option<string>, userId: string, now: Ticks)
    returns (r: Result<bool>)
    modifies store
    ensures var i := IdIndex(old(store.Links(kind)), linkId);
      (i < 0 ==> r == Ok(false) && store.Links(kind) == old(store.Links(kind))) &&
      (i >= 0 && ownerOf(old(store.Links(kind))[i].target) != Some(userId) ==>
        r == Err(RevokeDeniedMessage) && store.Links(kind) == old(store.Links(kind))) &&
      (i >= 0 && ownerOf(old(store.Links(kind))[i].target) == Some(userId) ==>
        r == Ok(true) &&
        store.Links(kind) == old(store.Links(kind))[i := old(store.Links(kind))[i].(isActive := false, revokedAt := Some(now))])
    ensures forall k | k != kind :: store.Links(k) == old(store.Links(k))
    ensures store.auditLog == old(store.auditLog)
  {
    var links := store.Links(kind);
    var i := IdIndex(links, linkId);
    if i < 0 {
      return Ok(false);
    }
    if ownerOf(links[i].target) != Some(userId) {
      return Err(RevokeDeniedMessage);
    }
    var link := links[i].(isActive := false, revokedAt := Some(now));
    store.Store(kind, links[i := link]);
    r := Ok(true);
  }

  /** Tokens are unique (the unique index on Token). */
  ghost predicate UniqueTokens(links: seq<ShareLink>) {
    forall i, j | 0 <= i < j < |links| :: links[i].token != links[j].token
  }

  /** Once revoked, a link's token is refused from then on. */
  lemma RevokedRefused(links: seq<ShareLink>, i: nat, kind: LinkKind, now: Ticks, later: Ticks)
    requires i < |links| && UniqueTokens(links)
    ensures SharedView(links[i := links[i].(isActive := false, revokedAt := Some(now))], kind, links[i].token, later)
      == Err(ExpiredMessage)
  {
    var after := links[i := links[i].(isActive := false, revokedAt := Some(now))];
    var k := TokenIndex(after, links[i].token);
    assert after[i].token == links[i].token;
    assert k == i;
  }

  /** GetActiveShareLinksAsync: only the owner may list, and gets the live
      links of the asset or collection, newest first. */
  function ActiveShareLinks(links: seq<ShareLink>, kind: LinkKind, target: Guid,
                            ownerOf: Guid -> Option<string>, userId: string, now: Ticks)
    : (r: Result<seq<ShareLink>>)
    ensures r.Ok? <==> ownerOf(target) == Some(userId)
    ensures r.Err? ==> r.message == (if kind == AssetLink then ViewAssetLinksDeniedMessage else ViewCollectionLinksDeniedMessage)
    ensures r.Ok? ==> forall l :: l in r.value <==> l in links && l.target == target && Live(l, now)
  {
    if ownerOf(target) != Some(userId) then
      Err(if kind == AssetLink then ViewAssetLinksDeniedMessage else ViewCollectionLinksDeniedMessage)
    else Ok(ActiveLinks(links, target, now))
  }

  /** DownloadAssetFromSharedCollectionAsync: the link must be live and allow
      downloads; an asset outside the collection gives nothing. The count is
      raised and saved before the file is looked for, so a missing file still
      counts. `membersOf` gives a collection's asset ids and `fileExists` the
      storage check; the result is the id of the asset to stream. */
  method DownloadFromSharedCollection(store: ShareLinkStore, token: string, assetId: Guid, now: Ticks,
                                      membersOf: Guid -> seq<Guid>, fileExists: Guid -> bool)
    returns (r: Result<Option<Guid>>)
    modifies store
    ensures var links := old(store.collectionLinks);
      var i := TokenIndex(links, token);
      (i < 0 || !Live(links[i], now) ==> r == Err(InvalidLinkMessage) && store.collectionLinks == links) &&
      (i >= 0 && Live(links[i], now) && !links[i].allowDownload ==>
        r == Err(DownloadsDisabledMessage) && store.collectionLinks == links) &&
      (i >= 0 && Live(links[i], now) && links[i].allowDownload && assetId !in membersOf(links[i].target) ==>
        r == Ok(None) && store.collectionLinks == links) &&
      (i >= 0 && Live(links[i], now) && links[i].allowDownload && assetId in membersOf(links[i].target) ==>
        store.collectionLinks == links[i := links[i].(downloadCount := links[i].downloadCount + 1)] &&
        r == (if fileExists(assetId) then Ok(Some(assetId)) else Err(FileMissingMessage)))
    ensures store.assetLinks == old(store.assetLinks)
    ensures store.auditLog == old(store.auditLog)
  {
    var links := store.collectionLinks;
    var i := TokenIndex(links, token);
    if i < 0 || !Live(links[i], now) {
      return Err(InvalidLinkMessage);
    }
    if !links[i].allowDownload {
      return Err(DownloadsDisabledMessage);
    }
    if assetId !in membersOf(links[i].target) {
      return Ok(None);
    }
    var link := links[i].(downloadCount := links[i].downloadCount + 1);
    store.Store(CollectionLink, links[i := link]);
    if !fileExists(assetId) {
      return Err(FileMissingMessage);
    }
    r := Ok(Some(assetId));
  }
}

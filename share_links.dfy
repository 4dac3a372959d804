/** The two share-link tables (asset links and collection links) and the audit
    log of administrator actions on them, with the repository operations:
    lookup by token, the live links of one asset or collection, and the sweep
    that revokes lapsed links. */
module ShareLinks {
  import opened Wrappers
  import opened Base
  import opened Seqs
  import opened Sorting

  datatype LinkKind = AssetLink | CollectionLink

  /** AssetShareLink and CollectionShareLink: `target` is the AssetId or the
      CollectionId. Collection links have no download limit (always None). */
  datatype ShareLink = ShareLink(
    id: Guid,
    target: Guid,
    token: string,
    allowDownload: bool,
    expiresAt: Ticks,
    isActive: bool,
    downloadLimit: Option<int>,
    downloadCount: int,
    createdBy: string,
    createdAt: Ticks,
    revokedAt: Option<Ticks>)

  /** What an administrator changed on a link. */
  datatype Change = ExpiryChanged(oldExpiry: Ticks, newExpiry: Ticks) | LimitChanged(oldLimit: Option<int>, newLimit: int)

  /** The Details of an audit record: the token of a deleted link, or the list
      of changes of an update (their text rendering is not modelled). */
  datatype AuditDetails = RemovedLink(removedToken: string) | ChangedFields(changes: seq<Change>)

  /** ShareLinkAuditLog. */
  datatype AuditEntry = AuditEntry(
    id: Guid,
    shareLinkId: Guid,
    shareLinkType: string,
    action: string,
    performedBy: string,
    performedByName: string,
    performedAt: Ticks,
    details: AuditDetails,
    ipAddress: Option<string>)

  /** Active and not yet expired at `now`. */
  predicate Live(l: ShareLink, now: Ticks) {
    l.isActive && l.expiresAt > now
  }

  /** Still active although expired: what the sweep revokes. */
  predicate Lapsed(l: ShareLink, now: Ticks) {
    l.isActive && l.expiresAt <= now
  }

  /** A count that has not passed its limit. */
  predicate WithinLimit(l: ShareLink) {
    l.downloadLimit.None? || l.downloadCount <= l.downloadLimit.value
  }

  function TokenIs(token: string): ShareLink -> bool {
    (l: ShareLink) => l.token == token
  }

  function IdIs(id: Guid): ShareLink -> bool {
    (l: ShareLink) => l.id == id
  }

  /** GetByTokenAsync: the position of the first link with the token, or -1.
      Tokens are unique in the schema, so at most one link matches. */
  function TokenIndex(links: seq<ShareLink>, token: string): (i: int)
    ensures -1 <= i < |links|
    ensures i >= 0 ==> links[i].token == token
    ensures i == -1 <==> forall j | 0 <= j < |links| :: links[j].token != token
  {
    FirstIndex(links, TokenIs(token))
  }

  /** GetByIdAsync: the position of the link with the id, or -1. */
  function IdIndex(links: seq<ShareLink>, id: Guid): (i: int)
    ensures -1 <= i < |links|
    ensures i >= 0 ==> links[i].id == id
    ensures i == -1 <==> forall j | 0 <= j < |links| :: links[j].id != id
  {
    FirstIndex(links, IdIs(id))
  }

  // ------------------------------------------------------------ live links

  function LiveFor(target: Guid, now: Ticks): ShareLink -> bool {
    (l: ShareLink) => l.target == target && Live(l, now)
  }

  /** OrderByDescending(CreatedAt). */
  function NewestFirst(): (ShareLink, ShareLink) -> bool {
    (x: ShareLink, y: ShareLink) => x.createdAt >= y.createdAt
  }

  lemma NewestFirstOrders()
    ensures TotalPreorder(NewestFirst())
  {
  }

  /** GetActiveShareLinksAsync: the live links of one asset or collection,
      newest first. */
  function ActiveLinks(links: seq<ShareLink>, target: Guid, now: Ticks): (r: seq<ShareLink>)
    ensures forall l :: l in r <==> l in links && l.target == target && Live(l, now)
    ensures forall i, j | 0 <= i < j < |r| :: r[i].createdAt >= r[j].createdAt
  {
    NewestFirstOrders();
    var live := Filter(links, LiveFor(target, now));
    var r := SortBy(live, NewestFirst());
    forall l ensures l in r <==> l in live {
      SortByMembers(live, NewestFirst(), l);
    }
    r
  }

  // ------------------------------------------------------------ revocation

  /** A lapsed link after the sweep: inactive, revoked at `now`. */
  function Revoked(l: ShareLink, now: Ticks): ShareLink {
    if Lapsed(l, now) then l.(isActive := false, revokedAt := Some(now)) else l
  }

  /** The table after RevokeExpiredLinksAsync. */
  function RevokedAll(links: seq<ShareLink>, now: Ticks): (r: seq<ShareLink>)
    ensures |r| == |links|
    ensures forall i | 0 <= i < |r| :: !Lapsed(r[i], now)
    ensures forall i | 0 <= i < |r| :: Lapsed(links[i], now) ==>
      r[i] == links[i].(isActive := false, revokedAt := Some(now))
    ensures forall i | 0 <= i < |r| :: !Lapsed(links[i], now) ==> r[i] == links[i]
  {
    seq(|links|, i requires 0 <= i < |links| => Revoked(links[i], now))
  }

  function LapsedAt(now: Ticks): ShareLink -> bool {
    (l: ShareLink) => Lapsed(l, now)
  }

  /** The number of rows a sweep writes. */
  function LapsedCount(links: seq<ShareLink>, now: Ticks): nat {
    |Filter(links, LapsedAt(now))|
  }

  /** A second sweep at the same instant changes nothing and writes no row. */
  lemma RevokeIdempotent(links: seq<ShareLink>, now: Ticks)
    ensures RevokedAll(RevokedAll(links, now), now) == RevokedAll(links, now)
    ensures LapsedCount(RevokedAll(links, now), now) == 0
  {
    FilterNone(RevokedAll(links, now), LapsedAt(now));
  }

  /** The first `i` rows of `updated` have been swept, the rest are untouched,
      and `count` rows were written. */
  ghost predicate SweptUpTo(updated: seq<ShareLink>, links: seq<ShareLink>, i: nat, count: nat, now: Ticks)
    requires i <= |links|
  {
    |updated| == |links| &&
    (forall j | 0 <= j < i :: updated[j] == Revoked(links[j], now)) &&
    (forall j | i <= j < |links| :: updated[j] == links[j]) &&
    count == |Filter(links[..i], LapsedAt(now))|
  }

  lemma SweepStep(updated: seq<ShareLink>, links: seq<ShareLink>, i: nat, count: nat, now: Ticks)
    requires i < |links| && SweptUpTo(updated, links, i, count, now)
    ensures SweptUpTo(updated[i := Revoked(links[i], now)], links, i + 1,
      if Lapsed(links[i], now) then count + 1 else count, now)
  {
    var u := updated[i := Revoked(links[i], now)];
    assert forall j | 0 <= j < i + 1 :: u[j] == Revoked(links[j], now) by {
      forall j | 0 <= j < i + 1 ensures u[j] == Revoked(links[j], now) {
        if j < i {
          assert u[j] == updated[j];
        }
      }
    }
    assert forall j | i + 1 <= j < |links| :: u[j] == links[j];
    CountStep(links, i, now);
  }

  lemma CountStep(links: seq<ShareLink>, i: nat, now: Ticks)
    requires i < |links|
    ensures |Filter(links[..i + 1], LapsedAt(now))| ==
      |Filter(links[..i], LapsedAt(now))| + (if Lapsed(links[i], now) then 1 else 0)
  {
    TakeSnoc(links, i);
    FilterAppend(links[..i], [links[i]], LapsedAt(now));
  }

  lemma SweepDone(updated: seq<ShareLink>, links: seq<ShareLink>, count: nat, now: Ticks)
    requires SweptUpTo(updated, links, |links|, count, now)
    ensures updated == RevokedAll(links, now) && count == LapsedCount(links, now)
  {
    TakeAll(links);
  }

  // ------------------------------------------------------------ the tables

  class ShareLinkStore {
    var assetLinks: seq<ShareLink>
    var collectionLinks: seq<ShareLink>
    var auditLog: seq<AuditEntry>

    constructor ()
      ensures assetLinks == [] && collectionLinks == [] && auditLog == []
    {
      assetLinks := [];
      collectionLinks := [];
      auditLog := [];
    }

    function Links(kind: LinkKind): seq<ShareLink>
      reads this
    {
      if kind == AssetLink then assetLinks else collectionLinks
    }

    /** Writes one table back; the other table and the log keep their rows. */
    method Store(kind: LinkKind, links: seq<ShareLink>)
      modifies this
      ensures Links(kind) == links
      ensures forall k | k != kind :: Links(k) == old(Links(k))
      ensures kind == AssetLink ==> collectionLinks == old(collectionLinks)
      ensures kind == CollectionLink ==> assetLinks == old(assetLinks)
      ensures auditLog == old(auditLog)
    {
      if kind == AssetLink {
        assetLinks := links;
      } else {
        collectionLinks := links;
      }
    }

    /** RevokeExpiredLinksAsync: every active link whose expiry is not after
        `now` becomes inactive with RevokedAt = now; the result is the number
        of rows written. */
    method RevokeExpiredLinks(kind: LinkKind, now: Ticks) returns (count: nat)
      modifies this
      ensures Links(kind) == RevokedAll(old(Links(kind)), now)
      ensures count == LapsedCount(old(Links(kind)), now)
      ensures forall k | k != kind :: Links(k) == old(Links(k))
      ensures auditLog == old(auditLog)
    {
      var links := Links(kind);
      var updated := links;
      count := 0;
      for i := 0 to |links|
        invariant SweptUpTo(updated, links, i, count, now)
        invariant unchanged(this)
      {
        SweepStep(updated, links, i, count, now);
        if Lapsed(links[i], now) {
          updated := updated[i := links[i].(isActive := false, revokedAt := Some(now))];
          count := count + 1;
        }
      }
      SweepDone(updated, links, count, now);
      Store(kind, updated);
    }
  }
}

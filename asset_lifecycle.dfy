/** AssetService's writes to stored assets: setting or removing one user
    metadata key on a batch of assets, the recycle bin's soft delete and
    restore (one asset or a batch) with the folder AssetCount recount that
    follows them, and the purge of assets deleted more than 30 days before.
    The JSON (de)serialisation of the metadata blob is a pair of
    parameters; the clock is the parameter `now`; the physical file
    deletions are left out, and a purge step whose file deletion throws is
    modelled by the set of asset ids that fail. */
module AssetLifecycle {
  import opened Wrappers
  import opened Base
  import opened Seqs
  import opened IdChecks
  import opened Assets
  import SearchExecutor

  /** The recycle bin keeps a deleted asset for this many days. */
  const RetentionDays: int := 30

  /** The reach of every write query: the caller's own assets and, when
      the caller has a company, every asset of that company. */
  predicate Reachable(a: Asset, userId: string, companyId: Option<Guid>) {
    a.userId == userId || (companyId.Some? && a.companyId == Some(companyId.value))
  }

  /** `assetIds.Contains(a.Id)` within the caller's reach. */
  function Targeted(assetIds: seq<Guid>, userId: string, companyId: Option<Guid>): Asset -> bool {
    (a: Asset) => a.id in assetIds && Reachable(a, userId, companyId)
  }

  /** The same, restricted to assets in the recycle bin (the restore queries). */
  function TargetedDeleted(assetIds: seq<Guid>, userId: string, companyId: Option<Guid>): Asset -> bool {
    (a: Asset) => a.id in assetIds && a.isDeleted && Reachable(a, userId, companyId)
  }

  /** Rewrites each targeted asset with `f` and leaves the others, in a
      foreach over the rows; returns how many it rewrote. */
  method UpdateEach(rows: seq<Asset>, targeted: Asset -> bool, f: Asset -> Asset)
    returns (updated: seq<Asset>, count: nat)
    ensures |updated| == |rows|
    ensures forall i | 0 <= i < |rows| :: updated[i] == if targeted(rows[i]) then f(rows[i]) else rows[i]
    ensures count == |Filter(rows, targeted)|
  {
    updated := rows;
    count := 0;
    var i := 0;
    while i < |rows|
      invariant 0 <= i <= |rows| && |updated| == |rows|
      invariant forall j | 0 <= j < i :: updated[j] == if targeted(rows[j]) then f(rows[j]) else rows[j]
      invariant forall j | i <= j < |rows| :: updated[j] == rows[j]
      invariant count == |Filter(rows[..i], targeted)|
    {
      TakeSnoc(rows, i);
      assert rows[..i + 1][..i] == rows[..i];
      if targeted(rows[i]) {
        updated := updated[i := f(rows[i])];
        count := count + 1;
      }
      i := i + 1;
    }
    TakeAll(rows);
  }

  // ---------------------------------------------------------------
  // UpdateAssetsMetadataAsync
  // ---------------------------------------------------------------

  /** The Dictionary<string, string> a metadata blob holds. */
  type Metadata = map<string, string>

  /** The dictionary the loop starts from: empty for a null or empty blob
      and for one that does not deserialise (or deserialises to null). */
  function StoredMetadata(blob: Option<string>, parse: string -> Option<Metadata>): (m: Metadata)
    ensures blob.None? || blob == Some("") ==> m == map[]
  {
    if blob.None? || blob.value == "" then map[] else parse(blob.value).GetOr(map[])
  }

  /** `string.IsNullOrEmpty(value)`: the call removes the key. */
  predicate Clears(value: Option<string>) {
    value.None? || value.value == ""
  }

  /** The key edit: a null or empty value removes the key, any other value
      sets it; no other entry changes. */
  function EditedMetadata(m: Metadata, key: string, value: Option<string>): (r: Metadata)
    ensures Clears(value) ==> key !in r
    ensures !Clears(value) ==> key in r && r[key] == value.value
    ensures forall k | k in m && k != key :: k in r && r[k] == m[k]
    ensures forall k | k in r && k != key :: k in m
  {
    if Clears(value) then m - {key} else m[key := value.value]
  }

  /** Editing the same key twice leaves only the second edit. */
  lemma LastEditWins(m: Metadata, key: string, first: Option<string>, second: Option<string>)
    ensures EditedMetadata(EditedMetadata(m, key, first), key, second) == EditedMetadata(m, key, second)
  {
    var a := EditedMetadata(EditedMetadata(m, key, first), key, second);
    var b := EditedMetadata(m, key, second);
    assert forall k :: k in a <==> k in b;
  }

  /** Clearing a key that was not there before setting it gives back the
      original dictionary. */
  lemma ClearUndoesSet(m: Metadata, key: string, v: string)
    requires key !in m && v != ""
    ensures EditedMetadata(EditedMetadata(m, key, Some(v)), key, None) == m
  {
    var a := EditedMetadata(EditedMetadata(m, key, Some(v)), key, None);
    assert forall k :: k in a <==> k in m;
  }

  /** One asset after the loop body: the edited dictionary serialised back
      into UserMetadata, and UpdatedAt stamped. */
  function MetadataUpdated(a: Asset, key: string, value: Option<string>,
                           parse: string -> Option<Metadata>, serialize: Metadata -> string, now: Ticks): (r: Asset)
    ensures r == a.(userMetadata := r.userMetadata, updatedAt := now)
    ensures r.userMetadata == Some(serialize(EditedMetadata(StoredMetadata(a.userMetadata, parse), key, value)))
  {
    var m := EditedMetadata(StoredMetadata(a.userMetadata, parse), key, value);
    a.(userMetadata := Some(serialize(m)), updatedAt := now)
  }

  /** System.Text.Json's round trip for a string dictionary: the text is
      never empty and reads back as the dictionary written. */
  ghost predicate RoundTrips(parse: string -> Option<Metadata>, serialize: Metadata -> string) {
    forall m: Metadata :: serialize(m) != "" && parse(serialize(m)) == Some(m)
  }

  /** When the serialiser round-trips, the blob written reads back as the
      edited dictionary: the key holds the value, or is gone, and every
      other key keeps its value. */
  lemma MetadataReadsBack(a: Asset, key: string, value: Option<string>,
                          parse: string -> Option<Metadata>, serialize: Metadata -> string, now: Ticks)
    requires RoundTrips(parse, serialize)
    ensures StoredMetadata(MetadataUpdated(a, key, value, parse, serialize, now).userMetadata, parse) ==
      EditedMetadata(StoredMetadata(a.userMetadata, parse), key, value)
  {
    var m := EditedMetadata(StoredMetadata(a.userMetadata, parse), key, value);
    assert serialize(m) != "" && parse(serialize(m)) == Some(m);
  }

  /** Repeating the same update at the same instant changes nothing more. */
  lemma MetadataUpdateIdempotent(a: Asset, key: string, value: Option<string>,
                                 parse: string -> Option<Metadata>, serialize: Metadata -> string, now: Ticks)
    requires RoundTrips(parse, serialize)
    ensures var once := MetadataUpdated(a, key, value, parse, serialize, now);
      MetadataUpdated(once, key, value, parse, serialize, now) == once
  {
    var m := StoredMetadata(a.userMetadata, parse);
    MetadataReadsBack(a, key, value, parse, serialize, now);
    LastEditWins(m, key, value, value);
  }

  // ---------------------------------------------------------------
  // Soft delete, restore and the folder recount
  // ---------------------------------------------------------------

  /** `a.FolderId == folderId && !a.IsDeleted`: what a folder's AssetCount counts. */
  function LiveIn(folderId: Guid): Asset -> bool {
    (a: Asset) => a.folderId == Some(folderId) && !a.isDeleted
  }

  function LiveCount(assets: seq<Asset>, folderId: Guid): nat {
    |Filter(assets, LiveIn(folderId))|
  }

  /** The folders the changed assets sit in. */
  function FoldersOf(changed: seq<Asset>): set<Guid> {
    set a | a in changed && a.folderId.Some? :: a.folderId.value
  }

  /** Every existing folder among `folders` gets its count recomputed over
      the new rows; the other folders keep theirs. */
  function Recounted(counts: map<Guid, int>, assets: seq<Asset>, folders: set<Guid>): (r: map<Guid, int>)
    ensures r.Keys == counts.Keys
    ensures forall f | f in r :: r[f] == if f in folders then LiveCount(assets, f) else counts[f]
  {
    map f | f in counts :: if f in folders then LiveCount(assets, f) else counts[f]
  }

  /** `IsDeleted = true; DeletedAt = now`: the search no longer sees it. */
  function SoftDeleted(a: Asset, now: Ticks): (r: Asset)
    ensures r.isDeleted && r.deletedAt == Some(now)
    ensures forall companyId, folderId :: !SearchExecutor.InScope(r, companyId, folderId)
  {
    a.(isDeleted := true, deletedAt := Some(now))
  }

  /** `IsDeleted = false; DeletedAt = null`. */
  function Restored(a: Asset): (r: Asset)
    ensures !r.isDeleted && r.deletedAt.None?
  {
    a.(isDeleted := false, deletedAt := None)
  }

  /** Restoring a soft-deleted asset gives back the live asset it was. */
  lemma RestoreUndoesDelete(a: Asset, now: Ticks)
    requires !a.isDeleted && a.deletedAt.None?
    ensures Restored(SoftDeleted(a, now)) == a
  {
  }

  /** The row DeleteAssetAsync finds: the asset with that id within reach. */
  function DeleteTarget(assets: seq<Asset>, assetId: Guid, userId: string, companyId: Option<Guid>): int {
    FirstIndex(assets, Targeted([assetId], userId, companyId))
  }

  /** The row RestoreAssetAsync finds: the same, and it must be in the bin. */
  function RestoreTarget(assets: seq<Asset>, assetId: Guid, userId: string, companyId: Option<Guid>): int {
    FirstIndex(assets, TargetedDeleted([assetId], userId, companyId))
  }

  /** Replacing one row changes a count by what the old row and the new row
      contribute. */
  lemma CountReplaced(s: seq<Asset>, k: nat, x: Asset, p: Asset -> bool)
    requires k < |s|
    ensures |Filter(s[k := x], p)| == |Filter(s, p)| - (if p(s[k]) then 1 else 0) + (if p(x) then 1 else 0)
  {
    var t := s[k := x];
    assert s == s[..k] + [s[k]] + s[k + 1..];
    assert t == s[..k] + [x] + s[k + 1..];
    FilterAppend(s[..k] + [s[k]], s[k + 1..], p);
    FilterAppend(s[..k], [s[k]], p);
    FilterAppend(s[..k] + [x], s[k + 1..], p);
    FilterAppend(s[..k], [x], p);
    assert Filter([s[k]], p) == (if p(s[k]) then [s[k]] else []) by {
      assert [s[k]][..0] == [];
    }
    assert Filter([x], p) == (if p(x) then [x] else []) by {
      assert [x][..0] == [];
    }
  }

  /** A soft delete takes one asset out of its folder's count, and a
      restore puts it back; no other folder's count moves. */
  lemma SoftDeleteCount(assets: seq<Asset>, k: nat, now: Ticks, folderId: Guid)
    requires k < |assets|
    ensures LiveCount(assets[k := SoftDeleted(assets[k], now)], folderId) ==
      LiveCount(assets, folderId) - (if LiveIn(folderId)(assets[k]) then 1 else 0)
    ensures assets[k].isDeleted && assets[k].folderId == Some(folderId) ==>
      LiveCount(assets[k := Restored(assets[k])], folderId) == LiveCount(assets, folderId) + 1
    ensures assets[k].folderId != Some(folderId) ==>
      LiveCount(assets[k := Restored(assets[k])], folderId) == LiveCount(assets, folderId)
  {
    CountReplaced(assets, k, SoftDeleted(assets[k], now), LiveIn(folderId));
    CountReplaced(assets, k, Restored(assets[k]), LiveIn(folderId));
  }

  /** With unique ids, the asset a delete marked is the one a restore with
      the same arguments finds, and restoring it undoes the delete. */
  lemma RestoreFindsDeleted(assets: seq<Asset>, assetId: Guid, userId: string, companyId: Option<Guid>, now: Ticks)
    requires UniqueKeys(assets, AssetKey())
    requires DeleteTarget(assets, assetId, userId, companyId) >= 0
    ensures var k := DeleteTarget(assets, assetId, userId, companyId);
      var deleted := assets[k := SoftDeleted(assets[k], now)];
      RestoreTarget(deleted, assetId, userId, companyId) == k &&
      (!assets[k].isDeleted && assets[k].deletedAt.None? ==> deleted[k := Restored(deleted[k])] == assets)
  {
    var k := DeleteTarget(assets, assetId, userId, companyId);
    var deleted := assets[k := SoftDeleted(assets[k], now)];
    forall j | 0 <= j < k
      ensures !TargetedDeleted([assetId], userId, companyId)(deleted[j])
    {
      assert AssetKey()(assets[j]) != AssetKey()(assets[k]);
    }
    assert TargetedDeleted([assetId], userId, companyId)(deleted[k]);
  }

  // ---------------------------------------------------------------
  // PermanentlyDeleteExpiredAssetsAsync
  // ---------------------------------------------------------------

  /** `IsDeleted && DeletedAt != null && DeletedAt < now.AddDays(-30)`. */
  predicate Expired(a: Asset, now: Ticks) {
    a.isDeleted && a.deletedAt.Some? && a.deletedAt.value < now - RetentionDays * TicksPerDay
  }

  function ExpiredAt(now: Ticks): Asset -> bool {
    (a: Asset) => Expired(a, now)
  }

  /** What is left after the purge: every row but the expired ones whose
      file deletion did not throw. */
  function Survives(now: Ticks, failed: set<Guid>): Asset -> bool {
    (a: Asset) => !Expired(a, now) || a.id in failed
  }

  /** The cutoff is strict: an asset deleted exactly 30 days before stays,
      one deleted a tick earlier goes. */
  lemma PurgeCutoff(a: Asset, now: Ticks)
    requires a.isDeleted
    ensures a.deletedAt == Some(now - 30 * TicksPerDay) ==> !Expired(a, now)
    ensures a.deletedAt == Some(now - 30 * TicksPerDay - 1) ==> Expired(a, now)
  {
  }

  /** The purge never touches a live asset, so no folder's count changes. */
  lemma PurgeKeepsLiveCounts(assets: seq<Asset>, now: Ticks, failed: set<Guid>, folderId: Guid)
    ensures LiveCount(Filter(assets, Survives(now, failed)), folderId) == LiveCount(assets, folderId)
  {
    FilterFilter(assets, Survives(now, failed), LiveIn(folderId), LiveIn(folderId));
  }

  /** After a purge in which no deletion failed, a second purge at the same
      instant finds nothing. */
  lemma PurgeLeavesNothing(assets: seq<Asset>, now: Ticks)
    ensures Filter(Filter(assets, Survives(now, {})), ExpiredAt(now)) == []
  {
    FilterNone(Filter(assets, Survives(now, {})), ExpiredAt(now));
  }

  /** The asset rows and each folder's stored AssetCount. */
  class AssetStore {
    var assets: seq<Asset>
    var folderCounts: map<Guid, int>

    ghost predicate Valid()
      reads this
    {
      UniqueKeys(assets, AssetKey())
    }

    constructor(assets: seq<Asset>, folderCounts: map<Guid, int>)
      requires UniqueKeys(assets, AssetKey())
      ensures Valid() && this.assets == assets && this.folderCounts == folderCounts
    {
      this.assets := assets;
      this.folderCounts := folderCounts;
    }

    /** UpdateAssetsMetadataAsync: every requested asset within reach gets
        the key edit; the result is how many were edited. */
    method UpdateAssetsMetadata(assetIds: seq<Guid>, userId: string, companyId: Option<Guid>,
                                key: string, value: Option<string>,
                                parse: string -> Option<Metadata>, serialize: Metadata -> string, now: Ticks)
      returns (count: nat)
      requires Valid()
      modifies this
      ensures Valid()
      ensures |assets| == |old(assets)|
      ensures forall i | 0 <= i < |assets| ::
        assets[i] == if Targeted(assetIds, userId, companyId)(old(assets)[i])
                     then MetadataUpdated(old(assets)[i], key, value, parse, serialize, now)
                     else old(assets)[i]
      ensures count == |Filter(old(assets), Targeted(assetIds, userId, companyId))|
      ensures folderCounts == old(folderCounts)
    {
      var rows, n := UpdateEach(assets, Targeted(assetIds, userId, companyId),
                                (a: Asset) => MetadataUpdated(a, key, value, parse, serialize, now));
      assert forall i | 0 <= i < |rows| :: rows[i].id == assets[i].id;
      assets := rows;
      count := n;
    }

    /** DeleteAssetAsync: marks the asset deleted and recounts its folder. */
    method DeleteAsset(assetId: Guid, userId: string, companyId: Option<Guid>, now: Ticks) returns (r: bool)
      requires Valid()
      modifies this
      ensures Valid()
      ensures var k := DeleteTarget(old(assets), assetId, userId, companyId);
        if k < 0 then
          !r && assets == old(assets) && folderCounts == old(folderCounts)
        else
          r && assets == old(assets)[k := SoftDeleted(old(assets)[k], now)] &&
          folderCounts == Recounted(old(folderCounts), assets, FoldersOf([old(assets)[k]]))
    {
      var k := DeleteTarget(assets, assetId, userId, companyId);
      if k < 0 {
        return false;
      }
      var rows := assets[k := SoftDeleted(assets[k], now)];
      assert forall i | 0 <= i < |rows| :: rows[i].id == assets[i].id;
      var counts := Recounted(folderCounts, rows, FoldersOf([assets[k]]));
      assets := rows;
      folderCounts := counts;
      r := true;
    }

    /** RestoreAssetAsync: takes the asset out of the bin and recounts its
        folder. */
    method RestoreAsset(assetId: Guid, userId: string, companyId: Option<Guid>) returns (r: bool)
      requires Valid()
      modifies this
      ensures Valid()
      ensures var k := RestoreTarget(old(assets), assetId, userId, companyId);
        if k < 0 then
          !r && assets == old(assets) && folderCounts == old(folderCounts)
        else
          r && assets == old(assets)[k := Restored(old(assets)[k])] &&
          folderCounts == Recounted(old(folderCounts), assets, FoldersOf([old(assets)[k]]))
    {
      var k := RestoreTarget(assets, assetId, userId, companyId);
      if k < 0 {
        return false;
      }
      var rows := assets[k := Restored(assets[k])];
      assert forall i | 0 <= i < |rows| :: rows[i].id == assets[i].id;
      var counts := Recounted(folderCounts, rows, FoldersOf([assets[k]]));
      assets := rows;
      folderCounts := counts;
      r := true;
    }

    /** DeleteAssetsAsync: false when no requested asset is within reach;
        otherwise every one is marked deleted and their folders recounted. */
    method DeleteAssets(assetIds: seq<Guid>, userId: string, companyId: Option<Guid>, now: Ticks) returns (r: bool)
      requires Valid()
      modifies this
      ensures Valid()
      ensures var chosen := Filter(old(assets), Targeted(assetIds, userId, companyId));
        if chosen == [] then
          !r && assets == old(assets) && folderCounts == old(folderCounts)
        else
          r && |assets| == |old(assets)| &&
          (forall i | 0 <= i < |assets| ::
             assets[i] == if Targeted(assetIds, userId, companyId)(old(assets)[i]) then SoftDeleted(old(assets)[i], now) else old(assets)[i]) &&
          folderCounts == Recounted(old(folderCounts), assets, FoldersOf(chosen))
    {
      var targeted := Targeted(assetIds, userId, companyId);
      var chosen := Filter(assets, targeted);
      if chosen == [] {
        return false;
      }
      var rows, n := UpdateEach(assets, targeted, (a: Asset) => SoftDeleted(a, now));
      assert forall i | 0 <= i < |rows| :: rows[i].id == assets[i].id;
      var counts := Recounted(folderCounts, rows, FoldersOf(chosen));
      assets := rows;
      folderCounts := counts;
      r := true;
    }

    /** RestoreAssetsAsync: false when no requested asset within reach is in
        the bin; otherwise every one is restored and their folders recounted. */
    method RestoreAssets(assetIds: seq<Guid>, userId: string, companyId: Option<Guid>) returns (r: bool)
      requires Valid()
      modifies this
      ensures Valid()
      ensures var chosen := Filter(old(assets), TargetedDeleted(assetIds, userId, companyId));
        if chosen == [] then
          !r && assets == old(assets) && folderCounts == old(folderCounts)
        else
          r && |assets| == |old(assets)| &&
          (forall i | 0 <= i < |assets| ::
             assets[i] == if TargetedDeleted(assetIds, userId, companyId)(old(assets)[i]) then Restored(old(assets)[i]) else old(assets)[i]) &&
          folderCounts == Recounted(old(folderCounts), assets, FoldersOf(chosen))
    {
      var targeted := TargetedDeleted(assetIds, userId, companyId);
      var chosen := Filter(assets, targeted);
      if chosen == [] {
        return false;
      }
      var rows, n := UpdateEach(assets, targeted, (a: Asset) => Restored(a));
      assert forall i | 0 <= i < |rows| :: rows[i].id == assets[i].id;
      var counts := Recounted(folderCounts, rows, FoldersOf(chosen));
      assets := rows;
      folderCounts := counts;
      r := true;
    }

    /** PermanentlyDeleteExpiredAssetsAsync: removes every asset deleted more
        than 30 days before `now`, except those whose file deletion throws
        (`failed`); the result counts every expired asset, removed or not. */
    method PurgeExpired(now: Ticks, failed: set<Guid>) returns (count: nat)
      requires Valid()
      modifies this
      ensures Valid()
      ensures assets == Filter(old(assets), Survives(now, failed))
      ensures count == |Filter(old(assets), ExpiredAt(now))|
      ensures folderCounts == old(folderCounts)
    {
      var expired := Filter(assets, ExpiredAt(now));
      if expired == [] {
        FilterAll(assets, Survives(now, failed));
        return 0;
      }
      var kept := Keep(assets, Survives(now, failed));
      FilterKeepsKeys(assets, AssetKey(), Survives(now, failed));
      assets := kept;
      count := |expired|;
    }
  }
}

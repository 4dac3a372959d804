/** The asset counts the folder listing shows: each folder's own live assets,
    rolled up into every folder above it. */
module FolderCounts {
  import opened Wrappers
  import opened Base
  import opened Seqs
  import opened Sorting
  import opened Folders

  /** The assets counted directly in a folder of the listing: the user's own,
      not deleted, filed in that folder. */
  function CountedIn(userId: string, id: Guid): FolderAsset -> bool {
    (a: FolderAsset) => a.userId == userId && !a.isDeleted && a.folderId == Some(id)
  }

  /** The assets counted by the single-folder view: any user's, not deleted. */
  function LiveIn(id: Guid): FolderAsset -> bool {
    (a: FolderAsset) => !a.isDeleted && a.folderId == Some(id)
  }

  function OwnedByUser(userId: string): FolderAsset -> bool {
    (a: FolderAsset) => a.userId == userId
  }

  function DirectCount(assets: seq<FolderAsset>, userId: string, id: Guid): nat {
    |Filter(assets, CountedIn(userId, id))|
  }

  function FolderAssetCount(assets: seq<FolderAsset>, id: Guid): nat {
    |Filter(assets, LiveIn(id))|
  }

  /** The listing counts only the owner's assets, the single-folder view every
      user's: the first never exceeds the second, and they agree when every
      live asset of the folder is the owner's. */
  lemma DirectWithinFolderCount(assets: seq<FolderAsset>, userId: string, id: Guid)
    ensures DirectCount(assets, userId, id) <= FolderAssetCount(assets, id)
    ensures (forall a | a in assets && LiveIn(id)(a) :: a.userId == userId) ==>
      DirectCount(assets, userId, id) == FolderAssetCount(assets, id)
  {
    FilterFilter(assets, LiveIn(id), OwnedByUser(userId), CountedIn(userId, id));
    if forall a | a in assets && LiveIn(id)(a) :: a.userId == userId {
      FilterAll(Filter(assets, LiveIn(id)), OwnedByUser(userId));
    }
  }

  /** GetFolderByIdAsync: the user's folder with the count of its live assets,
      or None. */
  function FolderById(store: FolderStore, folderId: Guid, userId: string): (r: Option<Folder>)
    reads store
    ensures r.None? <==> forall f | f in store.folders :: !(f.id == folderId && f.userId == userId)
    ensures r.Some? ==>
      (r.value.id == folderId && r.value.userId == userId &&
       r.value.assetCount == FolderAssetCount(store.assets, folderId) &&
       r.value.(assetCount := 0) in Zeroed(store.folders))
  {
    var i := OwnedIndex(store.folders, folderId, userId);
    if i < 0 then None
    else
      assert store.folders[i].(assetCount := 0) == Zeroed(store.folders)[i];
      Some(store.folders[i].(assetCount := FolderAssetCount(store.assets, folderId)))
  }

  /** The rows with their stored counts cleared, for comparing rows whose
      counts were recomputed. */
  function Zeroed(fs: seq<Folder>): (r: seq<Folder>)
    ensures |r| == |fs| && forall k | 0 <= k < |fs| :: r[k] == fs[k].(assetCount := 0)
  {
    seq(|fs|, k requires 0 <= k < |fs| => fs[k].(assetCount := 0))
  }

  function OwnerIs(userId: string): Folder -> bool {
    (f: Folder) => f.userId == userId
  }

  /** OrderBy(Level).ThenBy(Name) under a name order `nameLe`. */
  function LevelThenName(nameLe: (string, string) -> bool): (Folder, Folder) -> bool {
    (x: Folder, y: Folder) => x.level < y.level || (x.level == y.level && nameLe(x.name, y.name))
  }

  lemma LevelThenNameOrders(nameLe: (string, string) -> bool)
    requires TotalPreorder(nameLe)
    ensures TotalPreorder(LevelThenName(nameLe))
  {
    var le := LevelThenName(nameLe);
    forall x: Folder, y: Folder, z: Folder | le(x, y) && le(y, z) ensures le(x, z) {
      if x.level == y.level && y.level == z.level {
        assert nameLe(x.name, y.name) && nameLe(y.name, z.name);
      }
    }
    forall x: Folder, y: Folder ensures le(x, y) || le(y, x) {
      if x.level == y.level {
        assert nameLe(x.name, y.name) || nameLe(y.name, x.name);
      }
    }
  }

  /** OrderByDescending(Level). */
  function LevelDesc(): (Folder, Folder) -> bool {
    (x: Folder, y: Folder) => x.level >= y.level
  }

  lemma LevelDescOrders()
    ensures TotalPreorder(LevelDesc())
  {
  }

  /** The user's folders in listing order. */
  function ListingOrder(folders: seq<Folder>, userId: string, nameLe: (string, string) -> bool): (r: seq<Folder>)
    requires TotalPreorder(nameLe)
    ensures multiset(r) == multiset(Filter(folders, OwnerIs(userId)))
    ensures forall f :: f in r <==> f in folders && f.userId == userId
    ensures SortedBy(r, LevelThenName(nameLe))
  {
    LevelThenNameOrders(nameLe);
    var mine := Filter(folders, OwnerIs(userId));
    var r := SortBy(mine, LevelThenName(nameLe));
    forall f ensures f in r <==> f in mine {
      SortByMembers(mine, LevelThenName(nameLe), f);
    }
    r
  }

  /** Every child sits at a deeper level than its parent. */
  ghost predicate LevelsIncrease(fs: seq<Folder>) {
    forall c, p | c in fs && p in fs && c.parentId == Some(p.id) :: c.level > p.level
  }

  lemma WellLeveledIncreases(fs: seq<Folder>)
    requires WellLeveled(fs)
    ensures LevelsIncrease(fs)
  {
  }

  function ChildCount(g: Guid): Folder -> int {
    (f: Folder) => if f.parentId == Some(g) then f.assetCount else 0
  }

  /** Each listed count is the folder's own assets plus the listed counts of
      its children: the number of the user's assets anywhere below it. */
  ghost predicate RolledUp(r: seq<Folder>, assets: seq<FolderAsset>, userId: string) {
    forall k | 0 <= k < |r| :: r[k].assetCount == DirectCount(assets, userId, r[k].id) + Sum(r, ChildCount(r[k].id))
  }

  function ChildWeight(g: Guid, counts: map<Guid, int>): Folder -> int {
    (f: Folder) => if f.parentId == Some(g) && f.id in counts then counts[f.id] else 0
  }

  /** After the first `k` folders of the deepest-first order have been added to
      their parents. */
  ghost predicate RollInv(order: seq<Folder>, k: nat, counts: map<Guid, int>, assets: seq<FolderAsset>, userId: string)
    requires k <= |order|
  {
    forall g | g in order :: g.id in counts &&
      counts[g.id] == DirectCount(assets, userId, g.id) + Sum(order[..k], ChildWeight(g.id, counts))
  }

  /** In the deepest-first order the parent of order[k] comes after it. */
  lemma ParentLater(order: seq<Folder>, k: nat, m: nat)
    requires SortedBy(order, LevelDesc()) && LevelsIncrease(order) && m <= k < |order|
    ensures order[k].parentId != Some(order[m].id)
  {
    assert order[m] in order && order[k] in order;
    if m < k {
      assert LevelDesc()(order[m], order[k]);
    }
  }

  /** The value counts[p] takes when order[k] is added to its parent. */
  function Added(order: seq<Folder>, k: nat, counts: map<Guid, int>): map<Guid, int>
    requires k < |order| && order[k].id in counts
  {
    var f := order[k];
    if f.parentId.Some? && f.parentId.value in counts
    then counts[f.parentId.value := counts[f.parentId.value] + counts[f.id]]
    else counts
  }

  lemma RollStep(order: seq<Folder>, k: nat, counts: map<Guid, int>, assets: seq<FolderAsset>, userId: string)
    requires SortedBy(order, LevelDesc()) && LevelsIncrease(order) && k < |order|
    requires RollInv(order, k, counts, assets, userId)
    ensures order[k] in order && order[k].id in counts
    ensures RollInv(order, k + 1, Added(order, k, counts), assets, userId)
  {
    assert order[k] in order;
    forall g | g in order
      ensures g.id in Added(order, k, counts)
      ensures Added(order, k, counts)[g.id] ==
        DirectCount(assets, userId, g.id) + Sum(order[..k + 1], ChildWeight(g.id, Added(order, k, counts)))
    {
      RollStepFor(order, k, counts, assets, userId, g);
    }
  }

  lemma RollStepFor(order: seq<Folder>, k: nat, counts: map<Guid, int>, assets: seq<FolderAsset>, userId: string, g: Folder)
    requires SortedBy(order, LevelDesc()) && LevelsIncrease(order) && k < |order|
    requires RollInv(order, k, counts, assets, userId) && g in order
    ensures order[k].id in counts
    ensures g.id in Added(order, k, counts)
    ensures Added(order, k, counts)[g.id] ==
      DirectCount(assets, userId, g.id) + Sum(order[..k + 1], ChildWeight(g.id, Added(order, k, counts)))
  {
    var f := order[k];
    assert f in order;
    var c2 := Added(order, k, counts);
    var w, w2 := ChildWeight(g.id, counts), ChildWeight(g.id, c2);
    ParentLater(order, k, k);
    TakeSnoc(order, k);
    SumAppend(order[..k], [f], w2);
    assert Sum([f], w2) == w2(f) by {
      assert [f][..0] == [];
    }
    PrefixUnchanged(order, k, counts, g.id);
    assert w2(f) == if f.parentId == Some(g.id) then counts[f.id] else 0;
    assert c2[g.id] == counts[g.id] + w2(f);
  }

  /** Adding order[k] to its parent leaves the weights of the earlier folders alone. */
  lemma PrefixUnchanged(order: seq<Folder>, k: nat, counts: map<Guid, int>, g: Guid)
    requires SortedBy(order, LevelDesc()) && LevelsIncrease(order) && k < |order| && order[k].id in counts
    ensures Sum(order[..k], ChildWeight(g, Added(order, k, counts))) == Sum(order[..k], ChildWeight(g, counts))
  {
    var w, w2 := ChildWeight(g, counts), ChildWeight(g, Added(order, k, counts));
    forall x | x in order[..k] ensures w2(x) == w(x) {
      var m :| 0 <= m < k && order[m] == x;
      ParentLater(order, k, m);
    }
    SumCongruent(order[..k], w2, w);
  }

  lemma RollDone(order: seq<Folder>, folders: seq<Folder>, counts: map<Guid, int>, r: seq<Folder>,
                 assets: seq<FolderAsset>, userId: string)
    requires multiset(order) == multiset(folders)
    requires RollInv(order, |order|, counts, assets, userId)
    requires forall x | x in folders :: x in order
    requires |r| == |folders|
    requires forall j | 0 <= j < |r| :: (folders[j].id in counts && r[j] == folders[j].(assetCount := counts[folders[j].id]))
    ensures RolledUp(r, assets, userId)
  {
    TakeAll(order);
    forall k | 0 <= k < |r|
      ensures r[k].assetCount == DirectCount(assets, userId, r[k].id) + Sum(r, ChildCount(r[k].id))
    {
      var g := folders[k];
      assert g in folders;
      SumPermuted(order, folders, ChildWeight(g.id, counts));
      SumPointwise(folders, r, ChildWeight(g.id, counts), ChildCount(g.id));
    }
  }

  /** The per-folder dictionary of direct counts. */
  function DirectCounts(folders: seq<Folder>, assets: seq<FolderAsset>, userId: string): (counts: map<Guid, int>)
    ensures forall g | g in folders :: g.id in counts && counts[g.id] == DirectCount(assets, userId, g.id)
  {
    var ids := set f | f in folders :: f.id;
    map id | id in ids :: DirectCount(assets, userId, id)
  }

  /** The listed rows: each folder with the count the dictionary holds for it. */
  function WithCounts(folders: seq<Folder>, counts: map<Guid, int>): (r: seq<Folder>)
    requires forall g | g in folders :: g.id in counts
    ensures |r| == |folders|
    ensures forall j | 0 <= j < |r| ::
      (folders[j].id in counts && r[j] == folders[j].(assetCount := counts[folders[j].id]))
  {
    seq(|folders|, j requires 0 <= j < |folders| => assert folders[j] in folders; folders[j].(assetCount := counts[folders[j].id]))
  }

  /** The foreach over the deepest-first order: each folder's count is added
      to its parent's. */
  method AddToParents(order: seq<Folder>, counts0: map<Guid, int>, ghost assets: seq<FolderAsset>, ghost userId: string)
    returns (counts: map<Guid, int>)
    requires SortedBy(order, LevelDesc())
    requires forall g | g in order :: g.id in counts0
    ensures forall g | g in order :: g.id in counts
    ensures LevelsIncrease(order) && RollInv(order, 0, counts0, assets, userId) ==>
      RollInv(order, |order|, counts, assets, userId)
  {
    counts := counts0;
    ghost var increasing := LevelsIncrease(order) && RollInv(order, 0, counts0, assets, userId);
    for k := 0 to |order|
      invariant forall g | g in order :: g.id in counts
      invariant increasing ==> LevelsIncrease(order)
      invariant increasing ==> RollInv(order, k, counts, assets, userId)
    {
      var f := order[k];
      assert f in order;
      ghost var next := Added(order, k, counts);
      if increasing {
        RollStep(order, k, counts, assets, userId);
      }
      if f.parentId.Some? && f.parentId.value in counts {
        counts := counts[f.parentId.value := counts[f.parentId.value] + counts[f.id]];
      }
      assert counts == next;
    }
  }

  /** GetUserFoldersAsync: the user's folders by Level then Name, each
      carrying the number of the user's live assets in it and in every folder
      below it. The stored rows are not written back. */
  method UserFolders(store: FolderStore, userId: string, nameLe: (string, string) -> bool)
    returns (r: seq<Folder>)
    requires TotalPreorder(nameLe)
    ensures |r| == |ListingOrder(store.folders, userId, nameLe)|
    ensures forall k | 0 <= k < |r| ::
      r[k] == ListingOrder(store.folders, userId, nameLe)[k].(assetCount := r[k].assetCount)
    ensures LevelsIncrease(store.folders) ==> RolledUp(r, store.assets, userId)
  {
    var folders := ListingOrder(store.folders, userId, nameLe);
    var counts := DirectCounts(folders, store.assets, userId);
    LevelDescOrders();
    var order := SortBy(folders, LevelDesc());
    OrderMembers(folders, order);
    ghost var increasing := LevelsIncrease(store.folders);
    assert increasing ==> LevelsIncrease(order) && RollInv(order, 0, counts, store.assets, userId);
    counts := AddToParents(order, counts, store.assets, userId);
    r := WithCounts(folders, counts);
    if increasing {
      RollDone(order, folders, counts, r, store.assets, userId);
    }
  }

  lemma OrderMembers(folders: seq<Folder>, order: seq<Folder>)
    requires multiset(order) == multiset(folders)
    ensures forall x :: x in order <==> x in folders
  {
    forall x ensures x in order <==> x in folders {
      assert x in order <==> x in multiset(order);
      assert x in folders <==> x in multiset(folders);
    }
  }
}

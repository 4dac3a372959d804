/** The folder tree of a user: creating, renaming, moving and deleting folders.
    The table keeps every child one level below its parent, parents that
    exist, a child owned by its parent's owner, and distinct ids. */
module Folders {
  import opened Wrappers
  import opened Base
  import opened Seqs

  datatype Folder = Folder(
    id: Guid,
    name: string,
    parentId: Option<Guid>,
    userId: string,
    companyId: Option<Guid>,
    level: int,
    assetCount: int,
    createdAt: Ticks,
    updatedAt: Ticks)

  /** The columns of an asset row that the folder service reads. */
  datatype FolderAsset = FolderAsset(id: Guid, userId: string, folderId: Option<Guid>, isDeleted: bool)

  const ParentMissingMessage: string := "Parent folder not found or access denied"
  const FolderMissingMessage: string := "Folder not found or access denied"
  const CycleMessage: string := "Cannot move folder into itself or its descendants"
  const TargetMissingMessage: string := "Target parent folder not found or access denied"

  ghost predicate UniqueIds(fs: seq<Folder>) {
    forall i, j | 0 <= i < j < |fs| :: fs[i].id != fs[j].id
  }

  /** child.Level == parent.Level + 1 for every parent link. */
  ghost predicate WellLeveled(fs: seq<Folder>) {
    forall c, p | c in fs && p in fs && c.parentId == Some(p.id) :: c.level == p.level + 1
  }

  ghost predicate SameOwner(fs: seq<Folder>) {
    forall c, p | c in fs && p in fs && c.parentId == Some(p.id) :: c.userId == p.userId
  }

  ghost predicate ParentsExist(fs: seq<Folder>) {
    forall c | c in fs && c.parentId.Some? :: exists p | p in fs :: p.id == c.parentId.value
  }

  ghost predicate ValidTree(fs: seq<Folder>) {
    UniqueIds(fs) && WellLeveled(fs) && SameOwner(fs) && ParentsExist(fs)
  }

  function IdIs(id: Guid): Folder -> bool {
    (f: Folder) => f.id == id
  }

  function OwnedBy(id: Guid, userId: string): Folder -> bool {
    (f: Folder) => f.id == id && f.userId == userId
  }

  /** FirstOrDefault(f => f.Id == id). */
  function FolderIndex(fs: seq<Folder>, id: Guid): (i: int)
    ensures -1 <= i < |fs|
    ensures i >= 0 ==> fs[i].id == id
    ensures i < 0 <==> forall f | f in fs :: f.id != id
  {
    FirstIndex(fs, IdIs(id))
  }

  /** FirstOrDefault(f => f.Id == id && f.UserId == userId). */
  function OwnedIndex(fs: seq<Folder>, id: Guid, userId: string): (i: int)
    ensures -1 <= i < |fs|
    ensures i >= 0 ==> fs[i].id == id && fs[i].userId == userId
    ensures i < 0 <==> forall f | f in fs :: !(f.id == id && f.userId == userId)
  {
    FirstIndex(fs, OwnedBy(id, userId))
  }

  /** With distinct ids the lookup finds the one folder carrying the id. */
  lemma IndexOfMember(fs: seq<Folder>, k: nat)
    requires UniqueIds(fs) && k < |fs|
    ensures FolderIndex(fs, fs[k].id) == k
  {
  }

  function MinLevel(fs: seq<Folder>): (m: int)
    ensures forall f | f in fs :: m <= f.level
  {
    if |fs| == 0 then 0
    else
      var r := MinLevel(fs[1..]);
      assert forall f | f in fs :: f == fs[0] || f in fs[1..];
      if fs[0].level < r then fs[0].level else r
  }

  /** `a` lies on the ParentId chain above `f`: the walk of IsDescendantOf. */
  function Above(fs: seq<Folder>, f: Folder, a: Guid): bool
    requires WellLeveled(fs) && f in fs
    decreases f.level - MinLevel(fs)
  {
    match f.parentId
    case None => false
    case Some(p) =>
      if p == a then true
      else
        var i := FolderIndex(fs, p);
        if i < 0 then false
        else
          assert fs[i] in fs;
          Above(fs, fs[i], a)
  }

  /** IsDescendantOf(folderId, candidate): the candidate exists and the folder
      is a proper ancestor of it. */
  function Descends(fs: seq<Folder>, candidate: Guid, folderId: Guid): bool
    requires WellLeveled(fs)
  {
    var i := FolderIndex(fs, candidate);
    i >= 0 && Above(fs, fs[i], folderId)
  }

  /** Across a parent link that is not `a`, the walk just moves up. */
  lemma AboveStep(fs: seq<Folder>, c: Folder, k: nat, a: Guid)
    requires ValidTree(fs) && c in fs && k < |fs| && c.parentId == Some(fs[k].id) && fs[k].id != a
    ensures Above(fs, c, a) == Above(fs, fs[k], a)
  {
    IndexOfMember(fs, k);
  }

  /** Every folder on the chain above `f` sits at a lower level. */
  lemma {:induction false} AboveLowers(fs: seq<Folder>, f: Folder, h: Folder)
    requires WellLeveled(fs) && f in fs && h in fs && Above(fs, f, h.id)
    ensures h.level < f.level
    decreases f.level - MinLevel(fs)
  {
    var p := f.parentId.value;
    if p != h.id {
      var i := FolderIndex(fs, p);
      assert fs[i] in fs;
      AboveLowers(fs, fs[i], h);
    }
  }

  /** No folder lies above itself. */
  lemma NotAboveItself(fs: seq<Folder>, f: Folder)
    requires WellLeveled(fs) && f in fs
    ensures !Above(fs, f, f.id)
  {
    if Above(fs, f, f.id) {
      AboveLowers(fs, f, f);
    }
  }

  /** Row j after a move of fs[i] under `newParent` at `newLevel`. */
  function MovedRow(fs: seq<Folder>, i: nat, newParent: Option<Guid>, newLevel: int, now: Ticks, j: nat): (f: Folder)
    requires WellLeveled(fs) && i < |fs| && j < |fs|
    ensures f.id == fs[j].id && f.userId == fs[j].userId
    ensures f.parentId == if j == i then newParent else fs[j].parentId
  {
    assert fs[j] in fs;
    if j == i then fs[i].(parentId := newParent, level := newLevel, updatedAt := now)
    else if Above(fs, fs[j], fs[i].id) then fs[j].(level := fs[j].level + (newLevel - fs[i].level), updatedAt := now)
    else fs[j]
  }

  /** The table after a move: every folder below the moved one shifts by the
      same number of levels. */
  function Moved(fs: seq<Folder>, i: nat, newParent: Option<Guid>, newLevel: int, now: Ticks): (r: seq<Folder>)
    requires WellLeveled(fs) && i < |fs|
    ensures |r| == |fs|
    ensures forall j | 0 <= j < |fs| :: r[j] == MovedRow(fs, i, newParent, newLevel, now, j)
  {
    seq(|fs|, j requires 0 <= j < |fs| => MovedRow(fs, i, newParent, newLevel, now, j))
  }

  /** Where a move may go: the root, or a folder of the same owner that is
      neither the folder itself nor below it. */
  ghost predicate MoveTarget(fs: seq<Folder>, i: nat, newParent: Option<Guid>, newLevel: int)
    requires WellLeveled(fs) && i < |fs|
  {
    (newParent.None? ==> newLevel == 0) &&
    (newParent.Some? ==> exists k | 0 <= k < |fs| ::
      fs[k].id == newParent.value && fs[k].userId == fs[i].userId && k != i &&
      !Above(fs, fs[k], fs[i].id) && newLevel == fs[k].level + 1)
  }

  /** With distinct ids, two folders of the table with one id are one folder. */
  lemma SameId(fs: seq<Folder>, p: Folder, q: Folder)
    requires UniqueIds(fs) && p in fs && q in fs && p.id == q.id
    ensures p == q
  {
    var a :| 0 <= a < |fs| && fs[a] == p;
    var b :| 0 <= b < |fs| && fs[b] == q;
    assert a == b;
  }

  /** A move to a proper target keeps the tree valid. */
  lemma MovedValid(fs: seq<Folder>, i: nat, newParent: Option<Guid>, newLevel: int, now: Ticks)
    requires ValidTree(fs) && i < |fs| && MoveTarget(fs, i, newParent, newLevel)
    ensures ValidTree(Moved(fs, i, newParent, newLevel, now))
  {
    MovedLeveled(fs, i, newParent, newLevel, now);
    MovedParents(fs, i, newParent, newLevel, now);
  }

  lemma MovedLeveled(fs: seq<Folder>, i: nat, newParent: Option<Guid>, newLevel: int, now: Ticks)
    requires ValidTree(fs) && i < |fs| && MoveTarget(fs, i, newParent, newLevel)
    ensures WellLeveled(Moved(fs, i, newParent, newLevel, now))
    ensures SameOwner(Moved(fs, i, newParent, newLevel, now))
  {
    var r := Moved(fs, i, newParent, newLevel, now);
    forall c, p | c in r && p in r && c.parentId == Some(p.id)
      ensures c.level == p.level + 1 && c.userId == p.userId
    {
      var jc :| 0 <= jc < |r| && r[jc] == c;
      var jp :| 0 <= jp < |r| && r[jp] == p;
      MovedLink(fs, i, newParent, newLevel, now, jc, jp);
    }
  }

  lemma MovedParents(fs: seq<Folder>, i: nat, newParent: Option<Guid>, newLevel: int, now: Ticks)
    requires ValidTree(fs) && i < |fs| && MoveTarget(fs, i, newParent, newLevel)
    ensures UniqueIds(Moved(fs, i, newParent, newLevel, now))
    ensures ParentsExist(Moved(fs, i, newParent, newLevel, now))
  {
    var r := Moved(fs, i, newParent, newLevel, now);
    forall a, b | 0 <= a < b < |r| ensures r[a].id != r[b].id {
      assert r[a].id == fs[a].id && r[b].id == fs[b].id;
    }
    forall c | c in r && c.parentId.Some? ensures exists p | p in r :: p.id == c.parentId.value {
      var jc :| 0 <= jc < |r| && r[jc] == c;
      MovedParentRow(fs, i, newParent, newLevel, now, jc);
    }
  }

  lemma MovedParentRow(fs: seq<Folder>, i: nat, newParent: Option<Guid>, newLevel: int, now: Ticks, jc: nat)
    requires ValidTree(fs) && i < |fs| && MoveTarget(fs, i, newParent, newLevel)
    requires jc < |fs| && Moved(fs, i, newParent, newLevel, now)[jc].parentId.Some?
    ensures exists k | 0 <= k < |fs| ::
      (Moved(fs, i, newParent, newLevel, now)[k].id == Moved(fs, i, newParent, newLevel, now)[jc].parentId.value)
  {
    var r := Moved(fs, i, newParent, newLevel, now);
    if jc == i {
      var k :| 0 <= k < |fs| && fs[k].id == newParent.value && fs[k].userId == fs[i].userId && k != i &&
        !Above(fs, fs[k], fs[i].id) && newLevel == fs[k].level + 1;
      assert r[k].id == r[jc].parentId.value;
    } else {
      assert fs[jc] in fs;
      var p :| p in fs && p.id == fs[jc].parentId.value;
      var k :| 0 <= k < |fs| && fs[k] == p;
      assert r[k].id == r[jc].parentId.value;
    }
  }

  /** One parent link of the moved table, by cases on which end moved. */
  lemma MovedLink(fs: seq<Folder>, i: nat, newParent: Option<Guid>, newLevel: int, now: Ticks, jc: nat, jp: nat)
    requires ValidTree(fs) && i < |fs| && MoveTarget(fs, i, newParent, newLevel)
    requires jc < |fs| && jp < |fs|
    requires Moved(fs, i, newParent, newLevel, now)[jc].parentId == Some(Moved(fs, i, newParent, newLevel, now)[jp].id)
    ensures Moved(fs, i, newParent, newLevel, now)[jc].level == Moved(fs, i, newParent, newLevel, now)[jp].level + 1
    ensures Moved(fs, i, newParent, newLevel, now)[jc].userId == Moved(fs, i, newParent, newLevel, now)[jp].userId
  {
    var r := Moved(fs, i, newParent, newLevel, now);
    var x := fs[i].id;
    assert fs[jc] in fs && fs[jp] in fs && fs[i] in fs;
    if jc == i {
      var k :| 0 <= k < |fs| && fs[k].id == newParent.value && fs[k].userId == fs[i].userId && k != i &&
        !Above(fs, fs[k], x) && newLevel == fs[k].level + 1;
      assert jp == k;
    } else {
      assert fs[jc].parentId == Some(fs[jp].id);
      if jp == i {
        assert Above(fs, fs[jc], x);
      } else {
        NotAboveItself(fs, fs[i]);
        AboveStep(fs, fs[jc], jp, x);
      }
    }
  }

  /** The move guard as written: reject only when the folder is a proper
      ancestor of the target. */
  function MoveRejectedAsWritten(fs: seq<Folder>, folderId: Guid, newParent: Option<Guid>): (b: bool)
    requires WellLeveled(fs)
    ensures b ==> newParent.Some? && FolderIndex(fs, newParent.value) >= 0
    ensures b ==> newParent.value != folderId
  {
    SelfNotDescendant(fs, folderId);
    newParent.Some? && Descends(fs, newParent.value, folderId)
  }

  /** A folder is never its own descendant. */
  lemma SelfNotDescendant(fs: seq<Folder>, folderId: Guid)
    requires WellLeveled(fs)
    ensures !Descends(fs, folderId, folderId)
  {
    var i := FolderIndex(fs, folderId);
    if i >= 0 {
      assert fs[i] in fs;
      NotAboveItself(fs, fs[i]);
    }
  }

  /** The guard the message promises: also reject the folder itself. */
  function MoveRejected(fs: seq<Folder>, folderId: Guid, newParent: Option<Guid>): (b: bool)
    requires WellLeveled(fs)
    ensures MoveRejectedAsWritten(fs, folderId, newParent) ==> b
    ensures newParent == Some(folderId) ==> b
  {
    newParent.Some? && (newParent.value == folderId || Descends(fs, newParent.value, folderId))
  }

  /** As written, moving a folder into itself passes the guard, and the
      resulting row is its own parent one level below itself: the table is no
      longer well levelled and the descendant walk never ends. */
  lemma SelfMoveSlipsThrough(fs: seq<Folder>, i: nat)
    requires ValidTree(fs) && i < |fs|
    ensures !MoveRejectedAsWritten(fs, fs[i].id, Some(fs[i].id))
    ensures var after := fs[i := fs[i].(parentId := Some(fs[i].id), level := fs[i].level + 1)];
      after[i].parentId == Some(after[i].id) && !WellLeveled(after)
  {
    assert fs[i] in fs;
    IndexOfMember(fs, i);
    NotAboveItself(fs, fs[i]);
    var after := fs[i := fs[i].(parentId := Some(fs[i].id), level := fs[i].level + 1)];
    assert after[i] in after;
  }

  /** The parent link of every surviving folder survives a subtree delete. */
  lemma {:induction false} FilterKeepsUniqueIds(fs: seq<Folder>, p: Folder -> bool)
    requires UniqueIds(fs)
    ensures UniqueIds(Filter(fs, p))
    decreases |fs|
  {
    if |fs| > 0 {
      var init, last := fs[..|fs| - 1], fs[|fs| - 1];
      assert UniqueIds(init);
      FilterKeepsUniqueIds(init, p);
      var f := Filter(init, p);
      if p(last) {
        forall a, b | 0 <= a < b < |f + [last]| ensures (f + [last])[a].id != (f + [last])[b].id {
          if b == |f| {
            assert f[a] in init;
          }
        }
      }
    }
  }

  /** The ids of a folder and of every folder below it. */
  function SubtreeIds(fs: seq<Folder>, x: Guid): (ids: set<Guid>)
    requires WellLeveled(fs)
    ensures forall f | f in fs :: f.id in ids <==> f.id == x || Above(fs, f, x) || exists g | g in fs && g.id == f.id :: g.id == x || Above(fs, g, x)
  {
    set f | f in fs && (f.id == x || Above(fs, f, x)) :: f.id
  }

  function FolderOutside(ids: set<Guid>): Folder -> bool {
    (f: Folder) => f.id !in ids
  }

  function AssetOutside(ids: set<Guid>): FolderAsset -> bool {
    (a: FolderAsset) => !(a.folderId.Some? && a.folderId.value in ids)
  }

  /** A child of a removed folder is removed as well. */
  lemma ChildOfRemoved(fs: seq<Folder>, x: Guid, c: Folder, k: nat)
    requires ValidTree(fs) && c in fs && k < |fs| && c.parentId == Some(fs[k].id)
    ensures fs[k].id in SubtreeIds(fs, x) ==> c.id in SubtreeIds(fs, x)
  {
    if fs[k].id in SubtreeIds(fs, x) {
      var g :| g in fs && g.id == fs[k].id && (g.id == x || Above(fs, g, x));
      SameId(fs, g, fs[k]);
      if fs[k].id != x {
        AboveStep(fs, c, k, x);
      }
    }
  }

  /** Removing a folder together with everything below it leaves a valid tree. */
  lemma SubtreeRemovedValid(fs: seq<Folder>, x: Guid)
    requires ValidTree(fs)
    ensures ValidTree(Filter(fs, FolderOutside(SubtreeIds(fs, x))))
  {
    var ids := SubtreeIds(fs, x);
    var r := Filter(fs, FolderOutside(ids));
    FilterKeepsUniqueIds(fs, FolderOutside(ids));
    forall c | c in r && c.parentId.Some? ensures exists p | p in r :: p.id == c.parentId.value {
      var p :| p in fs && p.id == c.parentId.value;
      var k :| 0 <= k < |fs| && fs[k] == p;
      ChildOfRemoved(fs, x, c, k);
      assert p in r;
    }
  }

  /** The target of a move exists: the root, or a folder of the user. */
  predicate TargetFound(fs: seq<Folder>, newParent: Option<Guid>, userId: string) {
    newParent.None? || OwnedIndex(fs, newParent.value, userId) >= 0
  }

  /** The level a moved folder takes: 0 at the root, one below its new parent. */
  function TargetLevel(fs: seq<Folder>, newParent: Option<Guid>, userId: string): int {
    if newParent.None? then 0
    else
      var k := OwnedIndex(fs, newParent.value, userId);
      if k < 0 then 0 else fs[k].level + 1
  }

  /** A target that passes the corrected guard is a proper one, so the move
      keeps the tree valid. */
  lemma TargetAccepted(fs: seq<Folder>, i: nat, folderId: Guid, newParent: Option<Guid>, userId: string, now: Ticks)
    requires ValidTree(fs) && i < |fs| && i == OwnedIndex(fs, folderId, userId)
    requires !MoveRejected(fs, folderId, newParent) && TargetFound(fs, newParent, userId)
    ensures MoveTarget(fs, i, newParent, TargetLevel(fs, newParent, userId))
    ensures ValidTree(Moved(fs, i, newParent, TargetLevel(fs, newParent, userId), now))
  {
    var lvl := TargetLevel(fs, newParent, userId);
    if newParent.Some? {
      var k := OwnedIndex(fs, newParent.value, userId);
      IndexOfMember(fs, k);
      assert k != i;
      assert !Above(fs, fs[k], fs[i].id);
    }
    MovedValid(fs, i, newParent, lvl, now);
  }

  /** The folder table and the asset rows it counts. */
  class FolderStore {
    var folders: seq<Folder>
    var assets: seq<FolderAsset>

    ghost predicate Valid()
      reads this
    {
      ValidTree(folders)
    }

    constructor ()
      ensures folders == [] && assets == [] && Valid()
    {
      folders := [];
      assets := [];
    }

    /** CreateFolderAsync: under a parent of the same user the level is one
        more than the parent's; at the root it is the requested level or 0.
        `id` is the fresh Guid of the new folder. */
    method CreateFolder(name: string, parentId: Option<Guid>, level: Option<int>, userId: string,
                        companyId: Option<Guid>, id: Guid, now: Ticks)
      returns (r: Result<Folder>)
      requires Valid()
      requires forall f | f in folders :: f.id != id
      modifies this
      ensures Valid()
      ensures assets == old(assets)
      ensures parentId.Some? && OwnedIndex(old(folders), parentId.value, userId) < 0 ==>
        r == Err(ParentMissingMessage) && folders == old(folders)
      ensures parentId.None? || OwnedIndex(old(folders), parentId.value, userId) >= 0 ==>
        r.Ok? && folders == old(folders) + [r.value] &&
        r.value == Folder(id, name, parentId, userId, companyId,
          if parentId.Some? then old(folders)[OwnedIndex(old(folders), parentId.value, userId)].level + 1
          else level.GetOr(0), 0, now, now)
    {
      var lvl := level.GetOr(0);
      if parentId.Some? {
        var p := OwnedIndex(folders, parentId.value, userId);
        if p < 0 {
          return Err(ParentMissingMessage);
        }
        lvl := folders[p].level + 1;
      }
      var f := Folder(id, name, parentId, userId, companyId, lvl, 0, now, now);
      CreatedValid(folders, f);
      folders := folders + [f];
      r := Ok(f);
    }

    /** UpdateFolderAsync: only the name and the update time change. */
    method RenameFolder(folderId: Guid, name: string, userId: string, now: Ticks)
      returns (r: Result<Folder>)
      requires Valid()
      modifies this
      ensures Valid()
      ensures assets == old(assets)
      ensures var i := OwnedIndex(old(folders), folderId, userId);
        (i < 0 ==> r == Err(FolderMissingMessage) && folders == old(folders)) &&
        (i >= 0 ==> r == Ok(old(folders)[i].(name := name, updatedAt := now)) &&
                    folders == old(folders)[i := r.value])
    {
      var i := OwnedIndex(folders, folderId, userId);
      if i < 0 {
        return Err(FolderMissingMessage);
      }
      var f := folders[i].(name := name, updatedAt := now);
      RenamedValid(folders, i, f);
      folders := folders[i := f];
      r := Ok(f);
    }

    /** IsDescendantOf: walks the ParentId chain up from the candidate. */
    method IsDescendantOf(folderId: Guid, candidate: Guid) returns (b: bool)
      requires Valid()
      ensures b == Descends(folders, candidate, folderId)
    {
      var i := FolderIndex(folders, candidate);
      if i < 0 {
        return false;
      }
      var cur := folders[i];
      while cur.parentId.Some?
        invariant cur in folders
        invariant Above(folders, cur, folderId) == Descends(folders, candidate, folderId)
        decreases cur.level - MinLevel(folders)
      {
        if cur.parentId.value == folderId {
          return true;
        }
        var j := FolderIndex(folders, cur.parentId.value);
        if j < 0 {
          return false;
        }
        assert folders[j] in folders;
        cur := folders[j];
      }
      return false;
    }

    /** MoveFolderAsync with the guard that also refuses the folder itself.
        An unknown folder gives false; the target must be the user's. */
    method MoveFolder(folderId: Guid, newParent: Option<Guid>, userId: string, now: Ticks)
      returns (r: Result<bool>)
      requires Valid()
      modifies this
      ensures Valid()
      ensures assets == old(assets)
      ensures OwnedIndex(old(folders), folderId, userId) < 0 ==> r == Ok(false) && folders == old(folders)
      ensures OwnedIndex(old(folders), folderId, userId) >= 0 && MoveRejected(old(folders), folderId, newParent) ==>
        r == Err(CycleMessage) && folders == old(folders)
      ensures (OwnedIndex(old(folders), folderId, userId) >= 0 && !MoveRejected(old(folders), folderId, newParent) &&
               !TargetFound(old(folders), newParent, userId)) ==> r == Err(TargetMissingMessage) && folders == old(folders)
      ensures (OwnedIndex(old(folders), folderId, userId) >= 0 && !MoveRejected(old(folders), folderId, newParent) &&
               TargetFound(old(folders), newParent, userId)) ==>
        r == Ok(true) &&
        folders == Moved(old(folders), OwnedIndex(old(folders), folderId, userId), newParent,
                         TargetLevel(old(folders), newParent, userId), now)
    {
      var i := OwnedIndex(folders, folderId, userId);
      if i < 0 {
        return Ok(false);
      }
      var rejected := false;
      if newParent.Some? {
        if newParent.value == folderId {
          rejected := true;
        } else {
          rejected := IsDescendantOf(folderId, newParent.value);
        }
      }
      if rejected {
        return Err(CycleMessage);
      }
      var newLevel := 0;
      if newParent.Some? {
        var k := OwnedIndex(folders, newParent.value, userId);
        if k < 0 {
          return Err(TargetMissingMessage);
        }
        newLevel := folders[k].level + 1;
      }
      assert newLevel == TargetLevel(folders, newParent, userId);
      TargetAccepted(folders, i, folderId, newParent, userId, now);
      folders := Moved(folders, i, newParent, newLevel, now);
      r := Ok(true);
    }

    /** DeleteFolderAsync: the folder, every folder below it and every asset in
        any of them are removed; an unknown folder gives false. */
    method DeleteFolder(folderId: Guid, userId: string) returns (r: bool)
      requires Valid()
      modifies this
      ensures Valid()
      ensures r <==> OwnedIndex(old(folders), folderId, userId) >= 0
      ensures !r ==> folders == old(folders) && assets == old(assets)
      ensures r ==>
        folders == Filter(old(folders), FolderOutside(SubtreeIds(old(folders), folderId))) &&
        assets == Filter(old(assets), AssetOutside(SubtreeIds(old(folders), folderId)))
    {
      var i := OwnedIndex(folders, folderId, userId);
      if i < 0 {
        return false;
      }
      var ids := SubtreeIds(folders, folderId);
      SubtreeRemovedValid(folders, folderId);
      var keptAssets := Keep(assets, AssetOutside(ids));
      var keptFolders := Keep(folders, FolderOutside(ids));
      folders := keptFolders;
      assets := keptAssets;
      r := true;
    }
  }

  lemma CreatedValid(fs: seq<Folder>, f: Folder)
    requires ValidTree(fs) && forall g | g in fs :: g.id != f.id
    requires f.parentId.Some? ==>
      exists p | p in fs :: (p.id == f.parentId.value && p.userId == f.userId && f.level == p.level + 1)
    ensures ValidTree(fs + [f])
  {
    var r := fs + [f];
    forall a, b | 0 <= a < b < |r| ensures r[a].id != r[b].id {
      if b == |fs| {
        assert r[a] in fs;
      }
    }
    forall c | c in r && c.parentId.Some? ensures exists p | p in r :: p.id == c.parentId.value {
      if c != f {
        var p :| p in fs && p.id == c.parentId.value;
        assert p in r;
      } else {
        var p :| p in fs && p.id == f.parentId.value;
        assert p in r;
      }
    }
    forall c, p | c in r && p in r && c.parentId == Some(p.id) ensures c.level == p.level + 1 && c.userId == p.userId {
      if c == f {
        var q :| q in fs && q.id == f.parentId.value && q.userId == f.userId && f.level == q.level + 1;
        assert p in fs;
        SameId(fs, p, q);
      }
    }
  }

  /** Two tables that agree, row by row, on ids, parents, levels and owners. */
  ghost predicate SameShape(fs: seq<Folder>, r: seq<Folder>) {
    |r| == |fs| &&
    forall k | 0 <= k < |fs| ::
      r[k].id == fs[k].id && r[k].parentId == fs[k].parentId && r[k].level == fs[k].level && r[k].userId == fs[k].userId
  }

  lemma ShapeLeveled(fs: seq<Folder>, r: seq<Folder>)
    requires ValidTree(fs) && SameShape(fs, r)
    ensures WellLeveled(r) && SameOwner(r)
  {
    forall c, p | c in r && p in r && c.parentId == Some(p.id) ensures c.level == p.level + 1 && c.userId == p.userId {
      var a :| 0 <= a < |r| && r[a] == c;
      var b :| 0 <= b < |r| && r[b] == p;
      assert fs[a] in fs && fs[b] in fs;
    }
  }

  lemma ShapeParents(fs: seq<Folder>, r: seq<Folder>)
    requires ValidTree(fs) && SameShape(fs, r)
    ensures UniqueIds(r) && ParentsExist(r)
  {
    forall c | c in r && c.parentId.Some? ensures exists p | p in r :: p.id == c.parentId.value {
      var a :| 0 <= a < |r| && r[a] == c;
      assert fs[a] in fs;
      var p :| p in fs && p.id == fs[a].parentId.value;
      var b :| 0 <= b < |fs| && fs[b] == p;
      assert r[b] in r;
    }
  }

  lemma RenamedValid(fs: seq<Folder>, i: nat, f: Folder)
    requires ValidTree(fs) && i < |fs| && f == fs[i].(name := f.name, updatedAt := f.updatedAt)
    ensures ValidTree(fs[i := f])
  {
    assert SameShape(fs, fs[i := f]);
    ShapeLeveled(fs, fs[i := f]);
    ShapeParents(fs, fs[i := f]);
  }
}

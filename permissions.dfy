/** PermissionService: the permission catalogue (soft-deleted rows stay in the
    table), the grant tables of users and of roles, the defaults a new user
    receives for their role, and the effective permissions of a user (direct
    grants and the grants of the user's groups). */
module Permissions {
  import opened Wrappers
  import opened Base
  import opened Seqs
  import opened Sorting

  datatype PermissionDetail = PermissionDetail(
    id: Guid, name: string, isDeleted: bool, isActive: bool,
    createdAt: Ticks, updatedAt: Ticks, byDefault: Option<string>)

  /** A UserPermission row (holder = UserId) or a RolePermission row (holder = RoleId). */
  datatype Grant = Grant(holder: string, permissionId: Guid)

  datatype GroupGrant = GroupGrant(groupId: Guid, permissionId: Guid)

  /** A UserGroup row. */
  datatype Membership = Membership(userId: string, groupId: Guid)

  /** The KeyNotFoundException of the lookups (its text names the id). */
  const NotFoundMessage: string := "Permission not found."

  const AdminRole: string := "Admin"
  const EditorRole: string := "Editor"
  const ViewerRole: string := "Viewer"

  /** The primary key: no two permissions share an id. */
  predicate UniqueIds(ps: seq<PermissionDetail>) {
    forall i, j | 0 <= i < j < |ps| :: ps[i].id != ps[j].id
  }

  function HasId(id: Guid): PermissionDetail -> bool {
    (p: PermissionDetail) => p.id == id
  }

  function LiveWithId(id: Guid): PermissionDetail -> bool {
    (p: PermissionDetail) => p.id == id && !p.isDeleted
  }

  function NotDeleted(): PermissionDetail -> bool {
    (p: PermissionDetail) => !p.isDeleted
  }

  /** The filter of every grant query: active and not deleted. */
  predicate Usable(p: PermissionDetail) {
    !p.isDeleted && p.isActive
  }

  function UsableRow(): PermissionDetail -> bool {
    (p: PermissionDetail) => Usable(p)
  }

  // ---------------------------------------------------------------------
  // The catalogue

  function ByName(nameLe: (string, string) -> bool): (PermissionDetail, PermissionDetail) -> bool {
    (a: PermissionDetail, b: PermissionDetail) => nameLe(a.name, b.name)
  }

  lemma ByNameOrders(nameLe: (string, string) -> bool)
    requires TotalPreorder(nameLe)
    ensures TotalPreorder(ByName(nameLe))
  {
    var le := ByName(nameLe);
    forall x: PermissionDetail, y: PermissionDetail, z: PermissionDetail | le(x, y) && le(y, z)
      ensures le(x, z)
    {
      assert nameLe(x.name, y.name) && nameLe(y.name, z.name);
    }
    forall x: PermissionDetail, y: PermissionDetail ensures le(x, y) || le(y, x) {
      assert nameLe(x.name, y.name) || nameLe(y.name, x.name);
    }
  }

  /** GetAllPermissionsAsync: every permission not deleted, ordered by name. */
  function AllPermissions(ps: seq<PermissionDetail>, nameLe: (string, string) -> bool): (r: seq<PermissionDetail>)
    requires TotalPreorder(nameLe)
    ensures multiset(r) == multiset(Filter(ps, NotDeleted()))
    ensures forall p :: p in r <==> p in ps && !p.isDeleted
    ensures SortedBy(r, ByName(nameLe))
  {
    ByNameOrders(nameLe);
    var live := Filter(ps, NotDeleted());
    var r := SortBy(live, ByName(nameLe));
    forall p ensures p in r <==> p in live {
      SortByMembers(live, ByName(nameLe), p);
    }
    r
  }

  /** GetPermissionByIdAsync: the permission with the id unless it is deleted. */
  function PermissionById(ps: seq<PermissionDetail>, id: Guid): (r: Result<PermissionDetail>)
    ensures r.Ok? <==> exists p | p in ps :: p.id == id && !p.isDeleted
    ensures r.Ok? ==> r.value in ps && r.value.id == id && !r.value.isDeleted
    ensures r.Err? ==> r.message == NotFoundMessage
  {
    var i := FirstIndex(ps, LiveWithId(id));
    if i < 0 then Err(NotFoundMessage) else Ok(ps[i])
  }

  /** The fields UpdatePermissionAsync writes: each supplied field, and the
      update time; the id and the creation time stay. */
  function Updated(p: PermissionDetail, name: Option<string>, isActive: Option<bool>,
                   isDeleted: Option<bool>, byDefault: Option<string>, now: Ticks): (r: PermissionDetail)
    ensures r.id == p.id && r.createdAt == p.createdAt && r.updatedAt == now
    ensures name.Some? ==> r.name == name.value
    ensures name.None? ==> r.name == p.name
    ensures isActive.Some? ==> r.isActive == isActive.value
    ensures isActive.None? ==> r.isActive == p.isActive
    ensures isDeleted.Some? ==> r.isDeleted == isDeleted.value
    ensures isDeleted.None? ==> r.isDeleted == p.isDeleted
    ensures byDefault.Some? ==> r.byDefault == byDefault
    ensures byDefault.None? ==> r.byDefault == p.byDefault
  {
    var p1 := if name.Some? then p.(name := name.value) else p;
    var p2 := if isActive.Some? then p1.(isActive := isActive.value) else p1;
    var p3 := if isDeleted.Some? then p2.(isDeleted := isDeleted.value) else p2;
    var p4 := if byDefault.Some? then p3.(byDefault := byDefault) else p3;
    p4.(updatedAt := now)
  }

  /** An update with no field supplied only touches the update time. */
  lemma UpdateNothing(p: PermissionDetail, now: Ticks)
    ensures Updated(p, None, None, None, None, now) == p.(updatedAt := now)
  {
  }

  /** Replacing a row by one with the same id keeps the key unique. */
  lemma SameIdKeepsUnique(ps: seq<PermissionDetail>, i: nat, q: PermissionDetail)
    requires UniqueIds(ps) && i < |ps| && q.id == ps[i].id
    ensures UniqueIds(ps[i := q])
  {
    var qs := ps[i := q];
    forall a, b | 0 <= a < b < |qs| ensures qs[a].id != qs[b].id {
      assert qs[a].id == ps[a].id && qs[b].id == ps[b].id;
    }
  }

  /** DeletePermissionAsync looks the row up by id alone and then tests
      IsDeleted; under a unique key this is the lookup of GetPermissionByIdAsync. */
  lemma DeleteLookupAgrees(ps: seq<PermissionDetail>, id: Guid)
    requires UniqueIds(ps)
    ensures var i := FirstIndex(ps, HasId(id));
      (i >= 0 && !ps[i].isDeleted) <==> PermissionById(ps, id).Ok?
  {
    var i := FirstIndex(ps, HasId(id));
    if PermissionById(ps, id).Ok? {
      var j := FirstIndex(ps, LiveWithId(id));
      assert ps[j].id == id;
      assert i >= 0;
      if i != j {
        assert ps[i].id == ps[j].id;
      }
    }
  }

  /** After a soft delete the permission is neither found, nor listed, nor usable. */
  lemma SoftDeletedInvisible(ps: seq<PermissionDetail>, i: nat, now: Ticks)
    requires UniqueIds(ps) && i < |ps|
    ensures var qs := ps[i := ps[i].(isDeleted := true, updatedAt := now)];
      PermissionById(qs, ps[i].id).Err? &&
      (forall p | p in Filter(qs, NotDeleted()) :: p.id != ps[i].id) &&
      (forall p | p in qs && p.id == ps[i].id :: !Usable(p))
  {
    var qs := ps[i := ps[i].(isDeleted := true, updatedAt := now)];
    forall p | p in qs && p.id == ps[i].id ensures p.isDeleted {
      var k :| 0 <= k < |qs| && qs[k] == p;
      if k != i {
        assert ps[k].id == ps[i].id;
      }
    }
  }

  // ---------------------------------------------------------------------
  // Synchronising the grants of one holder

  function HeldBy(holder: string): Grant -> bool {
    (g: Grant) => g.holder == holder
  }

  /** Select(row => row.PermissionDetailId). */
  function PermissionIds(gs: seq<Grant>): (r: seq<Guid>)
    ensures |r| == |gs|
    ensures forall i | 0 <= i < |gs| :: r[i] == gs[i].permissionId
  {
    seq(|gs|, i requires 0 <= i < |gs| => gs[i].permissionId)
  }

  /** The ids granted to a holder, one per row. */
  function HeldIds(gs: seq<Grant>, holder: string): seq<Guid> {
    PermissionIds(Filter(gs, HeldBy(holder)))
  }

  lemma HeldIdsMembers(gs: seq<Grant>, holder: string, p: Guid)
    ensures p in HeldIds(gs, holder) <==> Grant(holder, p) in gs
  {
    var mine := Filter(gs, HeldBy(holder));
    if p in HeldIds(gs, holder) {
      var k :| 0 <= k < |mine| && HeldIds(gs, holder)[k] == p;
      assert mine[k] in mine;
      assert mine[k] == Grant(holder, p);
    }
    if Grant(holder, p) in gs {
      assert Grant(holder, p) in mine;
      var k :| 0 <= k < |mine| && mine[k] == Grant(holder, p);
      assert HeldIds(gs, holder)[k] == p;
    }
  }

  /** One new row per id. */
  function NewGrants(holder: string, ids: seq<Guid>): (r: seq<Grant>)
    ensures |r| == |ids|
    ensures forall i | 0 <= i < |ids| :: r[i] == Grant(holder, ids[i])
  {
    seq(|ids|, i requires 0 <= i < |ids| => Grant(holder, ids[i]))
  }

  lemma NewGrantsMembers(holder: string, ids: seq<Guid>, g: Grant)
    ensures g in NewGrants(holder, ids) <==> g.holder == holder && g.permissionId in ids
  {
    var r := NewGrants(holder, ids);
    if g.holder == holder && g.permissionId in ids {
      var k :| 0 <= k < |ids| && ids[k] == g.permissionId;
      assert r[k] == g;
    }
  }

  /** Without duplicate ids, each new row occurs once. */
  lemma {:induction false} NewGrantsOnce(holder: string, ids: seq<Guid>, p: Guid)
    requires NoDuplicates(ids)
    ensures multiset(NewGrants(holder, ids))[Grant(holder, p)] == if p in ids then 1 else 0
    decreases |ids|
  {
    if |ids| > 0 {
      var init := ids[..|ids| - 1];
      assert ids == init + [ids[|ids| - 1]];
      assert NewGrants(holder, ids) == NewGrants(holder, init) + [Grant(holder, ids[|ids| - 1])];
      NewGrantsOnce(holder, init, p);
      if p == ids[|ids| - 1] {
        assert p !in init;
      }
    }
  }

  /** A row that survives the sync: another holder's, or one whose id is requested. */
  function Retained(holder: string, ids: seq<Guid>): Grant -> bool {
    (g: Grant) => g.holder != holder || g.permissionId in ids
  }

  /** The rows the source deletes are the holder's rows with an id in `toRemove`. */
  function NotRemoved(holder: string, toRemove: seq<Guid>): Grant -> bool {
    (g: Grant) => !(g.holder == holder && g.permissionId in toRemove)
  }

  /** The grant table after AssignPermissionsToUserAsync or
      AssignPermissionsToRoleAsync: rows of unrequested ids deleted, one row
      added for each requested id the holder did not have. */
  function Synced(gs: seq<Grant>, holder: string, ids: seq<Guid>): seq<Grant> {
    Filter(gs, Retained(holder, ids)) + NewGrants(holder, Except(ids, HeldIds(gs, holder)))
  }

  /** The holder ends with exactly the requested ids. */
  lemma SyncedHolds(gs: seq<Grant>, holder: string, ids: seq<Guid>, p: Guid)
    ensures Grant(holder, p) in Synced(gs, holder, ids) <==> p in ids
  {
    var added := Except(ids, HeldIds(gs, holder));
    NewGrantsMembers(holder, added, Grant(holder, p));
    HeldIdsMembers(gs, holder, p);
  }

  lemma SyncedHeldIds(gs: seq<Grant>, holder: string, ids: seq<Guid>)
    ensures forall p :: p in HeldIds(Synced(gs, holder, ids), holder) <==> p in ids
  {
    forall p ensures p in HeldIds(Synced(gs, holder, ids), holder) <==> p in ids {
      SyncedHolds(gs, holder, ids, p);
      HeldIdsMembers(Synced(gs, holder, ids), holder, p);
    }
  }

  /** The rows of every other holder are untouched, in their order. */
  lemma SyncedOthers(gs: seq<Grant>, holder: string, ids: seq<Guid>, other: string)
    requires other != holder
    ensures Filter(Synced(gs, holder, ids), HeldBy(other)) == Filter(gs, HeldBy(other))
  {
    var added := NewGrants(holder, Except(ids, HeldIds(gs, holder)));
    FilterAppend(Filter(gs, Retained(holder, ids)), added, HeldBy(other));
    FilterNone(added, HeldBy(other));
    FilterFilter(gs, Retained(holder, ids), HeldBy(other), HeldBy(other));
  }

  /** A requested id the holder already had keeps its rows as they were: it is
      neither deleted nor added again. */
  lemma SyncedKeepsShared(gs: seq<Grant>, holder: string, ids: seq<Guid>, p: Guid)
    requires p in ids && Grant(holder, p) in gs
    ensures multiset(Synced(gs, holder, ids))[Grant(holder, p)] == multiset(gs)[Grant(holder, p)]
  {
    var g := Grant(holder, p);
    var added := Except(ids, HeldIds(gs, holder));
    FilterMultiset(gs, Retained(holder, ids));
    HeldIdsMembers(gs, holder, p);
    NewGrantsMembers(holder, added, g);
    assert g !in multiset(NewGrants(holder, added));
  }

  /** A sync never creates a duplicate: a holder with at most one row per id
      keeps at most one row per id. */
  lemma SyncedNoDuplicate(gs: seq<Grant>, holder: string, ids: seq<Guid>, p: Guid)
    requires multiset(gs)[Grant(holder, p)] <= 1
    ensures multiset(Synced(gs, holder, ids))[Grant(holder, p)] <= 1
  {
    var g := Grant(holder, p);
    var added := Except(ids, HeldIds(gs, holder));
    FilterMultiset(gs, Retained(holder, ids));
    HeldIdsMembers(gs, holder, p);
    NewGrantsOnce(holder, added, p);
    if g in gs {
      assert p !in added;
    } else {
      assert multiset(gs)[g] == 0;
    }
  }

  /** Repeating the same assignment changes nothing. */
  lemma SyncedIdempotent(gs: seq<Grant>, holder: string, ids: seq<Guid>)
    ensures Synced(Synced(gs, holder, ids), holder, ids) == Synced(gs, holder, ids)
  {
    var s := Synced(gs, holder, ids);
    SyncedNothingToAdd(gs, holder, ids);
    SyncedAllRetained(gs, holder, ids);
    FilterAll(s, Retained(holder, ids));
    assert s + NewGrants(holder, []) == s;
  }

  lemma SyncedNothingToAdd(gs: seq<Grant>, holder: string, ids: seq<Guid>)
    ensures Except(ids, HeldIds(Synced(gs, holder, ids), holder)) == []
  {
    var s := Synced(gs, holder, ids);
    SyncedHeldIds(gs, holder, ids);
    FilterNone(ids, NotIn(HeldIds(s, holder)));
  }

  lemma SyncedAllRetained(gs: seq<Grant>, holder: string, ids: seq<Guid>)
    ensures forall x | x in Synced(gs, holder, ids) :: Retained(holder, ids)(x)
  {
    forall x | x in Synced(gs, holder, ids) ensures Retained(holder, ids)(x) {
      if x.holder == holder {
        assert x == Grant(holder, x.permissionId);
        SyncedHolds(gs, holder, ids, x.permissionId);
      }
    }
  }

  /** The source's toRemove test and the Retained test agree on every row. */
  lemma RemovedIsNotRetained(gs: seq<Grant>, holder: string, ids: seq<Guid>)
    ensures Filter(gs, NotRemoved(holder, Except(HeldIds(gs, holder), ids))) == Filter(gs, Retained(holder, ids))
  {
    var toRemove := Except(HeldIds(gs, holder), ids);
    forall x | x in gs ensures NotRemoved(holder, toRemove)(x) == Retained(holder, ids)(x) {
      if x.holder == holder {
        assert x == Grant(holder, x.permissionId);
        HeldIdsMembers(gs, holder, x.permissionId);
      }
    }
    FilterCongruent(gs, NotRemoved(holder, toRemove), Retained(holder, ids));
  }

  /** The body of AssignPermissionsToUserAsync and AssignPermissionsToRoleAsync:
      reads the holder's rows, computes toAdd and toRemove with Except,
      deletes the rows of toRemove and adds a row per toAdd id. */
  method SyncGrants(gs: seq<Grant>, holder: string, ids: seq<Guid>) returns (r: seq<Grant>)
    ensures r == Synced(gs, holder, ids)
  {
    var existing := Keep(gs, HeldBy(holder));
    var existingIds := PermissionIds(existing);
    var toAdd := Except(ids, existingIds);
    var toRemove := Except(existingIds, ids);
    RemovedIsNotRetained(gs, holder, ids);
    r := gs;
    if |toRemove| > 0 {
      r := Keep(gs, NotRemoved(holder, toRemove));
    } else {
      FilterAll(gs, NotRemoved(holder, toRemove));
    }
    r := AddGrants(r, holder, toAdd);
  }

  /** The AddAsync loop: one new row per id, appended in order. */
  method AddGrants(gs: seq<Grant>, holder: string, ids: seq<Guid>) returns (r: seq<Grant>)
    ensures r == gs + NewGrants(holder, ids)
  {
    r := gs;
    for k := 0 to |ids|
      invariant r == gs + NewGrants(holder, ids[..k])
    {
      assert NewGrants(holder, ids[..k + 1]) == NewGrants(holder, ids[..k]) + [Grant(holder, ids[k])];
      r := r + [Grant(holder, ids[k])];
    }
    assert ids[..|ids|] == ids;
  }

  // ---------------------------------------------------------------------
  // Defaults by role

  function EditorMarked(): PermissionDetail -> bool {
    (p: PermissionDetail) => p.byDefault == Some(EditorRole) || p.byDefault == Some(ViewerRole)
  }

  function ViewerMarked(): PermissionDetail -> bool {
    (p: PermissionDetail) => p.byDefault == Some(ViewerRole)
  }

  /** The permissions AssignDefaultPermissionsAsync grants for a role. */
  function DefaultsFor(ps: seq<PermissionDetail>, role: string): (r: seq<PermissionDetail>)
    ensures forall p | p in r :: p in ps && Usable(p)
  {
    var usable := Filter(ps, UsableRow());
    if role == AdminRole then usable
    else if role == EditorRole then Filter(usable, EditorMarked())
    else if role == ViewerRole then Filter(usable, ViewerMarked())
    else []
  }

  /** Which usable permissions each role receives; any other role receives none. */
  lemma DefaultsMembers(ps: seq<PermissionDetail>, role: string, p: PermissionDetail)
    ensures p in DefaultsFor(ps, role) <==>
      p in ps && Usable(p) &&
      (role == AdminRole ||
       (role == EditorRole && (p.byDefault == Some(EditorRole) || p.byDefault == Some(ViewerRole))) ||
       (role == ViewerRole && p.byDefault == Some(ViewerRole)))
  {
  }

  /** A Viewer's defaults are an Editor's, and an Editor's are an Admin's. */
  lemma DefaultsNested(ps: seq<PermissionDetail>)
    ensures forall p | p in DefaultsFor(ps, ViewerRole) :: p in DefaultsFor(ps, EditorRole)
    ensures forall p | p in DefaultsFor(ps, EditorRole) :: p in DefaultsFor(ps, AdminRole)
  {
  }

  function DetailIds(s: seq<PermissionDetail>): (r: seq<Guid>)
    ensures |r| == |s|
    ensures forall i | 0 <= i < |s| :: r[i] == s[i].id
  {
    seq(|s|, i requires 0 <= i < |s| => s[i].id)
  }

  lemma DetailIdsAppend(a: seq<PermissionDetail>, b: seq<PermissionDetail>)
    ensures DetailIds(a + b) == DetailIds(a) + DetailIds(b)
  {
  }

  lemma DetailIdsMembers(s: seq<PermissionDetail>, k: Guid)
    ensures k in DetailIds(s) <==> exists p | p in s :: p.id == k
  {
    if k in DetailIds(s) {
      var i :| 0 <= i < |s| && DetailIds(s)[i] == k;
      assert s[i] in s;
    }
    if exists p | p in s :: p.id == k {
      var p :| p in s && p.id == k;
      var i :| 0 <= i < |s| && s[i] == p;
      assert DetailIds(s)[i] == k;
    }
  }

  // ---------------------------------------------------------------------
  // Effective permissions

  /** A grant's id joined with the permission table and kept when usable. */
  predicate UsableId(ps: seq<PermissionDetail>, k: Guid) {
    var i := FirstIndex(ps, HasId(k));
    i >= 0 && Usable(ps[i])
  }

  /** The inner join of grant ids with the permission table, restricted to
      active, non-deleted permissions; one entry per grant row, in order. */
  function Granted(ids: seq<Guid>, ps: seq<PermissionDetail>): (r: seq<PermissionDetail>)
    ensures forall x | x in r :: x in ps && Usable(x)
    ensures forall k :: k in DetailIds(r) <==> k in ids && UsableId(ps, k)
    decreases |ids|
  {
    if |ids| == 0 then []
    else
      var init, k := ids[..|ids| - 1], ids[|ids| - 1];
      assert ids == init + [k];
      var i := FirstIndex(ps, HasId(k));
      var last := if i >= 0 && Usable(ps[i]) then [ps[i]] else [];
      DetailIdsAppend(Granted(init, ps), last);
      assert DetailIds(last) == if UsableId(ps, k) then [k] else [];
      Granted(init, ps) + last
  }

  /** GroupBy(p => p.Id).Select(g => g.First()): one entry per id, the first
      one, in order of first occurrence. */
  function DistinctById(s: seq<PermissionDetail>): (r: seq<PermissionDetail>)
    ensures NoDuplicates(DetailIds(r))
    ensures forall x | x in r :: x in s
    ensures forall k :: k in DetailIds(r) <==> k in DetailIds(s)
    decreases |s|
  {
    if |s| == 0 then []
    else
      var init, x := s[..|s| - 1], s[|s| - 1];
      assert s == init + [x];
      var r := DistinctById(init);
      DetailIdsAppend(init, [x]);
      DetailIdsAppend(r, [x]);
      if x.id in DetailIds(r) then r else r + [x]
  }

  /** The entry kept for an id is its first occurrence. */
  lemma {:induction false} DistinctByIdFirst(s: seq<PermissionDetail>, x: PermissionDetail)
    requires x in DistinctById(s)
    ensures FirstIndex(s, HasId(x.id)) >= 0 && s[FirstIndex(s, HasId(x.id))] == x
    decreases |s|
  {
    var init, y := s[..|s| - 1], s[|s| - 1];
    assert s == init + [y];
    var r := DistinctById(init);
    DetailIdsAppend(init, [y]);
    DetailIdsAppend(r, [y]);
    if x in r {
      DistinctByIdFirst(init, x);
      FirstIndexPrefix(init, [y], HasId(x.id));
    } else {
      assert x == y && y.id !in DetailIds(r);
      assert y.id !in DetailIds(init);
      forall j | 0 <= j < |init| ensures !HasId(x.id)(init[j]) {
        assert DetailIds(init)[j] == init[j].id;
      }
      FirstIndexSnoc(init, y, HasId(x.id));
    }
  }

  lemma FirstIndexPrefix<T>(a: seq<T>, b: seq<T>, p: T -> bool)
    requires FirstIndex(a, p) >= 0
    ensures FirstIndex(a + b, p) == FirstIndex(a, p)
  {
    var i := FirstIndex(a, p);
    assert (a + b)[i] == a[i];
    assert forall j | 0 <= j < i :: (a + b)[j] == a[j];
  }

  lemma FirstIndexSnoc<T>(a: seq<T>, y: T, p: T -> bool)
    requires forall j | 0 <= j < |a| :: !p(a[j])
    requires p(y)
    ensures FirstIndex(a + [y], p) == |a|
  {
    assert (a + [y])[|a|] == y;
    assert forall j | 0 <= j < |a| :: (a + [y])[j] == a[j];
  }

  /** Appending entries keeps what was already chosen, in place: the earlier
      list wins every id it has. */
  lemma {:induction false} DistinctByIdPrefix(a: seq<PermissionDetail>, b: seq<PermissionDetail>)
    ensures |DistinctById(a)| <= |DistinctById(a + b)|
    ensures DistinctById(a + b)[..|DistinctById(a)|] == DistinctById(a)
    decreases |b|
  {
    if |b| == 0 {
      assert a + b == a;
    } else {
      var init := b[..|b| - 1];
      assert (a + b)[..|a + b| - 1] == a + init;
      DistinctByIdPrefix(a, init);
    }
  }

  /** Entries with distinct ids are kept as they are. */
  lemma {:induction false} DistinctByIdUnique(s: seq<PermissionDetail>)
    requires NoDuplicates(DetailIds(s))
    ensures DistinctById(s) == s
    decreases |s|
  {
    if |s| > 0 {
      var init, x := s[..|s| - 1], s[|s| - 1];
      assert s == init + [x];
      DetailIdsAppend(init, [x]);
      assert DetailIds(init) == DetailIds(s)[..|s| - 1];
      DistinctByIdUnique(init);
      assert DetailIds(s)[|s| - 1] == x.id;
      assert forall j | 0 <= j < |init| :: DetailIds(init)[j] == DetailIds(s)[j];
    }
  }

  function MemberIs(userId: string): Membership -> bool {
    (m: Membership) => m.userId == userId
  }

  /** The user's group ids (UserGroup rows). */
  function GroupsOf(ms: seq<Membership>, userId: string): (r: seq<Guid>)
    ensures forall g :: g in r ==> Membership(userId, g) in ms
  {
    var mine := Filter(ms, MemberIs(userId));
    var r := seq(|mine|, i requires 0 <= i < |mine| => mine[i].groupId);
    forall g | g in r ensures Membership(userId, g) in ms {
      var i :| 0 <= i < |r| && r[i] == g;
      assert mine[i] in mine;
      assert mine[i] == Membership(userId, g);
    }
    r
  }

  lemma GroupsOfMembers(ms: seq<Membership>, userId: string, g: Guid)
    ensures g in GroupsOf(ms, userId) <==> Membership(userId, g) in ms
  {
    var mine := Filter(ms, MemberIs(userId));
    if Membership(userId, g) in ms {
      assert Membership(userId, g) in mine;
      var k :| 0 <= k < |mine| && mine[k] == Membership(userId, g);
      assert GroupsOf(ms, userId)[k] == g;
    }
  }

  function InGroups(groups: seq<Guid>): GroupGrant -> bool {
    (g: GroupGrant) => g.groupId in groups
  }

  /** The ids granted to any of the groups, one per GroupPermission row. */
  function GroupPermissionIds(gg: seq<GroupGrant>, groups: seq<Guid>): (r: seq<Guid>)
    ensures forall k :: k in r <==> exists g :: g in groups && GroupGrant(g, k) in gg
  {
    var rows := Filter(gg, InGroups(groups));
    var r := seq(|rows|, i requires 0 <= i < |rows| => rows[i].permissionId);
    forall k ensures k in r <==> exists g :: g in groups && GroupGrant(g, k) in gg {
      if k in r {
        var i :| 0 <= i < |rows| && r[i] == k;
        assert rows[i] in rows;
        assert rows[i] == GroupGrant(rows[i].groupId, k);
      }
      if exists g :: g in groups && GroupGrant(g, k) in gg {
        var g :| g in groups && GroupGrant(g, k) in gg;
        assert GroupGrant(g, k) in rows;
        var i :| 0 <= i < |rows| && rows[i] == GroupGrant(g, k);
        assert r[i] == k;
      }
    }
    r
  }

  /** The user's direct grants, as permissions. */
  function DirectPermissions(userGrants: seq<Grant>, ps: seq<PermissionDetail>, userId: string): seq<PermissionDetail> {
    Granted(HeldIds(userGrants, userId), ps)
  }

  /** GetPermissionsByUserIdAsync: direct grants, then the grants of the
      user's groups, each distinct id once. */
  function UserPermissions(userGrants: seq<Grant>, groupGrants: seq<GroupGrant>, ms: seq<Membership>,
                           ps: seq<PermissionDetail>, userId: string): seq<PermissionDetail> {
    DistinctById(DirectPermissions(userGrants, ps, userId) +
                 Granted(GroupPermissionIds(groupGrants, GroupsOf(ms, userId)), ps))
  }

  /** A user has a permission exactly when it is usable and granted to the
      user directly or to one of the user's groups; no id appears twice. */
  lemma UserPermissionIds(userGrants: seq<Grant>, groupGrants: seq<GroupGrant>, ms: seq<Membership>,
                          ps: seq<PermissionDetail>, userId: string, k: Guid)
    ensures var r := UserPermissions(userGrants, groupGrants, ms, ps, userId);
      NoDuplicates(DetailIds(r)) &&
      (k in DetailIds(r) <==>
        UsableId(ps, k) &&
        (Grant(userId, k) in userGrants ||
         exists g :: Membership(userId, g) in ms && GroupGrant(g, k) in groupGrants))
  {
    var direct := DirectPermissions(userGrants, ps, userId);
    var viaGroups := Granted(GroupPermissionIds(groupGrants, GroupsOf(ms, userId)), ps);
    DetailIdsAppend(direct, viaGroups);
    HeldIdsMembers(userGrants, userId, k);
    if exists g :: Membership(userId, g) in ms && GroupGrant(g, k) in groupGrants {
      var g :| Membership(userId, g) in ms && GroupGrant(g, k) in groupGrants;
      GroupsOfMembers(ms, userId, g);
    }
  }

  /** Direct grants come first: the user's distinct direct permissions open the list. */
  lemma DirectPermissionsFirst(userGrants: seq<Grant>, groupGrants: seq<GroupGrant>, ms: seq<Membership>,
                               ps: seq<PermissionDetail>, userId: string)
    ensures var d := DistinctById(DirectPermissions(userGrants, ps, userId));
      var r := UserPermissions(userGrants, groupGrants, ms, ps, userId);
      |d| <= |r| && r[..|d|] == d
  {
    DistinctByIdPrefix(DirectPermissions(userGrants, ps, userId),
                       Granted(GroupPermissionIds(groupGrants, GroupsOf(ms, userId)), ps));
  }

  /** GetPermissionsByRoleIdAsync: the role's grants, usable ones only, with no
      de-duplication. */
  function RolePermissions(roleGrants: seq<Grant>, ps: seq<PermissionDetail>, roleId: string): (r: seq<PermissionDetail>)
    ensures forall x | x in r :: x in ps && Usable(x)
    ensures forall k :: k in DetailIds(r) <==> Grant(roleId, k) in roleGrants && UsableId(ps, k)
  {
    forall k ensures k in HeldIds(roleGrants, roleId) <==> Grant(roleId, k) in roleGrants {
      HeldIdsMembers(roleGrants, roleId, k);
    }
    Granted(HeldIds(roleGrants, roleId), ps)
  }

  // ---------------------------------------------------------------------
  // The service's tables

  class PermissionStore {
    var permissions: seq<PermissionDetail>
    var userGrants: seq<Grant>
    var roleGrants: seq<Grant>
    var groupGrants: seq<GroupGrant>
    var memberships: seq<Membership>

    ghost predicate Valid()
      reads this
    {
      UniqueIds(permissions)
    }

    constructor ()
      ensures Valid()
      ensures permissions == [] && userGrants == [] && roleGrants == []
      ensures groupGrants == [] && memberships == []
    {
      permissions := [];
      userGrants := [];
      roleGrants := [];
      groupGrants := [];
      memberships := [];
    }

    /** CreatePermissionAsync: a new row, not deleted, created and updated now;
        `id` is the key the database generates. */
    method CreatePermission(name: string, isActive: bool, byDefault: Option<string>, id: Guid, now: Ticks)
      returns (r: PermissionDetail)
      requires Valid()
      requires forall p | p in permissions :: p.id != id
      modifies this
      ensures Valid()
      ensures r == PermissionDetail(id, name, false, isActive, now, now, byDefault)
      ensures permissions == old(permissions) + [r]
      ensures PermissionById(permissions, id) == Ok(r)
      ensures userGrants == old(userGrants) && roleGrants == old(roleGrants)
      ensures groupGrants == old(groupGrants) && memberships == old(memberships)
    {
      r := PermissionDetail(id, name, false, isActive, now, now, byDefault);
      assert forall j | 0 <= j < |permissions| :: permissions[j] in permissions;
      permissions := permissions + [r];
      assert FirstIndex(permissions, LiveWithId(id)) == |permissions| - 1 by {
        FirstIndexSnoc(old(permissions), r, LiveWithId(id));
      }
    }

    /** UpdatePermissionAsync: a missing or deleted permission is not found;
        otherwise the supplied fields are written. */
    method UpdatePermission(id: Guid, name: Option<string>, isActive: Option<bool>,
                            isDeleted: Option<bool>, byDefault: Option<string>, now: Ticks)
      returns (r: Result<PermissionDetail>)
      requires Valid()
      modifies this
      ensures Valid()
      ensures var i := FirstIndex(old(permissions), LiveWithId(id));
        (i < 0 ==> r == Err(NotFoundMessage) && permissions == old(permissions)) &&
        (i >= 0 ==> r == Ok(Updated(old(permissions)[i], name, isActive, isDeleted, byDefault, now)) &&
                    permissions == old(permissions)[i := r.value])
      ensures userGrants == old(userGrants) && roleGrants == old(roleGrants)
      ensures groupGrants == old(groupGrants) && memberships == old(memberships)
    {
      var i := FirstIndex(permissions, LiveWithId(id));
      if i < 0 {
        return Err(NotFoundMessage);
      }
      var p := Updated(permissions[i], name, isActive, isDeleted, byDefault, now);
      SameIdKeepsUnique(permissions, i, p);
      permissions := permissions[i := p];
      r := Ok(p);
    }

    /** DeletePermissionAsync: a soft delete; a missing or already deleted
        permission is not found. */
    method DeletePermission(id: Guid, now: Ticks) returns (r: Result<()>)
      requires Valid()
      modifies this
      ensures Valid()
      ensures var i := FirstIndex(old(permissions), HasId(id));
        (i < 0 || old(permissions)[i].isDeleted ==> r == Err(NotFoundMessage) && permissions == old(permissions)) &&
        (i >= 0 && !old(permissions)[i].isDeleted ==>
          r == Ok(()) &&
          permissions == old(permissions)[i := old(permissions)[i].(isDeleted := true, updatedAt := now)])
      ensures r.Ok? <==> old(PermissionById(permissions, id)).Ok?
      ensures PermissionById(permissions, id).Err?
      ensures userGrants == old(userGrants) && roleGrants == old(roleGrants)
      ensures groupGrants == old(groupGrants) && memberships == old(memberships)
    {
      DeleteLookupAgrees(permissions, id);
      var i := FirstIndex(permissions, HasId(id));
      if i < 0 || permissions[i].isDeleted {
        return Err(NotFoundMessage);
      }
      SoftDeletedInvisible(permissions, i, now);
      var p := permissions[i].(isDeleted := true, updatedAt := now);
      SameIdKeepsUnique(permissions, i, p);
      permissions := permissions[i := p];
      r := Ok(());
    }

    /** AssignPermissionsToUserAsync. */
    method AssignPermissionsToUser(userId: string, ids: seq<Guid>)
      modifies this
      ensures userGrants == Synced(old(userGrants), userId, ids)
      ensures permissions == old(permissions) && roleGrants == old(roleGrants)
      ensures groupGrants == old(groupGrants) && memberships == old(memberships)
    {
      userGrants := SyncGrants(userGrants, userId, ids);
    }

    /** AssignPermissionsToRoleAsync. */
    method AssignPermissionsToRole(roleId: string, ids: seq<Guid>)
      modifies this
      ensures roleGrants == Synced(old(roleGrants), roleId, ids)
      ensures permissions == old(permissions) && userGrants == old(userGrants)
      ensures groupGrants == old(groupGrants) && memberships == old(memberships)
    {
      roleGrants := SyncGrants(roleGrants, roleId, ids);
    }

    /** AssignDefaultPermissionsAsync: one row per default permission of the
        role, appended to what the user already has. */
    method AssignDefaultPermissions(userId: string, role: string)
      modifies this
      ensures userGrants == old(userGrants) + NewGrants(userId, DetailIds(DefaultsFor(old(permissions), role)))
      ensures permissions == old(permissions) && roleGrants == old(roleGrants)
      ensures groupGrants == old(groupGrants) && memberships == old(memberships)
    {
      var defaults := DefaultsFor(permissions, role);
      userGrants := AddGrants(userGrants, userId, DetailIds(defaults));
    }
  }

  /** After the defaults are assigned the user holds each of them. */
  lemma DefaultsHeld(gs: seq<Grant>, ps: seq<PermissionDetail>, userId: string, role: string, p: PermissionDetail)
    requires p in DefaultsFor(ps, role)
    ensures Grant(userId, p.id) in gs + NewGrants(userId, DetailIds(DefaultsFor(ps, role)))
  {
    DetailIdsMembers(DefaultsFor(ps, role), p.id);
    NewGrantsMembers(userId, DetailIds(DefaultsFor(ps, role)), Grant(userId, p.id));
  }
}

/** GroupService: the groups of a company (soft-deleted; names stored trimmed,
    distinct ignoring case among live groups, "viewer" reserved) and the permission set of each
    group. The requesting user is represented by their CompanyId: `None`
    when the user is unknown or belongs to no company. */
module Groups {
  import opened Wrappers
  import opened Base
  import opened Seqs
  import opened Sorting
  import opened Text
  import opened Permissions

  datatype Group = Group(
    id: Guid, name: string, isActive: bool, isDeleted: bool,
    createdAt: Ticks, updatedAt: Ticks, companyId: Guid)

  /** The message of a parameterless UnauthorizedAccessException. */
  const UnauthorizedMessage: string := "Attempted to perform an unauthorized operation."
  const GroupMissingMessage: string := "Group not found"
  const ReservedMessage: string := "The group name 'Viewer' is reserved."
  const DuplicateMessage: string := "A group with this name already exists."

  /** The lower-cased reserved name. */
  const ReservedName: string := "viewer"

  /** A group the company's users can see: theirs and not deleted. */
  predicate Live(g: Group, company: Guid) {
    g.companyId == company && !g.isDeleted
  }

  function VisibleIn(company: Guid): Group -> bool {
    (g: Group) => Live(g, company)
  }

  function VisibleWithId(id: Guid, company: Guid): Group -> bool {
    (g: Group) => g.id == id && Live(g, company)
  }

  /** A live group of the company, other than `except`, whose name equals
      `lower` once lower-cased. */
  function Clash(lower: string, company: Guid, except: Option<Guid>): Group -> bool {
    (g: Group) => Lower(g.name) == lower && Live(g, company) && (except.None? || g.id != except.value)
  }

  /** createDto.Name?.Trim() ?? string.Empty */
  function NameOf(name: Option<string>): (r: string)
    ensures name.Some? ==> r == Trim(name.value)
    ensures name.None? ==> r == ""
  {
    match name
    case Some(n) => Trim(n)
    case None => ""
  }

  /** The name checks of create and update, in the source's order: the
      reserved name first, then a clash with another live group. */
  function NameCheck(gs: seq<Group>, name: string, company: Guid, except: Option<Guid>): Option<string> {
    if Lower(name) == ReservedName then Some(ReservedMessage)
    else if FirstIndex(gs, Clash(Lower(name), company, except)) >= 0 then Some(DuplicateMessage)
    else None
  }

  /** A name passes exactly when it is not "viewer" in any case and no other
      live group of the company has it, ignoring case. */
  lemma NameCheckPasses(gs: seq<Group>, name: string, company: Guid, except: Option<Guid>)
    ensures NameCheck(gs, name, company, except).None? <==>
      Lower(name) != ReservedName &&
      forall g | g in gs && Live(g, company) && (except.None? || g.id != except.value) ::
        Lower(g.name) != Lower(name)
  {
    if NameCheck(gs, name, company, except).None? {
      forall g | g in gs && Live(g, company) && (except.None? || g.id != except.value)
        ensures Lower(g.name) != Lower(name)
      {
        var k :| 0 <= k < |gs| && gs[k] == g;
        assert !Clash(Lower(name), company, except)(gs[k]);
      }
    }
  }

  // ---------------------------------------------------------------------
  // The invariant the name rules keep

  predicate UniqueIds(gs: seq<Group>) {
    forall i, j | 0 <= i < j < |gs| :: gs[i].id != gs[j].id
  }

  /** No two live groups of one company share a name, ignoring case. */
  predicate DistinctNames(gs: seq<Group>) {
    forall i, j | 0 <= i < j < |gs| && !gs[i].isDeleted && !gs[j].isDeleted &&
                  gs[i].companyId == gs[j].companyId ::
      Lower(gs[i].name) != Lower(gs[j].name)
  }

  /** No stored name is the reserved one. */
  predicate StoredNames(gs: seq<Group>) {
    forall g | g in gs :: Lower(g.name) != ReservedName
  }

  predicate ValidGroups(gs: seq<Group>) {
    UniqueIds(gs) && DistinctNames(gs) && StoredNames(gs)
  }

  /** Appending a group whose name passed the check keeps the invariant. */
  lemma AddedValid(gs: seq<Group>, g: Group)
    requires ValidGroups(gs)
    requires forall h | h in gs :: h.id != g.id
    requires !g.isDeleted
    requires NameCheck(gs, g.name, g.companyId, None).None?
    ensures ValidGroups(gs + [g])
  {
    NameCheckPasses(gs, g.name, g.companyId, None);
    var hs := gs + [g];
    forall i, j | 0 <= i < j < |hs| ensures hs[i].id != hs[j].id {
      if j == |gs| {
        assert hs[i] in gs;
      }
    }
    forall i, j | 0 <= i < j < |hs| && !hs[i].isDeleted && !hs[j].isDeleted &&
                  hs[i].companyId == hs[j].companyId
      ensures Lower(hs[i].name) != Lower(hs[j].name)
    {
      if j == |gs| {
        assert hs[i] in gs && Live(hs[i], g.companyId);
      }
    }
  }

  /** Replacing row i by a row of the same id, company and deletion state
      whose name is unchanged or passed the check (excluding the group
      itself) keeps the invariant. */
  lemma ReplacedValid(gs: seq<Group>, i: nat, g: Group)
    requires ValidGroups(gs) && i < |gs|
    requires g.id == gs[i].id && g.companyId == gs[i].companyId && g.isDeleted == gs[i].isDeleted
    requires g.name == gs[i].name || NameCheck(gs, g.name, g.companyId, Some(g.id)).None?
    ensures ValidGroups(gs[i := g])
  {
    NameCheckPasses(gs, g.name, g.companyId, Some(g.id));
    var hs := gs[i := g];
    forall a, b | 0 <= a < b < |hs| ensures hs[a].id != hs[b].id {
      assert hs[a].id == gs[a].id && hs[b].id == gs[b].id;
    }
    forall a, b | 0 <= a < b < |hs| && !hs[a].isDeleted && !hs[b].isDeleted &&
                  hs[a].companyId == hs[b].companyId
      ensures Lower(hs[a].name) != Lower(hs[b].name)
    {
      if a == i && g.name != gs[i].name {
        assert gs[b] in gs && gs[b].id != g.id;
      } else if b == i && g.name != gs[i].name {
        assert gs[a] in gs && gs[a].id != g.id;
      }
    }
    forall h | h in hs ensures Lower(h.name) != ReservedName {
      var k :| 0 <= k < |hs| && hs[k] == h;
      if k != i {
        assert gs[k] in gs;
      } else {
        assert gs[i] in gs;
      }
    }
  }

  /** Marking a row deleted keeps the invariant. */
  lemma DeletedValid(gs: seq<Group>, i: nat, now: Ticks)
    requires ValidGroups(gs) && i < |gs|
    ensures ValidGroups(gs[i := gs[i].(isDeleted := true, updatedAt := now)])
  {
    var hs := gs[i := gs[i].(isDeleted := true, updatedAt := now)];
    forall a, b | 0 <= a < b < |hs| ensures hs[a].id != hs[b].id {
      assert hs[a].id == gs[a].id && hs[b].id == gs[b].id;
    }
    forall h | h in hs ensures Lower(h.name) != ReservedName {
      var k :| 0 <= k < |hs| && hs[k] == h;
      assert gs[k] in gs;
    }
  }

  // ---------------------------------------------------------------------
  // Queries

  function NewestFirst(): (Group, Group) -> bool {
    (a: Group, b: Group) => a.createdAt >= b.createdAt
  }

  /** GetAllGroupsAsync: the company's live groups, newest first; nothing for
      a user without a company. */
  function AllGroups(gs: seq<Group>, company: Option<Guid>): (r: seq<Group>)
    ensures company.None? ==> r == []
    ensures company.Some? ==> multiset(r) == multiset(Filter(gs, VisibleIn(company.value)))
    ensures forall g :: g in r <==> company.Some? && g in gs && Live(g, company.value)
    ensures SortedBy(r, NewestFirst())
  {
    match company
    case None => []
    case Some(c) =>
      var live := Filter(gs, VisibleIn(c));
      var r := SortBy(live, NewestFirst());
      forall g ensures g in r <==> g in live {
        SortByMembers(live, NewestFirst(), g);
      }
      r
  }

  /** GetGroupByIdAsync. */
  function GroupById(gs: seq<Group>, id: Guid, company: Option<Guid>): (r: Result<Group>)
    ensures company.None? ==> r == Err(UnauthorizedMessage)
    ensures company.Some? ==>
      (r.Ok? <==> exists g | g in gs :: g.id == id && Live(g, company.value))
    ensures company.Some? && r.Err? ==> r.message == GroupMissingMessage
    ensures r.Ok? ==> r.value in gs && r.value.id == id && Live(r.value, company.value)
  {
    match company
    case None => Err(UnauthorizedMessage)
    case Some(c) =>
      var i := FirstIndex(gs, VisibleWithId(id, c));
      if i < 0 then Err(GroupMissingMessage) else Ok(gs[i])
  }

  /** A deleted group is invisible: not listed, not found, and so neither
      updated, deleted again nor given permissions. */
  lemma DeletedInvisible(gs: seq<Group>, i: nat, now: Ticks, company: Option<Guid>)
    requires UniqueIds(gs) && i < |gs|
    ensures var hs := gs[i := gs[i].(isDeleted := true, updatedAt := now)];
      (company.Some? ==> FirstIndex(hs, VisibleWithId(gs[i].id, company.value)) < 0) &&
      GroupById(hs, gs[i].id, company).Err? &&
      forall g | g in AllGroups(hs, company) :: g.id != gs[i].id
  {
    var hs := gs[i := gs[i].(isDeleted := true, updatedAt := now)];
    forall g | g in hs && g.id == gs[i].id ensures g.isDeleted {
      var k :| 0 <= k < |hs| && hs[k] == g;
      if k != i {
        assert gs[k].id == gs[i].id;
      }
    }
  }

  function OfGroup(groupId: Guid): GroupGrant -> bool {
    (g: GroupGrant) => g.groupId == groupId
  }

  function OtherGroup(groupId: Guid): GroupGrant -> bool {
    (g: GroupGrant) => g.groupId != groupId
  }

  /** Select(gp => gp.PermissionDetailId). */
  function GrantIds(gg: seq<GroupGrant>): (r: seq<Guid>)
    ensures |r| == |gg|
    ensures forall i | 0 <= i < |gg| :: r[i] == gg[i].permissionId
  {
    seq(|gg|, i requires 0 <= i < |gg| => gg[i].permissionId)
  }

  /** The permission ids of a group's rows, in table order. */
  function GroupPermissions(gg: seq<GroupGrant>, groupId: Guid): seq<Guid> {
    GrantIds(Filter(gg, OfGroup(groupId)))
  }

  /** GetPermissionsByGroupIdAsync. */
  function PermissionsByGroupId(gs: seq<Group>, gg: seq<GroupGrant>, groupId: Guid,
                                company: Option<Guid>): (r: Result<seq<Guid>>)
    ensures r.Ok? <==> GroupById(gs, groupId, company).Ok?
    ensures r.Err? ==> r.message == GroupById(gs, groupId, company).message
    ensures r.Ok? ==> r.value == GroupPermissions(gg, groupId)
  {
    match GroupById(gs, groupId, company)
    case Err(m) => Err(m)
    case Ok(_) => Ok(GroupPermissions(gg, groupId))
  }

  function GroupRows(groupId: Guid, ids: seq<Guid>): (r: seq<GroupGrant>)
    ensures |r| == |ids|
    ensures forall i | 0 <= i < |ids| :: r[i] == GroupGrant(groupId, ids[i])
  {
    seq(|ids|, i requires 0 <= i < |ids| => GroupGrant(groupId, ids[i]))
  }

  /** The table after AssignPermissionsToGroupAsync: every row of the group
      deleted, then one row per given id (duplicates included). */
  function Replaced(gg: seq<GroupGrant>, groupId: Guid, ids: seq<Guid>): seq<GroupGrant> {
    Filter(gg, OtherGroup(groupId)) + GroupRows(groupId, ids)
  }

  lemma GroupRowsOf(groupId: Guid, ids: seq<Guid>)
    ensures forall x | x in GroupRows(groupId, ids) :: x.groupId == groupId
  {
    forall x | x in GroupRows(groupId, ids) ensures x.groupId == groupId {
      var k :| 0 <= k < |ids| && GroupRows(groupId, ids)[k] == x;
    }
  }

  /** The group's permission list becomes exactly the given list. */
  lemma ReplacedPermissions(gg: seq<GroupGrant>, groupId: Guid, ids: seq<Guid>)
    ensures GroupPermissions(Replaced(gg, groupId, ids), groupId) == ids
  {
    var rest := Filter(gg, OtherGroup(groupId));
    var rows := GroupRows(groupId, ids);
    FilterAppend(rest, rows, OfGroup(groupId));
    FilterNone(rest, OfGroup(groupId));
    GroupRowsOf(groupId, ids);
    FilterAll(rows, OfGroup(groupId));
    assert Filter(Replaced(gg, groupId, ids), OfGroup(groupId)) == rows;
    RowIds(groupId, ids);
  }

  lemma RowIds(groupId: Guid, ids: seq<Guid>)
    ensures GrantIds(GroupRows(groupId, ids)) == ids
  {
  }

  /** Reading a group's permissions back after assigning them returns the
      list as given. */
  lemma AssignedReadBack(gs: seq<Group>, gg: seq<GroupGrant>, groupId: Guid, ids: seq<Guid>, company: Option<Guid>)
    requires GroupById(gs, groupId, company).Ok?
    ensures PermissionsByGroupId(gs, Replaced(gg, groupId, ids), groupId, company) == Ok(ids)
  {
    ReplacedPermissions(gg, groupId, ids);
  }

  /** Other groups keep their rows, in order. */
  lemma ReplacedOthers(gg: seq<GroupGrant>, groupId: Guid, ids: seq<Guid>, other: Guid)
    requires other != groupId
    ensures Filter(Replaced(gg, groupId, ids), OfGroup(other)) == Filter(gg, OfGroup(other))
  {
    FilterAppend(Filter(gg, OtherGroup(groupId)), GroupRows(groupId, ids), OfGroup(other));
    GroupRowsOf(groupId, ids);
    FilterNone(GroupRows(groupId, ids), OfGroup(other));
    FilterFilter(gg, OtherGroup(groupId), OfGroup(other), OfGroup(other));
  }

  /** Reassigning the same list yields the same table. */
  lemma ReplacedIdempotent(gg: seq<GroupGrant>, groupId: Guid, ids: seq<Guid>)
    ensures Replaced(Replaced(gg, groupId, ids), groupId, ids) == Replaced(gg, groupId, ids)
  {
    var rest := Filter(gg, OtherGroup(groupId));
    var rows := GroupRows(groupId, ids);
    FilterAppend(rest, rows, OtherGroup(groupId));
    FilterAll(rest, OtherGroup(groupId));
    GroupRowsOf(groupId, ids);
    FilterNone(rows, OtherGroup(groupId));
    assert Filter(Replaced(gg, groupId, ids), OtherGroup(groupId)) == rest;
  }

  // ---------------------------------------------------------------------
  // The service's tables

  class GroupStore {
    var groups: seq<Group>
    var groupGrants: seq<GroupGrant>

    ghost predicate Valid()
      reads this
    {
      ValidGroups(groups)
    }

    constructor ()
      ensures Valid() && groups == [] && groupGrants == []
    {
      groups := [];
      groupGrants := [];
    }

    /** CreateGroupAsync: the trimmed name must pass the name checks; the
        group is live, of the user's company, created and updated now. `id`
        is the fresh Guid. */
    method CreateGroup(name: Option<string>, isActive: bool, company: Option<Guid>, id: Guid, now: Ticks)
      returns (r: Result<Group>)
      requires Valid()
      requires forall g | g in groups :: g.id != id
      modifies this
      ensures Valid()
      ensures groupGrants == old(groupGrants)
      ensures company.None? ==> r == Err(UnauthorizedMessage) && groups == old(groups)
      ensures company.Some? && NameCheck(old(groups), NameOf(name), company.value, None).Some? ==>
        r == Err(NameCheck(old(groups), NameOf(name), company.value, None).value) && groups == old(groups)
      ensures company.Some? && NameCheck(old(groups), NameOf(name), company.value, None).None? ==>
        r == Ok(Group(id, NameOf(name), isActive, false, now, now, company.value)) &&
        groups == old(groups) + [r.value]
    {
      if company.None? {
        return Err(UnauthorizedMessage);
      }
      var trimmed := NameOf(name);
      var check := NameCheck(groups, trimmed, company.value, None);
      if check.Some? {
        return Err(check.value);
      }
      var g := Group(id, trimmed, isActive, false, now, now, company.value);
      AddedValid(groups, g);
      groups := groups + [g];
      r := Ok(g);
    }

    /** UpdateGroupAsync: a non-blank name is trimmed and checked against the
        other groups; IsActive changes only when supplied. */
    method UpdateGroup(id: Guid, name: Option<string>, isActive: Option<bool>, company: Option<Guid>, now: Ticks)
      returns (r: Result<Group>)
      requires Valid()
      modifies this
      ensures Valid()
      ensures groupGrants == old(groupGrants)
      ensures r.Err? ==> groups == old(groups)
      ensures company.None? ==> r == Err(UnauthorizedMessage)
      ensures company.Some? ==>
        var i := FirstIndex(old(groups), VisibleWithId(id, company.value));
        var renamed := name.Some? && !IsBlank(name.value);
        var check := NameCheck(old(groups), NameOf(name), company.value, Some(id));
        (i < 0 ==> r == Err(GroupMissingMessage)) &&
        (i >= 0 && renamed && check.Some? ==> r == Err(check.value)) &&
        (i >= 0 && !(renamed && check.Some?) ==>
          r == Ok(old(groups)[i].(name := if renamed then NameOf(name) else old(groups)[i].name,
                                  isActive := isActive.GetOr(old(groups)[i].isActive),
                                  updatedAt := now)) &&
          groups == old(groups)[i := r.value])
    {
      if company.None? {
        return Err(UnauthorizedMessage);
      }
      var i := FirstIndex(groups, VisibleWithId(id, company.value));
      if i < 0 {
        return Err(GroupMissingMessage);
      }
      var g := groups[i];
      if name.Some? && !IsBlank(name.value) {
        var trimmed := Trim(name.value);
        var check := NameCheck(groups, trimmed, company.value, Some(id));
        if check.Some? {
          return Err(check.value);
        }
        g := g.(name := trimmed);
      }
      if isActive.Some? {
        g := g.(isActive := isActive.value);
      }
      g := g.(updatedAt := now);
      ReplacedValid(groups, i, g);
      groups := groups[i := g];
      r := Ok(g);
    }

    /** DeleteGroupAsync: a soft delete; false when there is no such live
        group of the company. */
    method DeleteGroup(id: Guid, company: Option<Guid>, now: Ticks) returns (r: Result<bool>)
      requires Valid()
      modifies this
      ensures Valid()
      ensures groupGrants == old(groupGrants)
      ensures company.None? ==> r == Err(UnauthorizedMessage) && groups == old(groups)
      ensures company.Some? ==>
        var i := FirstIndex(old(groups), VisibleWithId(id, company.value));
        (i < 0 ==> r == Ok(false) && groups == old(groups)) &&
        (i >= 0 ==> r == Ok(true) &&
                    groups == old(groups)[i := old(groups)[i].(isDeleted := true, updatedAt := now)])
    {
      if company.None? {
        return Err(UnauthorizedMessage);
      }
      var i := FirstIndex(groups, VisibleWithId(id, company.value));
      if i < 0 {
        return Ok(false);
      }
      DeletedValid(groups, i, now);
      groups := groups[i := groups[i].(isDeleted := true, updatedAt := now)];
      r := Ok(true);
    }

    /** AssignPermissionsToGroupAsync: deletes the group's rows one by one,
        then adds one row per given id. */
    method AssignPermissionsToGroup(groupId: Guid, ids: seq<Guid>, company: Option<Guid>)
      returns (r: Result<()>)
      requires Valid()
      modifies this
      ensures groups == old(groups)
      ensures GroupById(groups, groupId, company).Err? ==>
        r == Err(GroupById(groups, groupId, company).message) && groupGrants == old(groupGrants)
      ensures GroupById(groups, groupId, company).Ok? ==>
        r == Ok(()) && groupGrants == Replaced(old(groupGrants), groupId, ids)
    {
      var found := GroupById(groups, groupId, company);
      if found.Err? {
        return Err(found.message);
      }
      var kept := Keep(groupGrants, OtherGroup(groupId));
      groupGrants := AddGroupRows(kept, groupId, ids);
      r := Ok(());
    }
  }

  /** The AddAsync loop of AssignPermissionsToGroupAsync. */
  method AddGroupRows(gg: seq<GroupGrant>, groupId: Guid, ids: seq<Guid>) returns (r: seq<GroupGrant>)
    ensures r == gg + GroupRows(groupId, ids)
  {
    r := gg;
    for k := 0 to |ids|
      invariant r == gg + GroupRows(groupId, ids[..k])
    {
      assert GroupRows(groupId, ids[..k + 1]) == GroupRows(groupId, ids[..k]) + [GroupGrant(groupId, ids[k])];
      r := r + [GroupGrant(groupId, ids[k])];
    }
    assert ids[..|ids|] == ids;
  }
}

/** UserManagementService: the user list a requester may see, reading one
    user, and creating, updating, deleting and (de)activating users, each
    confined to the requester's company unless the requester is a
    SuperAdmin. Identity's UpdateAsync, CreateAsync and DeleteAsync are
    modelled by the error descriptions they report, which are parameters;
    the new user's id, the random draws, the password hasher and the
    culture's string ordering are parameters too. */
module UserManagement {
  import opened Wrappers
  import opened Base
  import opened Seqs
  import opened Text
  import opened Sorting
  import opened Accounts
  import opened TempPasswords
  import opened Shuffles
  import Permissions
  import Groups
  import Login

  /** UserResponseDto as the service fills it (the Company navigation and
      CreatedAt are not loaded). */
  datatype UserView = UserView(
    id: string, firstName: string, lastName: string, email: string, role: string,
    groupId: Option<Guid>, groupName: Option<string>, isActive: bool, isApproved: bool)

  /** CreateUserDto; a null last name is `None`. */
  datatype CreateRequest = CreateRequest(
    firstName: string, lastName: Option<string>, email: string, role: string,
    groupId: Option<Guid>, isActive: bool)

  /** UpdateUserDto; every field may be null. */
  datatype UpdateRequest = UpdateRequest(
    firstName: Option<string>, lastName: Option<string>, role: Option<string>,
    groupId: Option<Guid>, isActive: Option<bool>)

  const RequesterNotFoundMessage: string := "Requesting user not found."
  const NoCompanyMessage: string := "Requesting user has no company association."
  const EmailExistsMessage: string := "A user with this email already exists."
  const SelfDeleteMessage: string := "You cannot delete your own account."
  const LastAdminMessage: string := "Cannot delete the last admin user in the organization."
  const SelfDeactivateMessage: string := "You cannot deactivate your own account."
  /** The length UserManagementService asks GenerateTempPassword for. */
  const TempPasswordLength: nat := 12

  function InvalidRoleMessage(role: string): string {
    "Invalid role: " + role
  }

  function CreateFailedMessage(errors: seq<string>): string {
    "User creation failed: " + Join(", ", errors)
  }

  function UpdateFailedMessage(errors: seq<string>): string {
    "User update failed: " + Join(", ", errors)
  }

  // ---------------------------------------------------------------------
  // Views

  /** The response for one user: its first role (or "User"), and the group
      of its first UserGroup row. */
  function ViewOf(u: User, ms: seq<Permissions.Membership>, gs: seq<Groups.Group>): (v: UserView)
    ensures v.id == u.id && v.email == u.email && v.role == RoleOf(u)
    ensures v.groupId.None? <==> forall m | m in ms :: m.userId != u.id
    ensures v.groupId.Some? ==> Permissions.Membership(u.id, v.groupId.value) in ms
  {
    var (groupId, groupName) := Login.GroupOf(ms, gs, u.id);
    UserView(u.id, u.firstName, u.lastName, u.email, RoleOf(u), groupId, groupName, u.isActive, u.isApproved)
  }

  function Views(us: seq<User>, ms: seq<Permissions.Membership>, gs: seq<Groups.Group>): (r: seq<UserView>)
    ensures |r| == |us|
    ensures forall i | 0 <= i < |us| :: r[i] == ViewOf(us[i], ms, gs)
  {
    seq(|us|, i requires 0 <= i < |us| => ViewOf(us[i], ms, gs))
  }

  /** OrderBy(u => u.Email) under the culture's string ordering `le`. */
  function ByEmail(le: (string, string) -> bool): (UserView, UserView) -> bool {
    (a: UserView, b: UserView) => le(a.email, b.email)
  }

  lemma ByEmailOrders(le: (string, string) -> bool)
    requires TotalPreorder(le)
    ensures TotalPreorder(ByEmail(le))
  {
    var order := ByEmail(le);
    forall x: UserView, y: UserView, z: UserView | order(x, y) && order(y, z) ensures order(x, z) {
      assert le(x.email, y.email) && le(y.email, z.email);
    }
    forall x: UserView, y: UserView ensures order(x, y) || order(y, x) {
      assert le(x.email, y.email) || le(y.email, x.email);
    }
  }

  /** The ordered responses are the responses of exactly the users given. */
  lemma SortedViews(us: seq<User>, ms: seq<Permissions.Membership>, gs: seq<Groups.Group>,
                    le: (string, string) -> bool)
    requires TotalPreorder(le)
    ensures TotalPreorder(ByEmail(le))
    ensures forall v :: v in SortBy(Views(us, ms, gs), ByEmail(le)) <==>
      exists u | u in us :: v == ViewOf(u, ms, gs)
  {
    ByEmailOrders(le);
    var views := Views(us, ms, gs);
    forall v ensures v in SortBy(views, ByEmail(le)) <==> exists u | u in us :: v == ViewOf(u, ms, gs) {
      SortByMembers(views, ByEmail(le), v);
      if v in views {
        var j :| 0 <= j < |views| && views[j] == v;
        assert us[j] in us;
      }
      if exists u | u in us :: v == ViewOf(u, ms, gs) {
        var u :| u in us && v == ViewOf(u, ms, gs);
        var j :| 0 <= j < |us| && us[j] == u;
        assert views[j] == v;
      }
    }
  }

  // ---------------------------------------------------------------------
  // Who sees whom

  function InCompany(companyId: Option<Guid>): User -> bool {
    (u: User) => u.companyId == companyId
  }

  function InCompanyAndAmong(companyId: Option<Guid>, ids: seq<string>): User -> bool {
    (u: User) => u.companyId == companyId && u.id in ids
  }

  /** The user ids of a group's UserGroup rows. */
  function MemberIds(ms: seq<Permissions.Membership>, groupId: Guid): (r: seq<string>)
    ensures forall id :: id in r <==> Permissions.Membership(id, groupId) in ms
    decreases |ms|
  {
    if |ms| == 0 then []
    else
      var init := ms[..|ms| - 1];
      var last := ms[|ms| - 1];
      assert ms == init + [last];
      MemberIds(init, groupId) + (if last.groupId == groupId then [last.userId] else [])
  }

  /** The users GetAllUsersAsync lists, before the ordering: none for an
      unknown requester; everyone for a SuperAdmin; none for a requester
      without a company; otherwise the requester's company, narrowed to the
      members of the requester's first group when there is one. */
  function ListedUsers(users: seq<User>, ms: seq<Permissions.Membership>, requesterId: string): seq<User> {
    var rq := UserById(users, requesterId);
    if rq.None? then []
    else if IsSuperAdmin(rq.value) then users
    else if rq.value.companyId.None? then []
    else
      match Login.FirstMembership(ms, rq.value.id)
      case Some(m) => Filter(users, InCompanyAndAmong(rq.value.companyId, MemberIds(ms, m.groupId)))
      case None => Filter(users, InCompany(rq.value.companyId))
  }

  /** A SuperAdmin lists every user. */
  lemma SuperAdminListsAll(users: seq<User>, ms: seq<Permissions.Membership>, requesterId: string)
    requires UserById(users, requesterId).Some? && IsSuperAdmin(UserById(users, requesterId).value)
    ensures ListedUsers(users, ms, requesterId) == users
  {
  }

  /** Anyone else lists only users of their own company, and nobody when
      they have none. */
  lemma ListedSameCompany(users: seq<User>, ms: seq<Permissions.Membership>, requesterId: string, u: User)
    requires u in ListedUsers(users, ms, requesterId)
    ensures UserById(users, requesterId).Some?
    ensures var rq := UserById(users, requesterId).value;
      u in users && (!IsSuperAdmin(rq) ==> rq.companyId.Some? && u.companyId == rq.companyId)
  {
  }

  /** A requester in a group lists exactly the users of their company who
      are members of that group; one in no group lists their whole
      company. */
  lemma ListedByGroup(users: seq<User>, ms: seq<Permissions.Membership>, requesterId: string, u: User)
    requires UserById(users, requesterId).Some?
    requires var rq := UserById(users, requesterId).value; !IsSuperAdmin(rq) && rq.companyId.Some?
    ensures var rq := UserById(users, requesterId).value;
      var first := Login.FirstMembership(ms, rq.id);
      (first.Some? ==>
         (u in ListedUsers(users, ms, requesterId) <==>
          u in users && u.companyId == rq.companyId && Permissions.Membership(u.id, first.value.groupId) in ms)) &&
      (first.None? ==>
         (u in ListedUsers(users, ms, requesterId) <==> u in users && u.companyId == rq.companyId))
  {
  }

  // ---------------------------------------------------------------------
  // Reading one user

  /** Whether the requester may see the user: a SuperAdmin sees anyone,
      everyone else the users whose CompanyId equals theirs (both may be
      null). */
  predicate MayRead(rq: User, u: User) {
    IsSuperAdmin(rq) || u.companyId == rq.companyId
  }

  /** GetUserByIdAsync: null for an unknown requester, an unknown user, or
      a user the requester may not see. */
  function UserFor(users: seq<User>, ms: seq<Permissions.Membership>, gs: seq<Groups.Group>,
                   userId: string, requesterId: string): (r: Option<UserView>)
    ensures r.Some? <==>
      UserById(users, requesterId).Some? && UserById(users, userId).Some? &&
      MayRead(UserById(users, requesterId).value, UserById(users, userId).value)
    ensures r.Some? ==> exists u | u in users :: u.id == userId && r.value == ViewOf(u, ms, gs)
  {
    var rq := UserById(users, requesterId);
    var u := UserById(users, userId);
    if rq.None? || u.None? || !MayRead(rq.value, u.value) then None
    else Some(ViewOf(u.value, ms, gs))
  }

  /** Every listed user can be read on its own by the same requester. */
  lemma ListedReadable(users: seq<User>, ms: seq<Permissions.Membership>, gs: seq<Groups.Group>,
                       requesterId: string, i: nat)
    requires UniqueUserIds(users) && i < |users|
    requires users[i] in ListedUsers(users, ms, requesterId)
    ensures UserFor(users, ms, gs, users[i].id, requesterId) == Some(ViewOf(users[i], ms, gs))
  {
    ListedSameCompany(users, ms, requesterId, users[i]);
    UserByIdUnique(users, i);
  }

  // ---------------------------------------------------------------------
  // The shared guard of update, delete and status change

  /** Both users exist and the target is in the requester's company, unless
      the requester is a SuperAdmin; a requester without a company manages
      nobody. */
  predicate MayManage(users: seq<User>, userId: string, requesterId: string) {
    var rq := UserById(users, requesterId);
    var u := UserById(users, userId);
    rq.Some? && u.Some? &&
    (IsSuperAdmin(rq.value) || (rq.value.companyId.Some? && u.value.companyId == rq.value.companyId))
  }

  /** Whom one may manage one may read. */
  lemma ManagedReadable(users: seq<User>, ms: seq<Permissions.Membership>, gs: seq<Groups.Group>,
                        userId: string, requesterId: string)
    requires MayManage(users, userId, requesterId)
    ensures UserFor(users, ms, gs, userId, requesterId).Some?
  {
  }

  // ---------------------------------------------------------------------
  // Creation

  /** Why CreateUserAsync throws before creating anything, in the order it
      checks. The role must be one of the role names exactly. */
  function CreateRefusal(users: seq<User>, dto: CreateRequest, requesterId: string,
                         validRoles: seq<string>): Option<string> {
    var rq := UserById(users, requesterId);
    if rq.None? then Some(RequesterNotFoundMessage)
    else if !IsSuperAdmin(rq.value) && rq.value.companyId.None? then Some(NoCompanyMessage)
    else if UserByEmail(users, dto.email).Some? then Some(EmailExistsMessage)
    else if dto.role !in validRoles then Some(InvalidRoleMessage(dto.role))
    else None
  }

  /** The user CreateUserAsync builds, with the role AddToRoleAsync gives
      it: trimmed names, the requester's company, approved, awaiting its
      first login, its address confirmed. */
  function CreatedUser(dto: CreateRequest, userId: string, requester: User, passwordHash: string): (u: User)
    ensures u.id == userId && u.email == dto.email && u.userName == dto.email
    ensures u.companyId == requester.companyId && u.roles == [dto.role]
    ensures u.isApproved && u.isFirstLogin && u.emailConfirmed && u.isActive == dto.isActive
    ensures u.firstName == Trim(dto.firstName)
    ensures u.lastName == (if dto.lastName.Some? then Trim(dto.lastName.value) else "")
  {
    User(userId, dto.email, dto.email, Trim(dto.firstName),
         if dto.lastName.Some? then Trim(dto.lastName.value) else "",
         requester.companyId, dto.isActive, true, true, true, passwordHash, [dto.role])
  }

  /** The UserGroup rows after creation: one for the group given. */
  function GroupRowAdded(ms: seq<Permissions.Membership>, userId: string, groupId: Option<Guid>): seq<Permissions.Membership> {
    if groupId.Some? then ms + [Permissions.Membership(userId, groupId.value)] else ms
  }

  /** A user created by a requester can be read back by that requester. */
  lemma CreatedReadable(users: seq<User>, ms: seq<Permissions.Membership>, gs: seq<Groups.Group>,
                        dto: CreateRequest, requesterId: string, userId: string, passwordHash: string)
    requires UniqueUserIds(users) && forall v | v in users :: v.id != userId
    requires UserById(users, requesterId).Some?
    ensures var u := CreatedUser(dto, userId, UserById(users, requesterId).value, passwordHash);
      UserFor(users + [u], ms, gs, userId, requesterId) == Some(ViewOf(u, ms, gs))
  {
    var rq := UserById(users, requesterId).value;
    var u := CreatedUser(dto, userId, rq, passwordHash);
    var us := users + [u];
    AddedUserValid(users, u);
    assert us[|users|] == u;
    UserByIdUnique(us, |users|);
    var i := IndexOfUser(users, requesterId);
    assert us[i] == users[i];
    UserByIdUnique(users, i);
    UserByIdUnique(us, i);
  }

  /** A created account that is active, offered its temporary password,
      is not signed in but asked to reset the password; an inactive one is
      refused as inactive. */
  lemma CreatedMustReset(users: seq<User>, dto: CreateRequest, userId: string, requester: User,
                         tempPassword: string, hashOf: string -> string, verify: (string, string) -> bool,
                         companies: seq<Company>, ms: seq<Permissions.Membership>, gs: seq<Groups.Group>,
                         jti: string, guidText: Guid -> string)
    requires UserByEmail(users, dto.email).None?
    requires verify(hashOf(tempPassword), tempPassword) && !IsBlank(dto.email) && !IsBlank(tempPassword)
    ensures var users' := users + [CreatedUser(dto, userId, requester, hashOf(tempPassword))];
      var r := Login.SignIn(Some(Login.LoginRequest(dto.email, tempPassword)), users', companies, ms, gs,
                            verify, jti, guidText);
      r.Some? && r.value.user.None? &&
      r.value.requirePasswordReset == dto.isActive &&
      (!dto.isActive ==> r.value.message == Login.InactiveMessage)
  {
    var u := CreatedUser(dto, userId, requester, hashOf(tempPassword));
    var users' := users + [u];
    assert forall j | 0 <= j < |users| :: users'[j] == users[j] && users[j] in users;
    assert users'[|users|] == u;
    assert UserByEmail(users', dto.email) == Some(u) by {
      assert FirstIndex(users', EmailIs(dto.email)) == |users|;
    }
  }

  // ---------------------------------------------------------------------
  // Update

  /** A text field of the request that is set: not null and not blank. */
  predicate Given(s: Option<string>) {
    s.Some? && !IsBlank(s.value)
  }

  /** The user after UpdateUserAsync writes the request: names that are
      given are trimmed and stored, IsActive is stored when supplied. */
  function Edited(u: User, dto: UpdateRequest): (r: User)
    ensures r.id == u.id && r.email == u.email && r.companyId == u.companyId && r.roles == u.roles
    ensures r.firstName == if Given(dto.firstName) then Trim(dto.firstName.value) else u.firstName
    ensures r.lastName == if Given(dto.lastName) then Trim(dto.lastName.value) else u.lastName
    ensures r.isActive == dto.isActive.GetOr(u.isActive)
  {
    u.(firstName := if Given(dto.firstName) then Trim(dto.firstName.value) else u.firstName,
       lastName := if Given(dto.lastName) then Trim(dto.lastName.value) else u.lastName,
       isActive := dto.isActive.GetOr(u.isActive))
  }

  /** Writing the same request twice changes nothing more. */
  lemma EditedIdempotent(u: User, dto: UpdateRequest)
    ensures Edited(Edited(u, dto), dto) == Edited(u, dto)
  {
  }

  /** A request with nothing set leaves the user as it is. */
  lemma EditedNothing(u: User)
    ensures Edited(u, UpdateRequest(None, None, None, None, None)) == u
  {
  }

  /** Stored names are never blank once given: a given name is stored
      trimmed and stays non-blank. */
  lemma EditedNamesNotBlank(u: User, dto: UpdateRequest)
    requires Given(dto.firstName)
    ensures !IsBlank(Edited(u, dto).firstName)
  {
    TrimEmptyIffBlank(dto.firstName.value);
    var t := Trim(dto.firstName.value);
    assert |t| > 0;
    assert !IsWhiteSpace(t[0]);
  }

  /** The role step: a given role must be one of the role names exactly. */
  predicate RoleRefused(dto: UpdateRequest, validRoles: seq<string>) {
    Given(dto.role) && dto.role.value !in validRoles
  }

  /** The user's roles after the update: the given role alone, or as they
      were. */
  function RolesAfter(u: User, dto: UpdateRequest): seq<string> {
    if Given(dto.role) then [dto.role.value] else u.roles
  }

  /** The UserGroup rows after the update: a group given replaces all the
      user's rows with one for that group. */
  function GroupRowsAfter(ms: seq<Permissions.Membership>, userId: string, groupId: Option<Guid>): seq<Permissions.Membership> {
    if groupId.Some? then Filter(ms, NotMemberOf(userId)) + [Permissions.Membership(userId, groupId.value)]
    else ms
  }

  function NotMemberOf(userId: string): Permissions.Membership -> bool {
    (m: Permissions.Membership) => m.userId != userId
  }

  /** After a group is given the user belongs to that group alone, and
      nobody else's rows change. */
  lemma GroupRowsAfterReplace(ms: seq<Permissions.Membership>, userId: string, g: Guid, other: string)
    requires other != userId
    ensures forall h :: Permissions.Membership(userId, h) in GroupRowsAfter(ms, userId, Some(g)) <==> h == g
    ensures Login.FirstMembership(GroupRowsAfter(ms, userId, Some(g)), userId) == Some(Permissions.Membership(userId, g))
    ensures forall h :: Permissions.Membership(other, h) in GroupRowsAfter(ms, userId, Some(g)) <==>
                        Permissions.Membership(other, h) in ms
  {
    var kept := Filter(ms, NotMemberOf(userId));
    var ms' := kept + [Permissions.Membership(userId, g)];
    assert forall m | m in kept :: m.userId != userId;
    assert forall j | 0 <= j < |kept| :: ms'[j] == kept[j] && kept[j] in kept;
    assert ms'[|kept|] == Permissions.Membership(userId, g);
    assert FirstIndex(ms', Permissions.MemberIs(userId)) == |kept|;
  }

  /** The user just updated can be read back by the requester, who may
      be that user. */
  lemma UpdatedReadable(users: seq<User>, ms: seq<Permissions.Membership>, gs: seq<Groups.Group>,
                        k: nat, u: User, requesterId: string)
    requires UniqueUserIds(users) && k < |users|
    requires MayManage(users, users[k].id, requesterId)
    requires u.id == users[k].id && u.companyId == users[k].companyId
    ensures UniqueUserIds(users[k := u])
    ensures UserFor(users[k := u], ms, gs, u.id, requesterId) == Some(ViewOf(u, ms, gs))
  {
    var us := users[k := u];
    ReplacedUserValid(users, k, u);
    UserByIdUnique(users, k);
    UserByIdUnique(us, k);
    var i := IndexOfUser(users, requesterId);
    UserByIdUnique(users, i);
    if i != k {
      assert us[i] == users[i];
      UserByIdUnique(us, i);
    }
  }

  // ---------------------------------------------------------------------
  // Deletion

  function HasAdminRole(): User -> bool {
    (u: User) => AdminRoleName in u.roles
  }

  /** The admins the last-admin check counts for `u`: those of u's company,
      or every admin when u has none. */
  function CompanyAdmins(users: seq<User>, u: User): (r: seq<User>)
    ensures forall a :: a in r <==>
      a in users && AdminRoleName in a.roles && (u.companyId.Some? ==> a.companyId == u.companyId)
  {
    var admins := Filter(users, HasAdminRole());
    if u.companyId.Some? then Filter(admins, InCompany(u.companyId)) else admins
  }

  /** The refusal of the last-admin check: `u` is an admin and the only one
      left among those counted. */
  predicate LastAdmin(users: seq<User>, u: User) {
    var admins := CompanyAdmins(users, u);
    AdminRoleName in u.roles && |admins| <= 1 && exists a | a in admins :: a.id == u.id
  }

  /** What DeleteUserAsync returns: false when the guards fail or Identity
      reports errors, an exception for the requester's own account and for
      the last admin, true once the user is deleted. */
  function DeleteOutcome(users: seq<User>, userId: string, requesterId: string, deleteFailed: bool): (r: Result<bool>)
    ensures r == Ok(true) ==> MayManage(users, userId, requesterId) && userId != requesterId &&
                              !LastAdmin(users, UserById(users, userId).value)
    ensures userId == requesterId ==> r != Ok(true)
  {
    if !MayManage(users, userId, requesterId) then Ok(false)
    else if userId == requesterId then Err(SelfDeleteMessage)
    else if LastAdmin(users, UserById(users, userId).value) then Err(LastAdminMessage)
    else if deleteFailed then Ok(false)
    else Ok(true)
  }

  /** The users left after deleting the one at position k. */
  function Without(users: seq<User>, k: nat): (r: seq<User>)
    requires k < |users|
    ensures |r| == |users| - 1
  {
    users[..k] + users[k + 1..]
  }

  /** A user of another id survives the deletion. */
  lemma WithoutKeeps(users: seq<User>, k: nat, a: User)
    requires k < |users| && a in users && a.id != users[k].id
    ensures a in Without(users, k)
  {
    var j :| 0 <= j < |users| && users[j] == a;
    if j < k {
      assert Without(users, k)[j] == a;
    } else {
      assert j > k;
      assert Without(users, k)[j - 1] == a;
    }
  }

  /** Under unique ids each user occurs once, so any sub-sequence holding two
      entries holds two users of different ids. */
  lemma {:induction false} FilterUniqueIds(s: seq<User>, p: User -> bool)
    requires UniqueUserIds(s)
    ensures UniqueUserIds(Filter(s, p))
    decreases |s|
  {
    if |s| > 0 {
      var init := s[..|s| - 1];
      var last := s[|s| - 1];
      assert s == init + [last];
      assert UniqueUserIds(init) by {
        forall i, j | 0 <= i < j < |init| ensures init[i].id != init[j].id {
          assert init[i] == s[i] && init[j] == s[j];
        }
      }
      FilterUniqueIds(init, p);
      var f := Filter(init, p);
      if p(last) {
        forall x | x in f ensures x.id != last.id {
          assert x in init;
          var i :| 0 <= i < |init| && init[i] == x;
          assert s[i] == x;
        }
        AddedUserValid(f, last);
      }
    }
  }

  /** Deleting an admin leaves an admin behind among those the check
      counted: the company's admins, or all admins when the user had no
      company. */
  lemma DeleteKeepsAnAdmin(users: seq<User>, userId: string, requesterId: string, deleteFailed: bool)
    requires UniqueUserIds(users)
    requires DeleteOutcome(users, userId, requesterId, deleteFailed) == Ok(true)
    requires AdminRoleName in UserById(users, userId).value.roles
    ensures var k := IndexOfUser(users, userId);
      var u := users[k];
      exists a | a in Without(users, k) ::
        AdminRoleName in a.roles && (u.companyId.Some? ==> a.companyId == u.companyId)
  {
    var k := IndexOfUser(users, userId);
    UserByIdUnique(users, k);
    var u := users[k];
    var admins := CompanyAdmins(users, u);
    assert u in admins;
    assert |admins| >= 2;
    FilterUniqueIds(users, HasAdminRole());
    FilterUniqueIds(Filter(users, HasAdminRole()), InCompany(u.companyId));
    assert UniqueUserIds(admins);
    var a := if admins[0].id != u.id then admins[0] else admins[1];
    assert admins[0].id != admins[1].id;
    assert a in admins && a.id != u.id;
    WithoutKeeps(users, k, a);
  }

  // ---------------------------------------------------------------------
  // Status

  /** What UpdateUserStatusAsync returns: false when the guards fail or
      Identity reports errors, an exception when the requester would
      deactivate themself, true once the status is stored. */
  function StatusOutcome(users: seq<User>, userId: string, isActive: bool, requesterId: string,
                         updateFailed: bool): (r: Result<bool>)
    ensures r == Ok(true) ==> MayManage(users, userId, requesterId)
    ensures userId == requesterId && !isActive ==> r != Ok(true)
  {
    if !MayManage(users, userId, requesterId) then Ok(false)
    else if userId == requesterId && !isActive then Err(SelfDeactivateMessage)
    else if updateFailed then Ok(false)
    else Ok(true)
  }

  // ---------------------------------------------------------------------
  // Roles offered

  /** GetAvailableRolesAsync: the role names other than SuperAdmin, in
      order. */
  function AvailableRoles(roles: seq<string>, le: (string, string) -> bool): (r: seq<string>)
    requires TotalPreorder(le)
    ensures forall x :: x in r <==> x in roles && x != SuperAdminRole
    ensures multiset(r) == multiset(Filter(roles, NotSuperAdmin()))
    ensures SortedBy(r, le)
  {
    var offered := Filter(roles, NotSuperAdmin());
    var r := SortBy(offered, le);
    forall x ensures x in r <==> x in offered {
      SortByMembers(offered, le, x);
    }
    r
  }

  function NotSuperAdmin(): string -> bool {
    (r: string) => r != SuperAdminRole
  }

  // ---------------------------------------------------------------------
  // The service's tables

  /** The Identity users (with their roles), the UserGroup rows and the
      groups; the permission rows are the permission service's. */
  class UserDirectory {
    var users: seq<User>
    var memberships: seq<Permissions.Membership>
    const groups: seq<Groups.Group>
    const perms: Permissions.PermissionStore

    ghost predicate Valid()
      reads this
    {
      UniqueUserIds(users)
    }

    constructor(users: seq<User>, memberships: seq<Permissions.Membership>, groups: seq<Groups.Group>,
                perms: Permissions.PermissionStore)
      requires UniqueUserIds(users)
      ensures Valid() && this.users == users && this.memberships == memberships
      ensures this.groups == groups && this.perms == perms
    {
      this.users := users;
      this.memberships := memberships;
      this.groups := groups;
      this.perms := perms;
    }

    /** GetAllUsersAsync: one response per listed user, built in a loop,
        ordered by e-mail address. */
    method GetAllUsers(requesterId: string, le: (string, string) -> bool) returns (r: seq<UserView>)
      requires TotalPreorder(le)
      ensures multiset(r) == multiset(Views(ListedUsers(users, memberships, requesterId), memberships, groups))
      ensures forall v :: v in r <==>
        exists u | u in ListedUsers(users, memberships, requesterId) :: v == ViewOf(u, memberships, groups)
      ensures SortedBy(r, ByEmail(le))
    {
      var listed := ListedUsers(users, memberships, requesterId);
      var views: seq<UserView> := [];
      for i := 0 to |listed|
        invariant |views| == i
        invariant forall j | 0 <= j < i :: views[j] == ViewOf(listed[j], memberships, groups)
      {
        views := views + [ViewOf(listed[i], memberships, groups)];
      }
      assert views == Views(listed, memberships, groups);
      ByEmailOrders(le);
      r := SortBy(views, ByEmail(le));
      SortedViews(listed, memberships, groups, le);
    }

    /** The tail of CreateUserAsync once its checks pass: CreateAsync (the
        role is added with it), the UserGroup row for a group given, the
        role's default permissions, and the new user read back. */
    method AddCreated(dto: CreateRequest, requesterId: string, requester: User,
                      userId: string, passwordHash: string, createErrors: seq<string>)
      returns (r: Result<Option<UserView>>)
      requires Valid()
      requires forall u | u in users :: u.id != userId
      requires UserById(users, requesterId) == Some(requester)
      modifies this, perms
      ensures Valid()
      ensures |createErrors| > 0 ==>
        r == Err(CreateFailedMessage(createErrors)) && users == old(users) && memberships == old(memberships) &&
        perms.userGrants == old(perms.userGrants)
      ensures var u := CreatedUser(dto, userId, requester, passwordHash);
        |createErrors| == 0 ==>
          users == old(users) + [u] && memberships == GroupRowAdded(old(memberships), userId, dto.groupId) &&
          r == Ok(Some(ViewOf(u, memberships, groups)))
      ensures |createErrors| == 0 ==>
        perms.userGrants == old(perms.userGrants) +
          Permissions.NewGrants(userId, Permissions.DetailIds(Permissions.DefaultsFor(old(perms.permissions), dto.role)))
      ensures perms.permissions == old(perms.permissions) && perms.roleGrants == old(perms.roleGrants)
      ensures perms.groupGrants == old(perms.groupGrants) && perms.memberships == old(perms.memberships)
    {
      if |createErrors| > 0 {
        return Err(CreateFailedMessage(createErrors));
      }
      var u := CreatedUser(dto, userId, requester, passwordHash);
      var ms := memberships;
      if dto.groupId.Some? {
        ms := ms + [Permissions.Membership(userId, dto.groupId.value)];
      }
      assert ms == GroupRowAdded(memberships, userId, dto.groupId);
      CreatedReadable(users, ms, groups, dto, requesterId, userId, passwordHash);
      AddedUserValid(users, u);
      var v := UserFor(users + [u], ms, groups, userId, requesterId);
      assert v == Some(ViewOf(u, ms, groups));
      perms.AssignDefaultPermissions(userId, dto.role);
      users := users + [u];
      memberships := ms;
      r := Ok(v);
    }

    /** CreateUserAsync. `Err` is an exception. `tempPassword` is the
        password e-mailed to the new user; `hashOf` is Identity's hasher;
        `createErrors` are the descriptions CreateAsync reports. */
    method CreateUser(dto: CreateRequest, requesterId: string, validRoles: seq<string>, userId: string,
                      d: Draws, hashOf: string -> string, createErrors: seq<string>)
      returns (r: Result<Option<UserView>>, tempPassword: string)
      requires Valid() && DrawsFit(d, TempPasswordLength)
      requires forall u | u in users :: u.id != userId
      modifies this, perms
      ensures Valid()
      ensures var refusal := CreateRefusal(old(users), dto, requesterId, validRoles);
        refusal.Some? ==>
          r == Err(refusal.value) && users == old(users) && memberships == old(memberships) &&
          perms.userGrants == old(perms.userGrants)
      ensures CreateRefusal(old(users), dto, requesterId, validRoles).None? ==>
        tempPassword == Shuffle(Drawn(d, TempPasswordLength), d.keys)
      ensures CreateRefusal(old(users), dto, requesterId, validRoles).None? && |createErrors| > 0 ==>
        r == Err(CreateFailedMessage(createErrors)) && users == old(users) && memberships == old(memberships) &&
        perms.userGrants == old(perms.userGrants)
      ensures CreateRefusal(old(users), dto, requesterId, validRoles).None? && |createErrors| == 0 ==>
        var u := CreatedUser(dto, userId, UserById(old(users), requesterId).value, hashOf(tempPassword));
        users == old(users) + [u] && memberships == GroupRowAdded(old(memberships), userId, dto.groupId) &&
        r == Ok(Some(ViewOf(u, memberships, groups)))
      ensures CreateRefusal(old(users), dto, requesterId, validRoles).None? && |createErrors| == 0 ==>
        perms.userGrants == old(perms.userGrants) +
          Permissions.NewGrants(userId, Permissions.DetailIds(Permissions.DefaultsFor(old(perms.permissions), dto.role)))
      ensures perms.permissions == old(perms.permissions) && perms.roleGrants == old(perms.roleGrants)
      ensures perms.groupGrants == old(perms.groupGrants) && perms.memberships == old(perms.memberships)
    {
      tempPassword := "";
      ghost var refusal := CreateRefusal(users, dto, requesterId, validRoles);
      var requester := UserById(users, requesterId);
      if requester.None? {
        return Err(RequesterNotFoundMessage), tempPassword;
      }
      if !IsSuperAdmin(requester.value) && requester.value.companyId.None? {
        return Err(NoCompanyMessage), tempPassword;
      }
      if UserByEmail(users, dto.email).Some? {
        return Err(EmailExistsMessage), tempPassword;
      }
      if dto.role !in validRoles {
        return Err(InvalidRoleMessage(dto.role)), tempPassword;
      }
      assert refusal.None?;
      tempPassword := GenerateTempPassword(TempPasswordLength, d);
      assert users == old(users);
      r := AddCreated(dto, requesterId, requester.value, userId, hashOf(tempPassword), createErrors);
    }

    /** UpdateUserAsync. `updateErrors` are the descriptions UpdateAsync
        reports; `Err` is an exception, thrown for an invalid role after
        the names and status are saved. A group given replaces the user's
        UserGroup rows, deleted one by one. */
    method UpdateUser(userId: string, dto: UpdateRequest, requesterId: string, validRoles: seq<string>,
                      updateErrors: seq<string>)
      returns (r: Result<Option<UserView>>)
      requires Valid()
      modifies this
      ensures Valid()
      ensures !MayManage(old(users), userId, requesterId) ==>
        r == Ok(None) && users == old(users) && memberships == old(memberships)
      ensures MayManage(old(users), userId, requesterId) && |updateErrors| > 0 ==>
        r == Err(UpdateFailedMessage(updateErrors)) && users == old(users) && memberships == old(memberships)
      ensures var k := IndexOfUser(old(users), userId);
        MayManage(old(users), userId, requesterId) && |updateErrors| == 0 && RoleRefused(dto, validRoles) ==>
          r == Err(InvalidRoleMessage(dto.role.value)) &&
          users == old(users)[k := Edited(old(users)[k], dto)] && memberships == old(memberships)
      ensures var k := IndexOfUser(old(users), userId);
        MayManage(old(users), userId, requesterId) && |updateErrors| == 0 && !RoleRefused(dto, validRoles) ==>
          var u := Edited(old(users)[k], dto).(roles := RolesAfter(old(users)[k], dto));
          users == old(users)[k := u] &&
          memberships == GroupRowsAfter(old(memberships), userId, dto.groupId) &&
          r == Ok(Some(ViewOf(u, memberships, groups)))
    {
      if !MayManage(users, userId, requesterId) {
        return Ok(None);
      }
      var k := IndexOfUser(users, userId);
      if |updateErrors| > 0 {
        return Err(UpdateFailedMessage(updateErrors));
      }
      var edited := Edited(users[k], dto);
      ReplacedUserValid(users, k, edited);
      if RoleRefused(dto, validRoles) {
        users := users[k := edited];
        return Err(InvalidRoleMessage(dto.role.value));
      }
      var u := edited.(roles := RolesAfter(users[k], dto));
      var ms := memberships;
      if dto.groupId.Some? {
        var kept := Keep(ms, NotMemberOf(userId));
        ms := kept + [Permissions.Membership(userId, dto.groupId.value)];
      }
      UpdatedReadable(users, ms, groups, k, u, requesterId);
      users := users[k := u];
      memberships := ms;
      r := Ok(UserFor(users, memberships, groups, userId, requesterId));
    }

    /** DeleteUserAsync. `deleteFailed` says whether DeleteAsync reports
        errors. */
    method DeleteUser(userId: string, requesterId: string, deleteFailed: bool) returns (r: Result<bool>)
      requires Valid()
      modifies this
      ensures Valid()
      ensures r == DeleteOutcome(old(users), userId, requesterId, deleteFailed)
      ensures r == Ok(true) ==> users == Without(old(users), IndexOfUser(old(users), userId))
      ensures r != Ok(true) ==> users == old(users)
      ensures memberships == old(memberships)
    {
      if !MayManage(users, userId, requesterId) {
        return Ok(false);
      }
      if userId == requesterId {
        return Err(SelfDeleteMessage);
      }
      var k := IndexOfUser(users, userId);
      UserByIdUnique(users, k);
      var u := users[k];
      if LastAdmin(users, u) {
        return Err(LastAdminMessage);
      }
      if deleteFailed {
        return Ok(false);
      }
      RemovedUserValid(users, k);
      users := Without(users, k);
      r := Ok(true);
    }

    /** UpdateUserStatusAsync. `updateFailed` says whether UpdateAsync
        reports errors. */
    method UpdateUserStatus(userId: string, isActive: bool, requesterId: string, updateFailed: bool)
      returns (r: Result<bool>)
      requires Valid()
      modifies this
      ensures Valid()
      ensures r == StatusOutcome(old(users), userId, isActive, requesterId, updateFailed)
      ensures var k := IndexOfUser(old(users), userId);
        r == Ok(true) ==> users == old(users)[k := old(users)[k].(isActive := isActive)]
      ensures r != Ok(true) ==> users == old(users)
      ensures memberships == old(memberships)
    {
      if !MayManage(users, userId, requesterId) {
        return Ok(false);
      }
      if userId == requesterId && !isActive {
        return Err(SelfDeactivateMessage);
      }
      if updateFailed {
        return Ok(false);
      }
      var k := IndexOfUser(users, userId);
      ReplacedUserValid(users, k, users[k].(isActive := isActive));
      users := users[k := users[k].(isActive := isActive)];
      r := Ok(true);
    }
  }
}

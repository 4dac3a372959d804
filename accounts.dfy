/** The account entities the user, login, registration and password services
    share: Identity users with their roles, companies, and the lookups the
    services run against them. Password hashing is abstract: `verify(hash, pw)`
    says whether `pw` matches a stored hash. */
module Accounts {
  import opened Wrappers
  import opened Base
  import opened Seqs
  import opened Text

  /** An Identity user (Users.cs plus the IdentityUser columns the services
      read); `roles` is what UserManager.GetRolesAsync returns for it. */
  datatype User = User(
    id: string, userName: string, email: string, firstName: string, lastName: string,
    companyId: Option<Guid>, isActive: bool, isApproved: bool, isFirstLogin: bool,
    emailConfirmed: bool, passwordHash: string, roles: seq<string>)

  /** A company row (Company.cs). */
  datatype Company = Company(
    id: Guid, companyName: string, storageTier: Option<string>,
    isActive: bool, isDeleted: bool, createdAt: Ticks)

  const SuperAdminRole: string := "SuperAdmin"
  const AdminRoleName: string := "Admin"
  /** The role reported for a user who holds none. */
  const DefaultRole: string := "User"

  /** Guid.Empty. */
  const EmptyGuid: Guid := 0

  /** roles.FirstOrDefault() ?? "User" */
  function RoleOf(u: User): (r: string)
    ensures |u.roles| > 0 ==> r == u.roles[0]
    ensures |u.roles| == 0 ==> r == DefaultRole
  {
    if |u.roles| > 0 then u.roles[0] else DefaultRole
  }

  predicate IsSuperAdmin(u: User) {
    SuperAdminRole in u.roles
  }

  /** Identity keys users by id. */
  predicate UniqueUserIds(us: seq<User>) {
    forall i, j | 0 <= i < j < |us| :: us[i].id != us[j].id
  }

  function IdIs(id: string): User -> bool {
    (u: User) => u.id == id
  }

  /** `u.Email.ToLower() == email.ToLower()`; FindByEmailAsync compares
      normalised e-mail addresses the same way. */
  function EmailIs(email: string): User -> bool {
    (u: User) => Lower(u.email) == Lower(email)
  }

  /** The first user matching `p`, if any. */
  function FirstUser(us: seq<User>, p: User -> bool): (r: Option<User>)
    ensures r.Some? ==> r.value in us && p(r.value)
    ensures r.None? <==> forall u | u in us :: !p(u)
  {
    var k := FirstIndex(us, p);
    if k < 0 then None
    else Some(us[k])
  }

  /** FindByIdAsync. */
  function UserById(us: seq<User>, id: string): (r: Option<User>)
    ensures r.Some? ==> r.value in us && r.value.id == id
    ensures r.None? <==> forall u | u in us :: u.id != id
  {
    FirstUser(us, IdIs(id))
  }

  /** The user lookup by e-mail address, ignoring case. */
  function UserByEmail(us: seq<User>, email: string): (r: Option<User>)
    ensures r.Some? ==> r.value in us && Lower(r.value.email) == Lower(email)
    ensures r.None? <==> forall u | u in us :: Lower(u.email) != Lower(email)
  {
    FirstUser(us, EmailIs(email))
  }

  /** Under unique ids, the lookup finds the one user with that id. */
  lemma UserByIdUnique(us: seq<User>, i: nat)
    requires UniqueUserIds(us) && i < |us|
    ensures UserById(us, us[i].id) == Some(us[i])
  {
    var k := FirstIndex(us, IdIs(us[i].id));
    assert k >= 0 && k <= i;
    assert us[k].id == us[i].id;
  }

  /** The position of the user with id `id`, or -1. */
  function IndexOfUser(us: seq<User>, id: string): (k: int)
    ensures -1 <= k < |us|
    ensures k >= 0 ==> us[k].id == id
    ensures k < 0 <==> forall u | u in us :: u.id != id
  {
    FirstIndex(us, IdIs(id))
  }

  /** The position of the user the e-mail lookup finds, or -1. */
  function IndexOfEmail(us: seq<User>, email: string): (k: int)
    ensures -1 <= k < |us|
    ensures k >= 0 ==> UserByEmail(us, email) == Some(us[k])
    ensures k < 0 <==> UserByEmail(us, email).None?
  {
    FirstIndex(us, EmailIs(email))
  }

  /** Updating the user the e-mail lookup finds, without changing the
      address, makes the lookup find the updated user. */
  lemma UserByEmailUpdated(us: seq<User>, email: string, u: User)
    requires IndexOfEmail(us, email) >= 0 && u.email == us[IndexOfEmail(us, email)].email
    ensures UserByEmail(us[IndexOfEmail(us, email) := u], email) == Some(u)
    ensures IndexOfEmail(us[IndexOfEmail(us, email) := u], email) == IndexOfEmail(us, email)
  {
    var k := IndexOfEmail(us, email);
    var vs := us[k := u];
    var j := FirstIndex(vs, EmailIs(email));
    assert EmailIs(email)(vs[k]);
    assert forall i | 0 <= i < k :: vs[i] == us[i];
    assert j == k;
  }

  /** Replacing a user by one with the same id keeps the ids unique. */
  lemma ReplacedUserValid(us: seq<User>, k: nat, u: User)
    requires UniqueUserIds(us) && k < |us| && u.id == us[k].id
    ensures UniqueUserIds(us[k := u])
  {
    var vs := us[k := u];
    forall i, j | 0 <= i < j < |vs| ensures vs[i].id != vs[j].id {
      assert vs[i].id == us[i].id && vs[j].id == us[j].id;
    }
  }

  /** Adding a user under a fresh id keeps the ids unique. */
  lemma AddedUserValid(us: seq<User>, u: User)
    requires UniqueUserIds(us) && forall v | v in us :: v.id != u.id
    ensures UniqueUserIds(us + [u])
  {
    var vs := us + [u];
    forall i, j | 0 <= i < j < |vs| ensures vs[i].id != vs[j].id {
      assert vs[i] == us[i];
      if j < |us| {
        assert vs[j] == us[j];
      } else {
        assert us[i] in us;
      }
    }
  }

  /** Removing a user keeps the ids unique. */
  lemma RemovedUserValid(us: seq<User>, k: nat)
    requires UniqueUserIds(us) && k < |us|
    ensures UniqueUserIds(us[..k] + us[k + 1..])
  {
    var vs := us[..k] + us[k + 1..];
    forall i, j | 0 <= i < j < |vs| ensures vs[i].id != vs[j].id {
      var i' := if i < k then i else i + 1;
      var j' := if j < k then j else j + 1;
      assert vs[i] == us[i'] && vs[j] == us[j'];
    }
  }

  /** string.Join(separator, parts). */
  function Join(separator: string, parts: seq<string>): (r: string)
    ensures |parts| == 1 ==> r == parts[0]
    ensures |parts| == 0 ==> r == ""
    decreases |parts|
  {
    if |parts| == 0 then ""
    else if |parts| == 1 then parts[0]
    else Join(separator, parts[..|parts| - 1]) + separator + parts[|parts| - 1]
  }
}

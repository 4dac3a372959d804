/** RegisterService.RegisterAsync: self-registration of an account with a
    temporary password, joining the company of the given name or creating
    it, under a role checked against the roles the store knows. Identity's
    user creation is modelled by its error descriptions, which are a
    parameter; the new user's id, the new company's key, the random draws and
    the password hasher are parameters too. */
module Register {
  import opened Wrappers
  import opened Base
  import opened Seqs
  import opened Text
  import opened Accounts
  import opened PathMapping
  import opened TempPasswords
  import opened Shuffles
  import opened Login
  import Permissions
  import Groups

  /** RegisterDto; a null string is `None` where the service tells null
      apart. */
  datatype RegisterRequest = RegisterRequest(
    firstName: string, lastName: string, email: string,
    companyName: Option<string>, role: Option<string>, storageTier: Option<string>)

  /** The anonymous object the service returns: only a message on refusal. */
  datatype RegisterResponse =
    | Refused(message: string)
    | Registered(message: string, email: string, companyName: Option<string>, storageTier: string)

  const InvalidDataMessage: string := "Invalid registration data."
  const EmailTakenMessage: string := "Email already registered."
  const NoTierText: string := "Not selected"
  /** The placeholder Swagger fills unset string fields with. */
  const Placeholder: string := "string"
  /** The length RegisterService asks GenerateTempPassword for. */
  const TempPasswordLength: nat := 8
  /** Identity's UserManager.AddToRoleAsync throws for a role it does not
      know. */
  const RoleMissingMessage: string := "Role does not exist."

  function RegisteredMessage(role: string): string {
    "User registered successfully with role '" + role + "'."
  }

  // ---------------------------------------------------------------------
  // Roles

  /** ValidateRole: a blank role or the placeholder (ignoring case) becomes
      "User"; otherwise the role as given if the store knows it ignoring
      case, and "User" if not. */
  function ValidateRole(role: Option<string>, validRoles: seq<string>): (r: string)
    ensures r == DefaultRole || (role.Some? && r == role.value)
  {
    if role.None? || IsBlank(role.value) || EqualsIgnoreCase(role.value, Placeholder) then DefaultRole
    else if exists v | v in validRoles :: EqualsIgnoreCase(v, role.value) then role.value
    else DefaultRole
  }

  /** The role chosen is "User" or a role the store knows, ignoring case,
      and never blank or the placeholder; a known role given in a usable
      form is kept as spelled. */
  lemma ValidateRoleKnown(role: Option<string>, validRoles: seq<string>)
    ensures var r := ValidateRole(role, validRoles);
      r == DefaultRole ||
      (!IsBlank(r) && !EqualsIgnoreCase(r, Placeholder) && exists v | v in validRoles :: EqualsIgnoreCase(v, r))
    ensures role.Some? && !IsBlank(role.value) && !EqualsIgnoreCase(role.value, Placeholder) &&
            (exists v | v in validRoles :: EqualsIgnoreCase(v, role.value)) ==>
            ValidateRole(role, validRoles) == role.value
    ensures (forall v | v in validRoles :: !EqualsIgnoreCase(v, role.GetOr(""))) ==>
            ValidateRole(role, validRoles) == DefaultRole
  {
  }

  /** The role row AddToRoleAsync finds: Identity matches role names
      ignoring case and records the role's own spelling. */
  function RoleNamed(validRoles: seq<string>, name: string): (r: Option<string>)
    ensures r.Some? ==> r.value in validRoles && EqualsIgnoreCase(r.value, name)
    ensures r.None? <==> forall v | v in validRoles :: !EqualsIgnoreCase(v, name)
  {
    var k := FirstIndex(validRoles, (v: string) => EqualsIgnoreCase(v, name));
    if k < 0 then None else Some(validRoles[k])
  }

  // ---------------------------------------------------------------------
  // The company lookup

  /** The first company whose key under `key` is `k`, or -1. */
  function KeyIndex(cs: seq<Company>, key: Company -> string, k: string): (i: int)
    ensures -1 <= i < |cs|
    ensures i >= 0 ==> key(cs[i]) == k
    ensures i < 0 <==> forall c | c in cs :: key(c) != k
  {
    FirstIndex(cs, (c: Company) => key(c) == k)
  }

  /** No two companies share a key under `key`. */
  predicate DistinctKeys(cs: seq<Company>, key: Company -> string) {
    forall i, j | 0 <= i < j < |cs| :: key(cs[i]) != key(cs[j])
  }

  /** A company added under a key no other company has keeps the keys
      distinct, and the lookup under that key finds it, last. */
  lemma AddedKeyFound(cs: seq<Company>, key: Company -> string, c: Company, k: string)
    requires DistinctKeys(cs, key) && KeyIndex(cs, key, k) < 0 && key(c) == k
    ensures DistinctKeys(cs + [c], key)
    ensures KeyIndex(cs + [c], key, k) == |cs|
  {
    var cs' := cs + [c];
    forall i, j | 0 <= i < j < |cs'| ensures key(cs'[i]) != key(cs'[j]) {
      assert cs'[i] == cs[i];
      if j < |cs| {
        assert cs'[j] == cs[j];
      } else {
        assert cs[i] in cs;
      }
    }
    assert cs'[|cs|] == c;
    assert forall i | 0 <= i < |cs| :: cs'[i] == cs[i] && cs[i] in cs;
  }

  /** The stored name lower-cased, as the lookup as written compares it. */
  function LoweredName(): Company -> string {
    (c: Company) => Lower(c.companyName)
  }

  /** A company's name key: trimmed and lower-cased. */
  function CompanyKey(): Company -> string {
    (c: Company) => NameKey(c.companyName)
  }

  /** The lookup as written: the stored name is lower-cased but not
      trimmed, and compared with the trimmed, lower-cased request. */
  function CompanyIndexAsWritten(cs: seq<Company>, name: string): (k: int)
    ensures -1 <= k < |cs|
    ensures k >= 0 ==> Lower(cs[k].companyName) == NameKey(name)
    ensures k < 0 <==> forall c | c in cs :: Lower(c.companyName) != NameKey(name)
  {
    KeyIndex(cs, LoweredName(), NameKey(name))
  }

  /** The lookup the rest of the model uses: both names compared under
      the same key, trimmed and lower-cased. */
  function CompanyIndex(cs: seq<Company>, name: string): (k: int)
    ensures -1 <= k < |cs|
    ensures k >= 0 ==> NameKey(cs[k].companyName) == NameKey(name)
    ensures k < 0 <==> forall c | c in cs :: NameKey(c.companyName) != NameKey(name)
  {
    KeyIndex(cs, CompanyKey(), NameKey(name))
  }

  /** A company registered under a name with leading white space is not
      found again under that same name by the lookup as written, so every
      later registration with it creates another company; the corrected
      lookup finds it. */
  lemma PaddedNameNotFound(c: Company)
    requires |c.companyName| > 0 && IsWhiteSpace(c.companyName[0])
    ensures CompanyIndexAsWritten([c], c.companyName) < 0
    ensures CompanyIndex([c], c.companyName) == 0
  {
    var name := c.companyName;
    assert TrimStart(name) == TrimStart(name[1..]);
    assert |NameKey(name)| < |Lower(name)|;
  }

  /** The concrete case: " Acme". */
  lemma PaddedAcmeNotFound(id: Guid, now: Ticks)
    ensures CompanyIndexAsWritten([Company(id, " Acme", None, true, false, now)], " Acme") < 0
  {
    PaddedNameNotFound(Company(id, " Acme", None, true, false, now));
  }

  predicate UniqueCompanyIds(cs: seq<Company>) {
    forall i, j | 0 <= i < j < |cs| :: cs[i].id != cs[j].id
  }

  /** No two companies share a name key. */
  predicate DistinctCompanyKeys(cs: seq<Company>) {
    DistinctKeys(cs, CompanyKey())
  }

  /** The company the mapping creates: the name as given, the mapped
      storage tier, active, not deleted, created now. */
  function NewCompany(req: RegisterRequest, companyId: Guid, now: Ticks): Company
    requires req.companyName.Some?
  {
    Company(companyId, req.companyName.value, StorageTier(req.storageTier), true, false, now)
  }

  predicate WantsCompany(req: RegisterRequest) {
    req.companyName.Some? && !IsBlank(req.companyName.value)
  }

  /** The companies after the lookup: unchanged when no company is named or
      the name is found, the new company added otherwise. */
  function CompaniesAfter(cs: seq<Company>, req: RegisterRequest, companyId: Guid, now: Ticks): (r: seq<Company>)
    ensures |cs| <= |r| <= |cs| + 1 && r[..|cs|] == cs
  {
    if WantsCompany(req) && CompanyIndex(cs, req.companyName.value) < 0
    then cs + [NewCompany(req, companyId, now)]
    else cs
  }

  /** The company the user joins, once the companies are as CompaniesAfter
      leaves them. */
  function JoinedCompany(cs: seq<Company>, req: RegisterRequest): Option<Company> {
    if WantsCompany(req) && CompanyIndex(cs, req.companyName.value) >= 0
    then Some(cs[CompanyIndex(cs, req.companyName.value)])
    else None
  }

  /** A company added under a fresh key keeps the keys unique. */
  lemma AddedCompanyIds(cs: seq<Company>, c: Company)
    requires UniqueCompanyIds(cs) && forall d | d in cs :: d.id != c.id
    ensures UniqueCompanyIds(cs + [c])
  {
    var cs' := cs + [c];
    forall i, j | 0 <= i < j < |cs'| ensures cs'[i].id != cs'[j].id {
      assert cs'[i] == cs[i] && cs[i] in cs;
      if j < |cs| {
        assert cs'[j] == cs[j];
      }
    }
  }

  /** After the lookup the company keys stay unique and the name keys stay
      distinct. */
  lemma CompaniesAfterValid(cs: seq<Company>, req: RegisterRequest, companyId: Guid, now: Ticks)
    requires UniqueCompanyIds(cs) && DistinctCompanyKeys(cs)
    requires forall c | c in cs :: c.id != companyId
    ensures UniqueCompanyIds(CompaniesAfter(cs, req, companyId, now))
    ensures DistinctCompanyKeys(CompaniesAfter(cs, req, companyId, now))
  {
    if WantsCompany(req) && CompanyIndex(cs, req.companyName.value) < 0 {
      var c := NewCompany(req, companyId, now);
      AddedCompanyIds(cs, c);
      AddedKeyFound(cs, CompanyKey(), c, NameKey(req.companyName.value));
    }
  }

  /** A company found under the name's key is joined and nothing is added;
      a company not found is created from the request and joined. */
  lemma CompaniesAfterFound(cs: seq<Company>, req: RegisterRequest, companyId: Guid, now: Ticks)
    requires DistinctCompanyKeys(cs) && WantsCompany(req)
    ensures var k := CompanyIndex(cs, req.companyName.value);
      k >= 0 ==>
        CompaniesAfter(cs, req, companyId, now) == cs &&
        JoinedCompany(CompaniesAfter(cs, req, companyId, now), req) == Some(cs[k])
    ensures var k := CompanyIndex(cs, req.companyName.value);
      k < 0 ==>
        CompaniesAfter(cs, req, companyId, now) == cs + [NewCompany(req, companyId, now)] &&
        JoinedCompany(CompaniesAfter(cs, req, companyId, now), req) == Some(NewCompany(req, companyId, now))
  {
    if CompanyIndex(cs, req.companyName.value) < 0 {
      AddedKeyFound(cs, CompanyKey(), NewCompany(req, companyId, now), NameKey(req.companyName.value));
    }
  }

  /** After the lookup, a named company is always there to join, under the
      name's key. */
  lemma CompaniesAfterJoin(cs: seq<Company>, req: RegisterRequest, companyId: Guid, now: Ticks)
    requires DistinctCompanyKeys(cs)
    ensures WantsCompany(req) <==> JoinedCompany(CompaniesAfter(cs, req, companyId, now), req).Some?
    ensures WantsCompany(req) ==>
      NameKey(JoinedCompany(CompaniesAfter(cs, req, companyId, now), req).value.companyName) ==
      NameKey(req.companyName.value)
  {
    if WantsCompany(req) {
      CompaniesAfterFound(cs, req, companyId, now);
      var k := CompanyIndex(cs, req.companyName.value);
      if k >= 0 {
        assert NameKey(cs[k].companyName) == NameKey(req.companyName.value);
      }
    }
  }

  /** A later registration under any name with the same key joins the same
      company and creates none. */
  lemma SameKeySameCompany(cs: seq<Company>, req: RegisterRequest, companyId: Guid, now: Ticks,
                           req2: RegisterRequest, companyId2: Guid, now2: Ticks)
    requires DistinctCompanyKeys(cs) && WantsCompany(req) && WantsCompany(req2)
    requires NameKey(req2.companyName.value) == NameKey(req.companyName.value)
    ensures var cs' := CompaniesAfter(cs, req, companyId, now);
      CompaniesAfter(cs', req2, companyId2, now2) == cs' &&
      JoinedCompany(cs', req2) == JoinedCompany(cs', req)
  {
    CompaniesAfterJoin(cs, req, companyId, now);
  }

  // ---------------------------------------------------------------------
  // The new account

  /** The user the mapping and the flags produce, before a role is added:
      the e-mail address is also the user name, the account is active,
      approved and awaiting its first login, the address is unconfirmed. */
  function NewUser(req: RegisterRequest, userId: string, company: Option<Company>, passwordHash: string): User {
    User(userId, req.email, req.email, req.firstName, req.lastName,
         if company.Some? then Some(company.value.id) else None,
         true, true, true, false, passwordHash, [])
  }

  /** The storage tier reported: the joined company's, or "Not selected". */
  function TierText(company: Option<Company>): string {
    if company.Some? && company.value.storageTier.Some? then company.value.storageTier.value else NoTierText
  }

  /** The registration tables: accounts (with their roles) and companies;
      the permission rows are the permission service's. */
  class RegisterStore {
    var users: seq<User>
    var companies: seq<Company>
    const perms: Permissions.PermissionStore

    ghost predicate Valid()
      reads this
    {
      UniqueUserIds(users) && UniqueCompanyIds(companies) && DistinctCompanyKeys(companies)
    }

    constructor(users: seq<User>, companies: seq<Company>, perms: Permissions.PermissionStore)
      requires UniqueUserIds(users) && UniqueCompanyIds(companies) && DistinctCompanyKeys(companies)
      ensures Valid() && this.users == users && this.companies == companies && this.perms == perms
    {
      this.users := users;
      this.companies := companies;
      this.perms := perms;
    }

    /** The account step once the company is settled: CreateAsync, then
        AddToRoleAsync with the validated role, then the default
        permissions. */
    method AddAccount(q: RegisterRequest, company: Option<Company>, validRoles: seq<string>, userId: string,
                      passwordHash: string, createErrors: seq<string>)
      returns (r: Result<RegisterResponse>)
      requires Valid()
      requires forall u | u in users :: u.id != userId
      modifies this, perms
      ensures Valid()
      ensures companies == old(companies)
      ensures |createErrors| > 0 ==> r == Ok(Refused(Join(", ", createErrors))) && users == old(users)
      ensures |createErrors| == 0 && RoleNamed(validRoles, ValidateRole(q.role, validRoles)).None? ==>
        r == Err(RoleMissingMessage) && users == old(users) + [NewUser(q, userId, company, passwordHash)]
      ensures var role := ValidateRole(q.role, validRoles);
        |createErrors| == 0 && RoleNamed(validRoles, role).Some? ==>
          r == Ok(Registered(RegisteredMessage(role), q.email, q.companyName, TierText(company))) &&
          users == old(users) + [NewUser(q, userId, company, passwordHash).(roles := [RoleNamed(validRoles, role).value])]
      ensures var role := ValidateRole(q.role, validRoles);
        perms.userGrants == if |createErrors| == 0 && RoleNamed(validRoles, role).Some?
          then old(perms.userGrants) +
               Permissions.NewGrants(userId, Permissions.DetailIds(Permissions.DefaultsFor(old(perms.permissions), role)))
          else old(perms.userGrants)
      ensures perms.permissions == old(perms.permissions) && perms.roleGrants == old(perms.roleGrants)
      ensures perms.groupGrants == old(perms.groupGrants) && perms.memberships == old(perms.memberships)
    {
      var u := NewUser(q, userId, company, passwordHash);
      if |createErrors| > 0 {
        return Ok(Refused(Join(", ", createErrors)));
      }
      var role := ValidateRole(q.role, validRoles);
      var roleRow := RoleNamed(validRoles, role);
      if roleRow.None? {
        AddedUserValid(users, u);
        users := users + [u];
        return Err(RoleMissingMessage);
      }
      AddedUserValid(users, u.(roles := [roleRow.value]));
      users := users + [u.(roles := [roleRow.value])];
      perms.AssignDefaultPermissions(userId, role);
      r := Ok(Registered(RegisteredMessage(role), q.email, q.companyName, TierText(company)));
    }

    /** RegisterAsync. `tempPassword` is the password e-mailed to the user;
        `hashOf` is Identity's hasher; `createErrors` are the descriptions
        CreateAsync reports. `Err` is an exception: the role is unknown to
        Identity once the user exists. */
    method Register(req: Option<RegisterRequest>, validRoles: seq<string>, userId: string,
                    companyId: Guid, now: Ticks, d: Draws, hashOf: string -> string,
                    createErrors: seq<string>)
      returns (r: Result<RegisterResponse>, tempPassword: string)
      requires Valid() && DrawsFit(d, TempPasswordLength)
      requires forall u | u in users :: u.id != userId
      requires forall c | c in companies :: c.id != companyId
      modifies this, perms
      ensures Valid()
      ensures req.None? ==>
        r == Ok(Refused(InvalidDataMessage)) && users == old(users) && companies == old(companies)
      ensures req.Some? && UserByEmail(old(users), req.value.email).Some? ==>
        r == Ok(Refused(EmailTakenMessage)) && users == old(users) && companies == old(companies)
      ensures req.Some? && UserByEmail(old(users), req.value.email).None? ==>
        tempPassword == Shuffle(Drawn(d, TempPasswordLength), d.keys) &&
        companies == CompaniesAfter(old(companies), req.value, companyId, now)
      ensures req.Some? && UserByEmail(old(users), req.value.email).None? && |createErrors| > 0 ==>
        r == Ok(Refused(Join(", ", createErrors))) && users == old(users)
      ensures req.Some? && UserByEmail(old(users), req.value.email).None? && |createErrors| == 0 ==>
        var q := req.value;
        var u := NewUser(q, userId, JoinedCompany(companies, q), hashOf(tempPassword));
        var role := ValidateRole(q.role, validRoles);
        RoleNamed(validRoles, role).None? ==>
          r == Err(RoleMissingMessage) && users == old(users) + [u]
      ensures req.Some? && UserByEmail(old(users), req.value.email).None? && |createErrors| == 0 ==>
        var q := req.value;
        var company := JoinedCompany(companies, q);
        var u := NewUser(q, userId, company, hashOf(tempPassword));
        var role := ValidateRole(q.role, validRoles);
        RoleNamed(validRoles, role).Some? ==>
          r == Ok(Registered(RegisteredMessage(role), q.email, q.companyName, TierText(company))) &&
          users == old(users) + [u.(roles := [RoleNamed(validRoles, role).value])]
      ensures req.Some? && UserByEmail(old(users), req.value.email).None? && |createErrors| == 0 ==>
        var role := ValidateRole(req.value.role, validRoles);
        RoleNamed(validRoles, role).Some? ==>
          perms.userGrants == old(perms.userGrants) +
            Permissions.NewGrants(userId, Permissions.DetailIds(Permissions.DefaultsFor(old(perms.permissions), role)))
      ensures !(req.Some? && UserByEmail(old(users), req.value.email).None? && |createErrors| == 0 &&
                RoleNamed(validRoles, ValidateRole(req.value.role, validRoles)).Some?) ==>
        perms.userGrants == old(perms.userGrants)
      ensures perms.permissions == old(perms.permissions) && perms.roleGrants == old(perms.roleGrants)
      ensures perms.groupGrants == old(perms.groupGrants) && perms.memberships == old(perms.memberships)
    {
      tempPassword := "";
      if req.None? {
        return Ok(Refused(InvalidDataMessage)), tempPassword;
      }
      var q := req.value;
      if UserByEmail(users, q.email).Some? {
        return Ok(Refused(EmailTakenMessage)), tempPassword;
      }
      CompaniesAfterValid(companies, q, companyId, now);
      var cs := CompaniesAfter(companies, q, companyId, now);
      var company := JoinedCompany(cs, q);
      companies := cs;
      tempPassword := GenerateTempPassword(TempPasswordLength, d);
      assert users == old(users);
      r := AddAccount(q, company, validRoles, userId, hashOf(tempPassword), createErrors);
      assert companies == cs && company == JoinedCompany(companies, q);
    }
  }

  /** A freshly registered account, offered its temporary password, is not
      signed in but asked to reset the password. */
  lemma RegisteredMustReset(users: seq<User>, req: RegisterRequest, userId: string, company: Option<Company>,
                            tempPassword: string, hashOf: string -> string, roles: seq<string>,
                            verify: (string, string) -> bool,
                            companies: seq<Company>, ms: seq<Permissions.Membership>, groups: seq<Groups.Group>,
                            jti: string, guidText: Guid -> string)
    requires UserByEmail(users, req.email).None?
    requires verify(hashOf(tempPassword), tempPassword) && !IsBlank(req.email) && !IsBlank(tempPassword)
    ensures var users' := users + [NewUser(req, userId, company, hashOf(tempPassword)).(roles := roles)];
      var r := SignIn(Some(LoginRequest(req.email, tempPassword)), users', companies, ms, groups, verify, jti, guidText);
      r.Some? && r.value.user.None? && r.value.requirePasswordReset
  {
    var u := NewUser(req, userId, company, hashOf(tempPassword)).(roles := roles);
    var users' := users + [u];
    assert forall j | 0 <= j < |users| :: users'[j] == users[j] && users[j] in users;
    assert users'[|users|] == u;
    assert UserByEmail(users', req.email) == Some(u) by {
      assert FirstIndex(users', EmailIs(req.email)) == |users|;
    }
  }
}

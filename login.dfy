/** LoginService.LoginAsync: the guards a sign-in passes in order (request
    present, account found, approved, active, password verified, first login
    over), and what a successful sign-in reports. The JWT itself (signing key,
    expiry, serialisation) is not modelled; its claims are. The fresh `jti`
    guid and the text of a company guid are parameters. */
module Login {
  import opened Wrappers
  import opened Base
  import opened Seqs
  import opened Text
  import opened Accounts
  import opened Permissions
  import opened Groups

  datatype LoginRequest = LoginRequest(email: string, password: string)

  /** The claims the token carries. */
  datatype Claims = Claims(
    sub: string, email: string, jti: string, name: string, role: string,
    companyName: string, companyId: string)

  /** UserDto as the service fills it (Token aside). */
  datatype LoggedIn = LoggedIn(
    id: string, email: string, firstName: string, lastName: string, role: string,
    companyName: Option<string>, groupId: Option<Guid>, groupName: Option<string>,
    claims: Claims)

  datatype LoginResponse = LoginResponse(user: Option<LoggedIn>, requirePasswordReset: bool, message: string)

  const UnknownAccountMessage: string := "Invalid email or username."
  const PendingApprovalMessage: string := "Your account is pending Superadmin approval."
  const InactiveMessage: string := "Your account is inactive. Contact Superadmin."
  const WrongPasswordMessage: string := "Invalid or Incorrect password."
  const ResetRequiredMessage: string := "You must reset your password before continuing."
  const LoginSuccessMessage: string := "Login successful."

  // ---------------------------------------------------------------------
  // Lookups

  /** companyRepo.GetByIdAsync: the company with that key. */
  function CompanyById(cs: seq<Company>, id: Guid): (r: Option<Company>)
    ensures r.Some? ==> r.value in cs && r.value.id == id
    ensures r.None? <==> forall c | c in cs :: c.id != id
  {
    var k := FirstIndex(cs, (c: Company) => c.id == id);
    if k < 0 then None else Some(cs[k])
  }

  /** The company name a user signs in under: looked up only when the user
      has a CompanyId other than Guid.Empty. */
  function CompanyNameOf(cs: seq<Company>, companyId: Option<Guid>): (r: Option<string>)
    ensures r.Some? <==>
      companyId.Some? && companyId.value != EmptyGuid && exists c | c in cs :: c.id == companyId.value
    ensures r.Some? ==> exists c | c in cs :: c.id == companyId.value && c.companyName == r.value
  {
    if companyId.None? || companyId.value == EmptyGuid then None
    else
      match CompanyById(cs, companyId.value)
      case None => None
      case Some(c) => Some(c.companyName)
  }

  /** userGroupRepo.GetSingleAsync(ug => ug.UserId == id): the user's first
      UserGroup row. */
  function FirstMembership(ms: seq<Membership>, userId: string): (r: Option<Membership>)
    ensures r.Some? ==> r.value in ms && r.value.userId == userId
    ensures r.None? <==> forall m | m in ms :: m.userId != userId
  {
    var k := FirstIndex(ms, MemberIs(userId));
    if k < 0 then None else Some(ms[k])
  }

  /** groupRepo.GetByIdAsync: the group with that key, deleted or not. */
  function GroupByKey(gs: seq<Group>, id: Guid): (r: Option<Group>)
    ensures r.Some? ==> r.value in gs && r.value.id == id
    ensures r.None? <==> forall g | g in gs :: g.id != id
  {
    var k := FirstIndex(gs, (g: Group) => g.id == id);
    if k < 0 then None else Some(gs[k])
  }

  /** The group id and name reported for a user. */
  function GroupOf(ms: seq<Membership>, gs: seq<Group>, userId: string): (r: (Option<Guid>, Option<string>))
    ensures r.0.None? <==> forall m | m in ms :: m.userId != userId
    ensures r.0.Some? ==> Membership(userId, r.0.value) in ms
    ensures r.0.None? ==> r.1.None?
    ensures r.1.Some? ==> exists g | g in gs :: g.id == r.0.value && g.name == r.1.value
  {
    match FirstMembership(ms, userId)
    case None => (None, None)
    case Some(m) =>
      match GroupByKey(gs, m.groupId)
      case None => (Some(m.groupId), None)
      case Some(g) => (Some(m.groupId), Some(g.name))
  }

  // ---------------------------------------------------------------------
  // Sign-in

  /** What lets an account in: approved, active, the password matches the
      stored hash, and the initial password has been replaced. */
  predicate Admits(u: User, password: string, verify: (string, string) -> bool) {
    u.isApproved && u.isActive && verify(u.passwordHash, password) && !u.isFirstLogin
  }

  /** ClaimTypes.Name: first and last name with a space between. */
  function FullName(u: User): (r: string)
    ensures |r| == |u.firstName| + 1 + |u.lastName|
    ensures r[..|u.firstName|] == u.firstName && r[|u.firstName|] == ' ' && r[|u.firstName| + 1..] == u.lastName
  {
    u.firstName + " " + u.lastName
  }

  function ClaimsFor(u: User, role: string, companyName: Option<string>, jti: string,
                     guidText: Guid -> string): Claims {
    Claims(u.id, u.email, jti, FullName(u), role, companyName.GetOr(""),
           if u.companyId.Some? then guidText(u.companyId.value) else "")
  }

  /** The response to a request once the user has been looked up. */
  function Answer(found: Option<User>, password: string, companies: seq<Company>,
                  ms: seq<Membership>, groups: seq<Group>, verify: (string, string) -> bool,
                  jti: string, guidText: Guid -> string): LoginResponse {
    if found.None? then LoginResponse(None, false, UnknownAccountMessage)
    else
      var u := found.value;
      if !u.isApproved then LoginResponse(None, false, PendingApprovalMessage)
      else if !u.isActive then LoginResponse(None, false, InactiveMessage)
      else if !verify(u.passwordHash, password) then LoginResponse(None, false, WrongPasswordMessage)
      else if u.isFirstLogin then LoginResponse(None, true, ResetRequiredMessage)
      else
        var role := RoleOf(u);
        var companyName := CompanyNameOf(companies, u.companyId);
        var (groupId, groupName) := GroupOf(ms, groups, u.id);
        LoginResponse(
          Some(LoggedIn(u.id, u.email, u.firstName, u.lastName, role, companyName, groupId, groupName,
                        ClaimsFor(u, role, companyName, jti, guidText))),
          false, LoginSuccessMessage)
  }

  /** LoginAsync. `None` is the null the service returns for a missing or
      blank request. */
  function SignIn(req: Option<LoginRequest>, users: seq<User>, companies: seq<Company>,
                  ms: seq<Membership>, groups: seq<Group>, verify: (string, string) -> bool,
                  jti: string, guidText: Guid -> string): (r: Option<LoginResponse>)
    ensures r.None? <==> req.None? || IsBlank(req.value.email) || IsBlank(req.value.password)
    ensures r.Some? ==> r.value == Answer(UserByEmail(users, req.value.email), req.value.password,
                                          companies, ms, groups, verify, jti, guidText)
  {
    if req.None? || IsBlank(req.value.email) || IsBlank(req.value.password) then None
    else Some(Answer(UserByEmail(users, req.value.email), req.value.password,
                     companies, ms, groups, verify, jti, guidText))
  }

  // ---------------------------------------------------------------------
  // What a sign-in promises

  /** A user is signed in exactly when the first account with that e-mail
      address (ignoring case) admits the password; a password reset is
      demanded exactly when everything but the first-login flag admits it. */
  lemma SignInAdmitsExactly(req: LoginRequest, users: seq<User>, companies: seq<Company>,
                            ms: seq<Membership>, groups: seq<Group>, verify: (string, string) -> bool,
                            jti: string, guidText: Guid -> string)
    requires !IsBlank(req.email) && !IsBlank(req.password)
    ensures var r := SignIn(Some(req), users, companies, ms, groups, verify, jti, guidText).value;
      var found := UserByEmail(users, req.email);
      (r.user.Some? <==> found.Some? && Admits(found.value, req.password, verify)) &&
      (r.requirePasswordReset <==>
         found.Some? && found.value.isApproved && found.value.isActive &&
         verify(found.value.passwordHash, req.password) && found.value.isFirstLogin) &&
      !(r.user.Some? && r.requirePasswordReset)
  {
  }

  /** A signed-in user is an account of the store whose e-mail address
      matches the request's, ignoring case, and which admits the password;
      the response and its claims describe that account. */
  lemma SignedInUser(req: LoginRequest, users: seq<User>, companies: seq<Company>,
                     ms: seq<Membership>, groups: seq<Group>, verify: (string, string) -> bool,
                     jti: string, guidText: Guid -> string)
    requires var r := SignIn(Some(req), users, companies, ms, groups, verify, jti, guidText);
      r.Some? && r.value.user.Some?
    ensures var d := SignIn(Some(req), users, companies, ms, groups, verify, jti, guidText).value.user.value;
      exists u | u in users ::
        Lower(u.email) == Lower(req.email) && Admits(u, req.password, verify) &&
        d.id == u.id && d.email == u.email && d.role == RoleOf(u) &&
        d.claims.sub == u.id && d.claims.email == u.email && d.claims.role == d.role &&
        d.claims.jti == jti && d.claims.name == u.firstName + " " + u.lastName &&
        d.claims.companyName == d.companyName.GetOr("") &&
        d.companyName == CompanyNameOf(companies, u.companyId) &&
        (u.companyId.None? ==> d.claims.companyId == "") &&
        (u.companyId.Some? ==> d.claims.companyId == guidText(u.companyId.value))
  {
    var u := UserByEmail(users, req.email).value;
    assert u in users;
  }

  /** An account that is not approved, or not active, gets the same answer
      whatever password is offered: the response does not reveal whether
      the password was right. */
  lemma LockedAccountIgnoresPassword(email: string, p1: string, p2: string, users: seq<User>,
                                     companies: seq<Company>, ms: seq<Membership>, groups: seq<Group>,
                                     verify: (string, string) -> bool, jti: string, guidText: Guid -> string)
    requires !IsBlank(email) && !IsBlank(p1) && !IsBlank(p2)
    requires var found := UserByEmail(users, email);
      found.Some? && (!found.value.isApproved || !found.value.isActive)
    ensures SignIn(Some(LoginRequest(email, p1)), users, companies, ms, groups, verify, jti, guidText) ==
            SignIn(Some(LoginRequest(email, p2)), users, companies, ms, groups, verify, jti, guidText)
    ensures SignIn(Some(LoginRequest(email, p1)), users, companies, ms, groups, verify, jti, guidText).value.user.None?
  {
  }

  /** The e-mail address is matched ignoring case: two requests whose
      addresses differ only in letter case get the same answer. */
  lemma SignInIgnoresEmailCase(e1: string, e2: string, password: string, users: seq<User>,
                               companies: seq<Company>, ms: seq<Membership>, groups: seq<Group>,
                               verify: (string, string) -> bool, jti: string, guidText: Guid -> string)
    requires Lower(e1) == Lower(e2) && !IsBlank(e1) && !IsBlank(e2) && !IsBlank(password)
    ensures SignIn(Some(LoginRequest(e1, password)), users, companies, ms, groups, verify, jti, guidText) ==
            SignIn(Some(LoginRequest(e2, password)), users, companies, ms, groups, verify, jti, guidText)
  {
    var a := FirstIndex(users, EmailIs(e1));
    var b := FirstIndex(users, EmailIs(e2));
    assert forall u: User :: EmailIs(e1)(u) == EmailIs(e2)(u);
    assert a == b;
  }
}

/** ResetPasswordService: changing a password (refused when it matches one
    of the last five, otherwise recorded in the history, which is then cut
    back to five entries) and replacing the initial password handed out at
    registration. Identity's ChangePasswordAsync is modelled by its two
    refusals: a current password that does not verify, and the password
    validators' error descriptions, which are a parameter. The hasher's
    answer, new hashes and history keys are parameters too. */
module ResetPassword {
  import opened Wrappers
  import opened Base
  import opened Text
  import opened IdChecks
  import opened Accounts
  import opened PasswordHistory
  import opened Login
  import Permissions
  import Groups

  const UserNotFoundMessage: string := "User not found"
  /** IdentityErrorDescriber.PasswordMismatch. */
  const IncorrectPasswordMessage: string := "Incorrect password."
  const PasswordChangedMessage: string := "Password changed successfully"

  const EmailMissingMessage: string := "Email is required."
  const InitialUserNotFoundMessage: string := "User not found."
  const NotApprovedMessage: string := "Your account is not approved yet. Please wait for Superadmin approval."
  const OldPasswordIncorrectMessage: string := "Old password is incorrect."
  const TooShortMessage: string := "New password must be at least 8 characters long."
  const InitialPasswordChangedMessage: string := "Password changed successfully."

  /** The shortest initial-password replacement accepted. */
  const MinPasswordLength: nat := 8

  /** Why ChangePasswordAsync refuses, in the order it checks; `None` when it
      goes through. */
  function ChangeRefusal(users: seq<User>, history: seq<HistoryEntry>, email: string,
                         currentPassword: string, newPassword: string,
                         hasher: (string, string) -> PasswordVerification, policyErrors: seq<string>): Option<string> {
    var k := IndexOfEmail(users, email);
    if k < 0 then Some(UserNotFoundMessage)
    else if Reused(history, users[k].id, newPassword, hasher) then Some(ReuseMessage)
    else if hasher(users[k].passwordHash, currentPassword) == Failed then Some(IncorrectPasswordMessage)
    else if |policyErrors| > 0 then Some(Join(", ", policyErrors))
    else None
  }

  /** Why ChangeInitialPasswordAsync refuses, in the order it checks. */
  function InitialChangeRefusal(users: seq<User>, email: string, currentPassword: string,
                                newPassword: string, verify: (string, string) -> bool): Option<string> {
    if IsBlank(email) then Some(EmailMissingMessage)
    else
      var k := IndexOfEmail(users, email);
      if k < 0 then Some(InitialUserNotFoundMessage)
      else if !users[k].isApproved then Some(NotApprovedMessage)
      else if !verify(users[k].passwordHash, currentPassword) then Some(OldPasswordIncorrectMessage)
      else if IsBlank(newPassword) || Utf16Length(newPassword) < MinPasswordLength then Some(TooShortMessage)
      else None
  }

  /** A change goes through exactly when the account exists, none of its
      last five hashes verifies the new password with Success, the current
      password verifies (Success or SuccessRehashNeeded) and the validators
      report nothing. */
  lemma ChangeAcceptedExactly(users: seq<User>, history: seq<HistoryEntry>, email: string,
                              currentPassword: string, newPassword: string,
                              hasher: (string, string) -> PasswordVerification, policyErrors: seq<string>)
    ensures ChangeRefusal(users, history, email, currentPassword, newPassword, hasher, policyErrors).None? <==>
      exists u | u in users ::
        UserByEmail(users, email) == Some(u) &&
        (forall e | e in Last5(history, u.id) :: hasher(e.passwordHash, newPassword) != Success) &&
        hasher(u.passwordHash, currentPassword) != Failed && |policyErrors| == 0
  {
    var k := IndexOfEmail(users, email);
    if k >= 0 {
      assert users[k] in users;
    }
  }

  /** An initial change goes through exactly when the account exists, is
      approved, the current password verifies and the new one has at least
      eight UTF-16 code units and is not all white space. */
  lemma InitialChangeAcceptedExactly(users: seq<User>, email: string, currentPassword: string,
                                     newPassword: string, verify: (string, string) -> bool)
    ensures InitialChangeRefusal(users, email, currentPassword, newPassword, verify).None? <==>
      !IsBlank(email) && Utf16Length(newPassword) >= MinPasswordLength && !IsBlank(newPassword) &&
      exists u | u in users ::
        UserByEmail(users, email) == Some(u) && u.isApproved && verify(u.passwordHash, currentPassword)
  {
    var k := IndexOfEmail(users, email);
    if k >= 0 {
      assert users[k] in users;
    }
  }

  /** After an initial change goes through, an active account signs in
      with the new password (when it verifies against the new hash) without
      being asked for another reset. */
  lemma InitialChangeUnlocksSignIn(users: seq<User>, email: string, currentPassword: string,
                                   newPassword: string, verify: (string, string) -> bool, newHash: string,
                                   companies: seq<Company>, ms: seq<Permissions.Membership>, groups: seq<Groups.Group>,
                                   jti: string, guidText: Guid -> string)
    requires InitialChangeRefusal(users, email, currentPassword, newPassword, verify).None?
    requires users[IndexOfEmail(users, email)].isActive && verify(newHash, newPassword)
    ensures var k := IndexOfEmail(users, email);
      var users' := users[k := users[k].(passwordHash := newHash, isFirstLogin := false)];
      var r := SignIn(Some(LoginRequest(email, newPassword)), users', companies, ms, groups, verify, jti, guidText);
      r.Some? && r.value.user.Some? && !r.value.requirePasswordReset && r.value.user.value.id == users[k].id
  {
    var k := IndexOfEmail(users, email);
    UserByEmailUpdated(users, email, users[k].(passwordHash := newHash, isFirstLogin := false));
  }

  /** After a change goes through, the account signs in with the new
      password exactly when it did pass the approval, activity and
      first-login guards before. */
  lemma ChangeSignsIn(users: seq<User>, history: seq<HistoryEntry>, email: string,
                      currentPassword: string, newPassword: string, hasher: (string, string) -> PasswordVerification,
                      policyErrors: seq<string>, newHash: string,
                      companies: seq<Company>, ms: seq<Permissions.Membership>, groups: seq<Groups.Group>,
                      jti: string, guidText: Guid -> string)
    requires ChangeRefusal(users, history, email, currentPassword, newPassword, hasher, policyErrors).None?
    requires hasher(newHash, newPassword) != Failed && !IsBlank(email) && !IsBlank(newPassword)
    ensures var k := IndexOfEmail(users, email);
      var users' := users[k := users[k].(passwordHash := newHash)];
      var r := SignIn(Some(LoginRequest(email, newPassword)), users', companies, ms, groups, Accepts(hasher), jti, guidText);
      r.value.user.Some? <==> users[k].isApproved && users[k].isActive && !users[k].isFirstLogin
  {
    var k := IndexOfEmail(users, email);
    UserByEmailUpdated(users, email, users[k].(passwordHash := newHash));
  }

  /** Once a change goes through at an instant later than the user's other
      history entries, offering a password the new hash verifies with
      Success is refused as a reuse at the next change. */
  lemma ChangeThenReuseRefused(users: seq<User>, history: seq<HistoryEntry>, email: string,
                               currentPassword: string, newPassword: string, hasher: (string, string) -> PasswordVerification,
                               policyErrors: seq<string>, newHash: string, historyId: Guid, now: Ticks,
                               laterCurrent: string, again: string, laterErrors: seq<string>)
    requires UniqueKeys(history, EntryId()) && forall e | e in history :: e.id != historyId
    requires ChangeRefusal(users, history, email, currentPassword, newPassword, hasher, policyErrors).None?
    requires var k := IndexOfEmail(users, email);
      forall e | e in history && e.userId == users[k].id :: e.changedOn < now
    requires hasher(newHash, again) == Success
    ensures var k := IndexOfEmail(users, email);
      var users' := users[k := users[k].(passwordHash := newHash)];
      var history' := Recorded(history, users[k].id, newHash, historyId, now);
      ChangeRefusal(users', history', email, laterCurrent, again, hasher, laterErrors) == Some(ReuseMessage)
  {
    var k := IndexOfEmail(users, email);
    var u := users[k];
    var users' := users[k := u.(passwordHash := newHash)];
    UserByEmailUpdated(users, email, u.(passwordHash := newHash));
    RecordedIsReused(history, u.id, newHash, historyId, now, again, hasher);
    assert users'[k].id == u.id;
  }

  /** The accounts and the password history the service works on. */
  class PasswordStore {
    var users: seq<User>
    var history: seq<HistoryEntry>

    ghost predicate Valid()
      reads this
    {
      UniqueUserIds(users) && UniqueKeys(history, EntryId())
    }

    constructor(users: seq<User>, history: seq<HistoryEntry>)
      requires UniqueUserIds(users) && UniqueKeys(history, EntryId())
      ensures Valid() && this.users == users && this.history == history
    {
      this.users := users;
      this.history := history;
    }

    /** Stores a new hash for user k, adds it to the history under a fresh
        key, and deletes the user's entries beyond the five newest. */
    method RecordPassword(k: nat, newHash: string, historyId: Guid, now: Ticks)
      requires Valid() && k < |users|
      requires forall e | e in history :: e.id != historyId
      modifies this
      ensures Valid()
      ensures users == old(users)[k := old(users)[k].(passwordHash := newHash)]
      ensures history == Recorded(old(history), old(users)[k].id, newHash, historyId, now)
    {
      var u := users[k].(passwordHash := newHash);
      var added := history + [HistoryEntry(historyId, u.id, newHash, now)];
      var trimmed := TrimHistory(added, u.id);
      ReplacedUserValid(users, k, u);
      RecordedValid(history, u.id, newHash, historyId, now);
      users := users[k := u];
      history := trimmed;
    }

    /** ChangePasswordAsync. */
    method ChangePassword(email: string, currentPassword: string, newPassword: string,
                          hasher: (string, string) -> PasswordVerification, newHash: string, policyErrors: seq<string>,
                          historyId: Guid, now: Ticks) returns (message: string)
      requires Valid()
      requires forall e | e in history :: e.id != historyId
      modifies this
      ensures Valid()
      ensures var refusal := ChangeRefusal(old(users), old(history), email, currentPassword, newPassword, hasher, policyErrors);
        if refusal.Some? then
          message == refusal.value && users == old(users) && history == old(history)
        else
          var k := IndexOfEmail(old(users), email);
          message == PasswordChangedMessage &&
          users == old(users)[k := old(users)[k].(passwordHash := newHash)] &&
          history == Recorded(old(history), old(users)[k].id, newHash, historyId, now)
    {
      var k := IndexOfEmail(users, email);
      if k < 0 {
        return UserNotFoundMessage;
      }
      var u := users[k];
      var reused := IsReused(Last5(history, u.id), newPassword, hasher);
      if reused {
        return ReuseMessage;
      }
      if hasher(u.passwordHash, currentPassword) == Failed {
        return IncorrectPasswordMessage;
      }
      if |policyErrors| > 0 {
        return Join(", ", policyErrors);
      }
      RecordPassword(k, newHash, historyId, now);
      message := PasswordChangedMessage;
    }

    /** ChangeInitialPasswordAsync: the new hash replaces the initial one and
        the first-login flag is cleared; the history is not touched. */
    method ChangeInitialPassword(email: string, currentPassword: string, newPassword: string,
                                 verify: (string, string) -> bool, newHash: string)
      returns (message: string)
      requires Valid()
      modifies this
      ensures Valid()
      ensures history == old(history)
      ensures var refusal := InitialChangeRefusal(old(users), email, currentPassword, newPassword, verify);
        if refusal.Some? then
          message == refusal.value && users == old(users)
        else
          var k := IndexOfEmail(old(users), email);
          message == InitialPasswordChangedMessage &&
          users == old(users)[k := old(users)[k].(passwordHash := newHash, isFirstLogin := false)]
    {
      if IsBlank(email) {
        return EmailMissingMessage;
      }
      var k := IndexOfEmail(users, email);
      if k < 0 {
        return InitialUserNotFoundMessage;
      }
      var u := users[k];
      if !u.isApproved {
        return NotApprovedMessage;
      }
      if !verify(u.passwordHash, currentPassword) {
        return OldPasswordIncorrectMessage;
      }
      if IsBlank(newPassword) || Utf16Length(newPassword) < MinPasswordLength {
        return TooShortMessage;
      }
      ReplacedUserValid(users, k, u.(passwordHash := newHash, isFirstLogin := false));
      users := users[k := u.(passwordHash := newHash, isFirstLogin := false)];
      message := InitialPasswordChangedMessage;
    }
  }
}

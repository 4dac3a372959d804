/** ForgotPasswordService: a one-time code is e-mailed to a known account,
    and a password is reset with a code that is still usable. The code
    store is EmailService's VerifyEmail table; accounts and the password
    history are those the password-change service works on. */
module ForgotPassword {
  import opened Wrappers
  import opened Base
  import opened Text
  import opened IdChecks
  import opened Accounts
  import opened PasswordHistory
  import opened EmailOtp
  import opened ResetPassword
  import opened Login
  import Permissions
  import Groups

  const ForgotUserNotFoundMessage: string := "User not found with this email."
  const ForgotOtpSentMessage: string := "OTP is sent successfully to your email address."
  const ResetFieldsRequiredMessage: string := "Email, OTP, and new password are required."
  const InvalidOtpMessage: string := "Invalid or expired OTP."
  const ResetUserNotFoundMessage: string := "User not found."
  const ResetDoneMessage: string := "Password has been reset successfully."

  /** ForgotPasswordResponseDto; the names are null when no user was found. */
  datatype ForgotResponse = ForgotResponse(success: bool, message: string, firstName: Option<string>, lastName: Option<string>)

  /** VerifyOtpResponseDto. */
  datatype ResetResponse = ResetResponse(success: bool, message: string, email: Option<string>)

  /** The reset's first guard: an address, a code and a new password are
      all required. */
  predicate MissingInput(email: string, otp: string, newPassword: string) {
    IsBlank(email) || IsBlank(otp) || IsBlank(newPassword)
  }

  /** Why VerifyOtpAndResetPasswordAsync refuses, in the order it checks;
      `None` when the password is reset. */
  function ResetRefusal(users: seq<User>, history: seq<HistoryEntry>, records: seq<OtpRecord>,
                        email: string, otp: string, newPassword: string,
                        hasher: (string, string) -> PasswordVerification, now: Ticks): Option<string> {
    if MissingInput(email, otp, newPassword) then Some(ResetFieldsRequiredMessage)
    else if MatchIndex(records, EmailKey(email), Trim(otp), now) < 0 then Some(InvalidOtpMessage)
    else
      var k := IndexOfEmail(users, EmailKey(email));
      if k < 0 then Some(ResetUserNotFoundMessage)
      else if Reused(history, users[k].id, newPassword, hasher) then Some(ReuseMessage)
      else None
  }

  /** A reset goes through exactly when all three inputs are present, a
      usable code matches the normalised address and the trimmed code, an
      account has that address, and none of its last five hashes verifies
      the new password with Success. */
  lemma ResetAcceptedExactly(users: seq<User>, history: seq<HistoryEntry>, records: seq<OtpRecord>,
                             email: string, otp: string, newPassword: string,
                             hasher: (string, string) -> PasswordVerification, now: Ticks)
    ensures ResetRefusal(users, history, records, email, otp, newPassword, hasher, now).None? <==>
      !MissingInput(email, otp, newPassword) &&
      (exists o | o in records :: Usable(EmailKey(email), Trim(otp), now)(o)) &&
      exists u | u in users ::
        UserByEmail(users, EmailKey(email)) == Some(u) &&
        forall e | e in Last5(history, u.id) :: hasher(e.passwordHash, newPassword) != Success
  {
    var k := IndexOfEmail(users, EmailKey(email));
    if k >= 0 {
      assert users[k] in users;
    }
    var m := MatchIndex(records, EmailKey(email), Trim(otp), now);
    if m >= 0 {
      assert records[m] in records;
    }
  }

  /** A code that reset a password cannot reset it again, at any later
      time and whatever the new password. */
  lemma ResetConsumesCode(users: seq<User>, history: seq<HistoryEntry>, records: seq<OtpRecord>,
                          email: string, otp: string, newPassword: string,
                          hasher: (string, string) -> PasswordVerification, now: Ticks,
                          users': seq<User>, history': seq<HistoryEntry>, otherPassword: string, later: Ticks)
    requires OnePerEmail(records)
    requires ResetRefusal(users, history, records, email, otp, newPassword, hasher, now).None?
    requires !IsBlank(otherPassword)
    ensures var m := MatchIndex(records, EmailKey(email), Trim(otp), now);
      ResetRefusal(users', history', MarkedUsed(records, m), email, otp, otherPassword, hasher, later) ==
      Some(InvalidOtpMessage)
  {
    SingleUse(records, EmailKey(email), Trim(otp), now, later);
  }

  /** The reset flow's stores: accounts with their password history, and
      the one-time codes. */
  class ForgotStore {
    const accounts: PasswordStore
    const otps: OtpStore

    ghost predicate Valid()
      reads this, accounts, otps
    {
      accounts.Valid() && otps.Valid()
    }

    constructor(accounts: PasswordStore, otps: OtpStore)
      requires accounts.Valid() && otps.Valid()
      ensures Valid() && this.accounts == accounts && this.otps == otps
    {
      this.accounts := accounts;
      this.otps := otps;
    }

    /** SendForgotPasswordOtpAsync: an unknown address is answered without
        a code; otherwise a code is issued for the address (SendOtpAsync,
        whose exception for a blank address propagates as `Err`). `code` is
        the value Random draws. */
    method SendForgotPasswordOtp(email: string, code: nat, now: Ticks) returns (r: Result<ForgotResponse>)
      requires Valid()
      requires MinCode <= code < MaxCode
      modifies otps
      ensures Valid()
      ensures var found := UserByEmail(accounts.users, email);
        if found.None? then
          r == Ok(ForgotResponse(false, ForgotUserNotFoundMessage, None, None)) && otps.records == old(otps.records)
        else if IsBlank(email) then
          r == Err(EmailRequiredMessage) && otps.records == old(otps.records)
        else
          r == Ok(ForgotResponse(true, ForgotOtpSentMessage, Some(found.value.firstName), Some(found.value.lastName))) &&
          otps.records == Reissued(old(otps.records), EmailKey(email), code, now)
    {
      var found := UserByEmail(accounts.users, email);
      if found.None? {
        return Ok(ForgotResponse(false, ForgotUserNotFoundMessage, None, None));
      }
      var sent := otps.SendOtp(email, code, now);
      if sent.Err? {
        return Err(sent.message);
      }
      r := Ok(ForgotResponse(true, ForgotOtpSentMessage, Some(found.value.firstName), Some(found.value.lastName)));
    }

    /** VerifyOtpAndResetPasswordAsync. The code is used up as soon as it
        verifies, even when the reset is then refused. `newHash` is the hash
        of the new password; `historyId` is the new history row's key. */
    method VerifyOtpAndResetPassword(email: string, otp: string, newPassword: string,
                                     hasher: (string, string) -> PasswordVerification, newHash: string,
                                     historyId: Guid, now: Ticks)
      returns (r: ResetResponse)
      requires Valid()
      requires forall e | e in accounts.history :: e.id != historyId
      modifies accounts, otps
      ensures Valid()
      ensures r.success <==>
        ResetRefusal(old(accounts.users), old(accounts.history), old(otps.records), email, otp, newPassword, hasher, now).None?
      ensures var refusal := ResetRefusal(old(accounts.users), old(accounts.history), old(otps.records),
                                          email, otp, newPassword, hasher, now);
        refusal.Some? ==>
          r == ResetResponse(false, refusal.value, None) &&
          accounts.users == old(accounts.users) && accounts.history == old(accounts.history)
      ensures var k := IndexOfEmail(old(accounts.users), EmailKey(email));
        ResetRefusal(old(accounts.users), old(accounts.history), old(otps.records),
                     email, otp, newPassword, hasher, now).None? ==>
          r == ResetResponse(true, ResetDoneMessage, Some(EmailKey(email))) &&
          accounts.users == old(accounts.users)[k := old(accounts.users)[k].(passwordHash := newHash)] &&
          accounts.history == Recorded(old(accounts.history), old(accounts.users)[k].id, newHash, historyId, now)
      ensures MissingInput(email, otp, newPassword) || MatchIndex(old(otps.records), EmailKey(email), Trim(otp), now) < 0 ==>
        otps.records == old(otps.records)
      ensures var m := MatchIndex(old(otps.records), EmailKey(email), Trim(otp), now);
        !MissingInput(email, otp, newPassword) && m >= 0 ==> otps.records == MarkedUsed(old(otps.records), m)
    {
      ghost var refusal := ResetRefusal(accounts.users, accounts.history, otps.records, email, otp, newPassword, hasher, now);
      if MissingInput(email, otp, newPassword) {
        return ResetResponse(false, ResetFieldsRequiredMessage, None);
      }
      var verified, verifiedEmail := otps.VerifyOtp(email, otp, now);
      if !verified {
        assert refusal == Some(InvalidOtpMessage);
        return ResetResponse(false, InvalidOtpMessage, None);
      }
      var key := verifiedEmail.value;
      var k := IndexOfEmail(accounts.users, key);
      if k < 0 {
        assert refusal == Some(ResetUserNotFoundMessage);
        return ResetResponse(false, ResetUserNotFoundMessage, None);
      }
      var u := accounts.users[k];
      var reused := IsReused(Last5(accounts.history, u.id), newPassword, hasher);
      if reused {
        assert refusal == Some(ReuseMessage);
        return ResetResponse(false, ReuseMessage, None);
      }
      assert refusal.None?;
      accounts.RecordPassword(k, newHash, historyId, now);
      r := ResetResponse(true, ResetDoneMessage, Some(key));
    }
  }

  /** After a reset, the account signs in under the normalised address with
      the new password (when it verifies against the new hash) exactly when
      it is approved, active and past its first login. */
  lemma ResetSignsIn(users: seq<User>, history: seq<HistoryEntry>, records: seq<OtpRecord>,
                     email: string, otp: string, newPassword: string,
                     hasher: (string, string) -> PasswordVerification, now: Ticks, newHash: string,
                     companies: seq<Company>, ms: seq<Permissions.Membership>, groups: seq<Groups.Group>,
                     jti: string, guidText: Guid -> string)
    requires ResetRefusal(users, history, records, email, otp, newPassword, hasher, now).None?
    requires hasher(newHash, newPassword) != Failed
    ensures var key := EmailKey(email);
      var k := IndexOfEmail(users, key);
      var users' := users[k := users[k].(passwordHash := newHash)];
      var r := SignIn(Some(LoginRequest(key, newPassword)), users', companies, ms, groups, Accepts(hasher), jti, guidText);
      r.Some? &&
      (r.value.user.Some? <==> users[k].isApproved && users[k].isActive && !users[k].isFirstLogin)
  {
    var key := EmailKey(email);
    var k := IndexOfEmail(users, key);
    NameKeyBlank(email);
    UserByEmailUpdated(users, key, users[k].(passwordHash := newHash));
  }
}

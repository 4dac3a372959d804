/** EmailService: template placeholders and the one-time password records
    (VerifyEmail rows) behind the forgot-password flow. Sending mail over
    SMTP and loading templates are outside the model; the code drawn from
    Random and the clock are parameters. */
module EmailOtp {
  import opened Wrappers
  import opened Base
  import opened Seqs
  import opened Text

  // ---------------------------------------------------------------------
  // Templates

  /** The message of the ArgumentException string.Replace raises for an
      empty pattern. */
  const EmptyPatternMessage: string := "String cannot be of zero length."

  /** The placeholders in the dictionary's enumeration order (insertion
      order); a null value stands for "". */
  type Placeholders = seq<(string, Option<string>)>

  /** The template after replacing each placeholder in turn. */
  function Substituted(template: string, ps: Placeholders): (r: Result<string>)
    ensures r.Err? <==> exists i | 0 <= i < |ps| :: ps[i].0 == ""
    decreases |ps|
  {
    if |ps| == 0 then Ok(template)
    else if ps[0].0 == "" then Err(EmptyPatternMessage)
    else
      var r := Substituted(Replace(template, ps[0].0, ps[0].1.GetOr("")), ps[1..]);
      assert forall i | 1 <= i < |ps| :: ps[i] == ps[1..][i - 1];
      assert forall i | 0 <= i < |ps| - 1 :: ps[1..][i] == ps[i + 1];
      r
  }

  /** ReplacePlaceholders: `template = template.Replace(key, value ?? "")`
      for every placeholder, in order. */
  method ReplacePlaceholders(template: string, ps: Placeholders) returns (r: Result<string>)
    ensures r == Substituted(template, ps)
  {
    var t := template;
    var i := 0;
    while i < |ps|
      invariant 0 <= i <= |ps|
      invariant Substituted(t, ps[i..]) == Substituted(template, ps)
    {
      var (key, value) := ps[i];
      if key == "" {
        assert ps[i..][0] == ps[i];
        return Err(EmptyPatternMessage);
      }
      assert ps[i..][1..] == ps[i + 1..];
      t := Replace(t, key, value.GetOr(""));
      i := i + 1;
    }
    r := Ok(t);
  }

  /** A template holding none of the placeholders is sent unchanged. */
  lemma {:induction false} NoPlaceholdersUnchanged(template: string, ps: Placeholders)
    requires forall i | 0 <= i < |ps| :: ps[i].0 != "" && !Contains(template, ps[i].0)
    ensures Substituted(template, ps) == Ok(template)
    decreases |ps|
  {
    if |ps| > 0 {
      ReplaceAbsent(template, ps[0].0, ps[0].1.GetOr(""));
      assert forall i | 0 <= i < |ps| - 1 :: ps[1..][i] == ps[i + 1];
      NoPlaceholdersUnchanged(template, ps[1..]);
    }
  }

  /** A null value is replaced exactly like an empty one. */
  lemma {:induction false} NullValueIsEmpty(template: string, ps: Placeholders, k: nat)
    requires k < |ps| && ps[k].1 == None
    ensures Substituted(template, ps) == Substituted(template, ps[k := (ps[k].0, Some(""))])
    decreases |ps|
  {
    var qs := ps[k := (ps[k].0, Some(""))];
    if k > 0 && ps[0].0 == "" {
      assert qs[0] == ps[0];
    } else if k > 0 {
      assert qs[0] == ps[0];
      assert qs[1..] == ps[1..][k - 1 := (ps[k].0, Some(""))];
      NullValueIsEmpty(Replace(template, ps[0].0, ps[0].1.GetOr("")), ps[1..], k - 1);
    } else {
      assert qs[1..] == ps[1..];
    }
  }

  // ---------------------------------------------------------------------
  // One-time passwords

  /** A VerifyEmail row. The identity column Id is not modelled. */
  datatype OtpRecord = OtpRecord(email: string, otp: string, expiryTime: Ticks, isVerified: bool)

  const EmailRequiredMessage: string := "Email address is required."
  const OtpSentMessage: string := "An OTP has been sent to your email address."

  /** An OTP expires five minutes after it is issued. */
  const OtpLifetime: Ticks := 5 * TicksPerMinute

  /** The bounds of `new Random().Next(100000, 999999)`: the upper one is
      exclusive, so 999999 itself is never drawn. */
  const MinCode: nat := 100000
  const MaxCode: nat := 999999

  /** e-mail addresses are stored trimmed and lower-cased. */
  function EmailKey(email: string): string {
    NameKey(email)
  }

  /** The row SendOtpAsync adds. */
  function Issued(key: string, code: nat, now: Ticks): (r: OtpRecord)
    ensures r.email == key && !r.isVerified && r.expiryTime == now + OtpLifetime
    ensures r.otp == DecimalString(code)
  {
    OtpRecord(key, DecimalString(code), now + OtpLifetime, false)
  }

  function OtherEmail(key: string): OtpRecord -> bool {
    (o: OtpRecord) => o.email != key
  }

  /** The filter of VerifyOtpAsync: same address and code, not expired at
      `now` (the expiry instant itself still counts), not used before. */
  function Usable(key: string, otp: string, now: Ticks): OtpRecord -> bool {
    (o: OtpRecord) => o.email == key && o.otp == otp && o.expiryTime >= now && !o.isVerified
  }

  /** SendOtpAsync deletes every older record for the address first, so
      each address has at most one record. */
  predicate OnePerEmail(rs: seq<OtpRecord>) {
    forall i, j | 0 <= i < j < |rs| :: rs[i].email != rs[j].email
  }

  /** The records after issuing a code: the address's older records are
      gone and the new one is last. */
  function Reissued(rs: seq<OtpRecord>, key: string, code: nat, now: Ticks): seq<OtpRecord> {
    Filter(rs, OtherEmail(key)) + [Issued(key, code, now)]
  }

  /** The position VerifyOtpAsync picks, or -1. */
  function MatchIndex(rs: seq<OtpRecord>, key: string, otp: string, now: Ticks): (k: int)
    ensures -1 <= k < |rs|
    ensures k >= 0 ==> Usable(key, otp, now)(rs[k])
    ensures k < 0 <==> forall o | o in rs :: !Usable(key, otp, now)(o)
  {
    FirstIndex(rs, Usable(key, otp, now))
  }

  /** The records after marking the matched one used. */
  function MarkedUsed(rs: seq<OtpRecord>, k: nat): seq<OtpRecord>
    requires k < |rs|
  {
    rs[k := rs[k].(isVerified := true)]
  }

  /** The six decimal digits of every code Random can draw. */
  lemma SixDigitCode(code: nat)
    requires MinCode <= code < MaxCode
    ensures |DecimalString(code)| == 6 && AllDigits(DecimalString(code))
  {
    assert Pow10(5) == 100000 && Pow10(6) == 1000000 by {
      assert Pow10(1) == 10 && Pow10(2) == 100 && Pow10(3) == 1000 && Pow10(4) == 10000;
    }
    DecimalStringLength(code, 5);
  }

  /** Issuing keeps one record per address. */
  lemma ReissuedOnePerEmail(rs: seq<OtpRecord>, key: string, code: nat, now: Ticks)
    requires OnePerEmail(rs)
    ensures OnePerEmail(Reissued(rs, key, code, now))
  {
    var kept := Filter(rs, OtherEmail(key));
    var ss := Reissued(rs, key, code, now);
    FilterOnePerEmail(rs, OtherEmail(key));
    forall i, j | 0 <= i < j < |ss| ensures ss[i].email != ss[j].email {
      assert ss[i] == kept[i] && kept[i] in kept;
      if j < |kept| {
        assert ss[j] == kept[j];
      }
    }
  }

  /** Where keeps one record per address. */
  lemma {:induction false} FilterOnePerEmail(rs: seq<OtpRecord>, p: OtpRecord -> bool)
    requires OnePerEmail(rs)
    ensures OnePerEmail(Filter(rs, p))
    decreases |rs|
  {
    if |rs| > 0 {
      var init, x := rs[..|rs| - 1], rs[|rs| - 1];
      assert OnePerEmail(init) by {
        forall i, j | 0 <= i < j < |init| ensures init[i].email != init[j].email {
          assert init[i] == rs[i] && init[j] == rs[j];
        }
      }
      FilterOnePerEmail(init, p);
      var f := Filter(init, p);
      if p(x) {
        assert Filter(rs, p) == f + [x];
        forall i, j | 0 <= i < j < |f + [x]| ensures (f + [x])[i].email != (f + [x])[j].email {
          assert (f + [x])[i] == f[i];
          if j == |f| {
            assert f[i] in init;
            var k :| 0 <= k < |init| && init[k] == f[i];
            assert rs[k] == f[i];
          } else {
            assert (f + [x])[j] == f[j];
          }
        }
      } else {
        assert Filter(rs, p) == f;
      }
    }
  }

  /** Right after issuing, a code verifies exactly when it is the issued
      code (up to surrounding white space) and the five minutes have not
      passed; every older code of the address is void. */
  lemma ReissuedVerifies(rs: seq<OtpRecord>, key: string, code: nat, now: Ticks, otp: string, t: Ticks)
    ensures var ss := Reissued(rs, key, code, now);
      MatchIndex(ss, key, otp, t) >= 0 <==> otp == DecimalString(code) && t <= now + OtpLifetime
    ensures var ss := Reissued(rs, key, code, now);
      MatchIndex(ss, key, otp, t) >= 0 ==> MatchIndex(ss, key, otp, t) == |ss| - 1
  {
    var kept := Filter(rs, OtherEmail(key));
    var ss := Reissued(rs, key, code, now);
    forall i | 0 <= i < |kept| ensures ss[i].email != key {
      assert ss[i] == kept[i] && kept[i] in kept;
      assert OtherEmail(key)(kept[i]);
    }
    assert ss[|ss| - 1] == Issued(key, code, now);
  }

  /** A code works once: after it has been used, the same code for the same
      address is refused at any later time. */
  lemma SingleUse(rs: seq<OtpRecord>, key: string, otp: string, now: Ticks, later: Ticks)
    requires OnePerEmail(rs) && MatchIndex(rs, key, otp, now) >= 0
    ensures MatchIndex(MarkedUsed(rs, MatchIndex(rs, key, otp, now)), key, otp, later) < 0
  {
    var k := MatchIndex(rs, key, otp, now);
    var ss := MarkedUsed(rs, k);
    forall o | o in ss ensures !Usable(key, otp, later)(o) {
      var i :| 0 <= i < |ss| && ss[i] == o;
      if i != k {
        assert rs[i] == o;
        if i < k {
          assert rs[i].email != rs[k].email;
        } else {
          assert rs[k].email != rs[i].email;
        }
      }
    }
  }

  /** Marking a record used keeps one record per address. */
  lemma MarkedUsedOnePerEmail(rs: seq<OtpRecord>, k: nat)
    requires OnePerEmail(rs) && k < |rs|
    ensures OnePerEmail(MarkedUsed(rs, k))
  {
    var ss := MarkedUsed(rs, k);
    assert forall i | 0 <= i < |ss| :: ss[i].email == rs[i].email;
  }

  /** The VerifyEmail table. */
  class OtpStore {
    var records: seq<OtpRecord>

    ghost predicate Valid()
      reads this
    {
      OnePerEmail(records)
    }

    constructor ()
      ensures Valid() && records == []
    {
      records := [];
    }

    /** SendOtpAsync: refuses a blank address; otherwise deletes the
        address's older records one by one and adds a fresh code valid for
        five minutes. `code` is the value Random draws. */
    method SendOtp(email: string, code: nat, now: Ticks) returns (r: Result<string>)
      requires Valid()
      requires MinCode <= code < MaxCode
      modifies this
      ensures Valid()
      ensures IsBlank(email) ==> r == Err(EmailRequiredMessage) && records == old(records)
      ensures !IsBlank(email) ==>
        r == Ok(OtpSentMessage) && records == Reissued(old(records), EmailKey(email), code, now)
    {
      if IsBlank(email) {
        return Err(EmailRequiredMessage);
      }
      var key := EmailKey(email);
      var kept := Keep(records, OtherEmail(key));
      ReissuedOnePerEmail(records, key, code, now);
      records := kept + [Issued(key, code, now)];
      r := Ok(OtpSentMessage);
    }

    /** VerifyOtpAsync: a blank address or code is refused; otherwise the
        first usable record for the normalised address and trimmed code is
        marked used and the normalised address returned. */
    method VerifyOtp(email: string, otp: string, now: Ticks) returns (verified: bool, verifiedEmail: Option<string>)
      requires Valid()
      modifies this
      ensures Valid()
      ensures verified <==> verifiedEmail.Some?
      ensures IsBlank(email) || IsBlank(otp) ==> !verified && records == old(records)
      ensures !IsBlank(email) && !IsBlank(otp) ==>
        var k := MatchIndex(old(records), EmailKey(email), Trim(otp), now);
        (k < 0 ==> !verified && records == old(records)) &&
        (k >= 0 ==> verifiedEmail == Some(EmailKey(email)) && records == MarkedUsed(old(records), k))
    {
      if IsBlank(email) || IsBlank(otp) {
        return false, None;
      }
      var key := EmailKey(email);
      var code := Trim(otp);
      var k := MatchIndex(records, key, code, now);
      if k < 0 {
        return false, None;
      }
      MarkedUsedOnePerEmail(records, k);
      records := MarkedUsed(records, k);
      verified, verifiedEmail := true, Some(key);
    }
  }
}

/** The value rules shared by the asset and collection share-link services:
    when a requested expiry is accepted, how the remaining lifetime of a link
    is shown, how the random token is made URL-safe, and the share URL. */
module ShareRules {
  import opened Wrappers
  import opened Base
  import opened Text
  import opened FileNames

  // ------------------------------------------------------------ expiry

  const DefaultHours: int := 168
  const MinHours: int := 24
  const MaxHours: int := 8760

  const PastDateMessage: string := "Expiration date cannot be in the past"
  const TooSoonMessage: string := "Expiration date must be at least 1 day from now"
  const TooLateMessage: string := "Expiration date cannot exceed 1 year from now"
  const TooFewHoursMessage: string := "Expiration must be at least 1 day (24 hours)"
  const TooManyHoursMessage: string := "Expiration cannot exceed 1 year (8760 hours)"

  /** The expiry of a new link: a custom date must lie strictly after `now`, at
      least one day ahead and at most `yearLater` (now.AddYears(1)); otherwise
      the lifetime in hours, 168 when absent, must lie in [24, 8760]. */
  function ExpiresAt(custom: Option<Ticks>, hours: Option<int>, now: Ticks, yearLater: Ticks): (r: Result<Ticks>)
  {
    match custom
    case Some(date) =>
      if date <= now then Err(PastDateMessage)
      else if date < now + TicksPerDay then Err(TooSoonMessage)
      else if date > yearLater then Err(TooLateMessage)
      else Ok(date)
    case None =>
      var h := hours.GetOr(DefaultHours);
      if h < MinHours then Err(TooFewHoursMessage)
      else if h > MaxHours then Err(TooManyHoursMessage)
      else Ok(now + h * TicksPerHour)
  }

  /** A custom date is accepted exactly inside [now + 1 day, now + 1 year] and is
      kept as given; an hour count is accepted exactly inside [24, 8760]. */
  lemma ExpiryWindow(custom: Option<Ticks>, hours: Option<int>, now: Ticks, yearLater: Ticks)
    ensures custom.Some? ==>
      (ExpiresAt(custom, hours, now, yearLater).Ok? <==> now + TicksPerDay <= custom.value <= yearLater)
    ensures custom.Some? && ExpiresAt(custom, hours, now, yearLater).Ok? ==>
      ExpiresAt(custom, hours, now, yearLater).value == custom.value
    ensures custom.None? ==>
      (ExpiresAt(custom, hours, now, yearLater).Ok? <==> MinHours <= hours.GetOr(DefaultHours) <= MaxHours)
  {
  }

  /** Every accepted expiry lies at least one day after `now`. */
  lemma ExpiryAhead(custom: Option<Ticks>, hours: Option<int>, now: Ticks, yearLater: Ticks)
    requires ExpiresAt(custom, hours, now, yearLater).Ok?
    ensures ExpiresAt(custom, hours, now, yearLater).value >= now + TicksPerDay
  {
    if custom.None? {
      var h := hours.GetOr(DefaultHours);
      assert h * TicksPerHour >= MinHours * TicksPerHour;
    }
  }

  /** Without a date or an hour count a link lives seven days. */
  lemma DefaultExpiry(now: Ticks, yearLater: Ticks)
    ensures ExpiresAt(None, None, now, yearLater) == Ok(now + 7 * TicksPerDay)
  {
  }

  // ------------------------------------------------------------ remaining time

  /** The largest whole unit of a remaining lifetime. */
  datatype Remaining = Days(days: nat) | Hours(hours: nat) | Minutes(minutes: nat) | Expired

  /** (int)TimeSpan.TotalDays, TotalHours and TotalMinutes on a span of ticks,
      taking the first unit of which at least one whole fits. */
  function RemainingOf(span: int): (r: Remaining)
    ensures r.Days? ==> r.days >= 1 && r.days * TicksPerDay <= span < (r.days + 1) * TicksPerDay
    ensures r.Hours? ==> 1 <= r.hours < 24 && r.hours * TicksPerHour <= span < (r.hours + 1) * TicksPerHour
    ensures r.Minutes? ==> 1 <= r.minutes < 60 && r.minutes * TicksPerMinute <= span < (r.minutes + 1) * TicksPerMinute
    ensures r.Expired? <==> span < TicksPerMinute
  {
    if span >= TicksPerDay then Days(Quotient(span, TicksPerDay))
    else if span >= TicksPerHour then
      Hours(Quotient(span, TicksPerHour))
    else if span >= TicksPerMinute then
      Minutes(Quotient(span, TicksPerMinute))
    else Expired
  }

  /** The whole number of units `d` in a span of at least one unit. */
  function Quotient(span: int, d: int): (q: nat)
    requires 0 < d <= span
    ensures q >= 1 && q * d <= span < (q + 1) * d
  {
    var q := span / d;
    assert span == q * d + span % d;
    q
  }

  /** "N day", "N hours", …, or "Expired": a plural "s" when N is above 1. */
  function Describe(r: Remaining): string {
    match r
    case Days(n) => DecimalString(n) + " day" + Plural(n)
    case Hours(n) => DecimalString(n) + " hour" + Plural(n)
    case Minutes(n) => DecimalString(n) + " minute" + Plural(n)
    case Expired => "Expired"
  }

  function Plural(n: nat): string {
    if n > 1 then "s" else ""
  }

  /** CalculateTimeRemaining. */
  function TimeRemaining(expiresAt: Ticks, now: Ticks): string {
    Describe(RemainingOf(expiresAt - now))
  }

  /** Different remaining lifetimes are shown differently, so the text can be
      read back. */
  lemma DescribeInjective(a: Remaining, b: Remaining)
    requires Describe(a) == Describe(b)
    ensures a == b
  {
    DescribeHead(a);
    DescribeHead(b);
    if !a.Expired? {
      var (m, ua) := Parts(a);
      var (n, ub) := Parts(b);
      DigitsPrefix(DecimalString(m), ua, DecimalString(n), ub);
      DecimalStringInjective(m, n);
      UnitsDiffer(a, b);
    }
  }

  /** Only "Expired" does not start with a digit. */
  lemma DescribeHead(r: Remaining)
    ensures |Describe(r)| > 0 && (IsDigit(Describe(r)[0]) <==> !r.Expired?)
  {
    if !r.Expired? {
      var (n, u) := Parts(r);
      assert Describe(r)[0] == DecimalString(n)[0];
    }
  }

  /** The number and the unit text of a shown lifetime. */
  function Parts(r: Remaining): (p: (nat, string))
    requires !r.Expired?
    ensures Describe(r) == DecimalString(p.0) + p.1 && |p.1| > 1 && p.1[0] == ' '
  {
    match r
    case Days(n) => (n, " day" + Plural(n))
    case Hours(n) => (n, " hour" + Plural(n))
    case Minutes(n) => (n, " minute" + Plural(n))
  }

  lemma UnitsDiffer(a: Remaining, b: Remaining)
    requires !a.Expired? && !b.Expired?
    requires Parts(a) == Parts(b)
    ensures a == b
  {
    var u := Parts(a).1;
    if a.Days? || b.Days? {
      assert u[1] == 'd';
    }
    if a.Hours? || b.Hours? {
      assert u[1] == 'h';
    }
  }

  /** A link shows "Expired" exactly when less than a minute is left. */
  lemma TimeRemainingExpired(expiresAt: Ticks, now: Ticks)
    ensures TimeRemaining(expiresAt, now) == "Expired" <==> expiresAt - now < TicksPerMinute
  {
    if TimeRemaining(expiresAt, now) == "Expired" {
      DescribeInjective(RemainingOf(expiresAt - now), Expired);
    }
  }

  // ------------------------------------------------------------ token and URL

  /** Base64 to URL-safe: '+' to '-', '/' to '_', '=' dropped. */
  function UrlSafeChar(c: char): string {
    if c == '+' then "-" else if c == '/' then "_" else if c == '=' then "" else [c]
  }

  function UrlSafe(s: string): (r: string)
    decreases |s|
  {
    if |s| == 0 then "" else UrlSafeChar(s[0]) + UrlSafe(s[1..])
  }

  /** GenerateSecureToken's three Replace calls on the Base64 text of the
      random bytes (the encoding itself is outside the model). */
  function SecureToken(base64: string): string {
    Replace(Replace(Replace(base64, "+", "-"), "/", "_"), "=", "")
  }

  /** The chained replacements are the per-character rewriting. */
  lemma SecureTokenIsUrlSafe(base64: string)
    ensures SecureToken(base64) == UrlSafe(base64)
  {
    ReplaceOneChar(base64, '+', "-");
    var s1 := ReplaceChar(base64, '+', "-");
    ReplaceOneChar(s1, '/', "_");
    var s2 := ReplaceChar(s1, '/', "_");
    ReplaceOneChar(s2, '=', "");
    ReplaceChainIsUrlSafe(base64);
  }

  lemma {:induction false} ReplaceChainIsUrlSafe(s: string)
    ensures ReplaceChar(ReplaceChar(ReplaceChar(s, '+', "-"), '/', "_"), '=', "") == UrlSafe(s)
    decreases |s|
  {
    if |s| > 0 {
      ReplaceChainIsUrlSafe(s[1..]);
      var a := if s[0] == '+' then "-" else [s[0]];
      var t1 := ReplaceChar(s[1..], '+', "-");
      assert ReplaceChar(s, '+', "-") == a + t1;
      ReplaceCharAppend(a, t1, '/', "_");
      var b := ReplaceChar(a, '/', "_");
      var t2 := ReplaceChar(t1, '/', "_");
      ReplaceCharAppend(b, t2, '=', "");
      var c := ReplaceChar(b, '=', "");
      assert c == UrlSafeChar(s[0]) by {
        assert a == [a[0]];
        assert b == (if a[0] == '/' then "_" else [a[0]]) + ReplaceChar("", '/', "_");
        assert b == [b[0]];
        assert c == (if b[0] == '=' then "" else [b[0]]) + ReplaceChar("", '=', "");
      }
    }
  }

  predicate InBase64Alphabet(c: char) {
    'A' <= c <= 'Z' || 'a' <= c <= 'z' || '0' <= c <= '9' || c == '+' || c == '/' || c == '='
  }

  /** The URL-safe alphabet of section 5 of RFC 4648, without padding. */
  predicate InUrlAlphabet(c: char) {
    'A' <= c <= 'Z' || 'a' <= c <= 'z' || '0' <= c <= '9' || c == '-' || c == '_'
  }

  /** The token of standard Base64 text uses only the URL-safe alphabet, so
      it has no '+', '/' or '='. */
  lemma {:induction false} UrlSafeAlphabet(s: string)
    requires forall i | 0 <= i < |s| :: InBase64Alphabet(s[i])
    ensures forall i | 0 <= i < |UrlSafe(s)| :: InUrlAlphabet(UrlSafe(s)[i])
    decreases |s|
  {
    if |s| > 0 {
      UrlSafeAlphabet(s[1..]);
      var h := UrlSafeChar(s[0]);
      var t := UrlSafe(s[1..]);
      assert UrlSafe(s) == h + t;
      forall i | 0 <= i < |h + t| ensures InUrlAlphabet((h + t)[i]) {
        if i >= |h| {
          assert (h + t)[i] == t[i - |h|];
        }
      }
    }
  }

  /** URL-safe back to standard Base64 characters. */
  function StandardChar(c: char): char {
    if c == '-' then '+' else if c == '_' then '/' else c
  }

  function Standard(s: string): (r: string)
    ensures |r| == |s|
  {
    seq(|s|, i requires 0 <= i < |s| => StandardChar(s[i]))
  }

  /** Undoing the character swap gives back Base64 text without its padding:
      the transform loses only the '=' characters. */
  lemma {:induction false} UrlSafeInverse(s: string)
    requires forall i | 0 <= i < |s| :: InBase64Alphabet(s[i]) && s[i] != '='
    ensures Standard(UrlSafe(s)) == s
    decreases |s|
  {
    if |s| > 0 {
      UrlSafeInverse(s[1..]);
      assert UrlSafe(s) == [UrlSafeChar(s[0])[0]] + UrlSafe(s[1..]);
      assert Standard(UrlSafe(s))[0] == s[0];
      assert forall i | 1 <= i < |s| :: Standard(UrlSafe(s))[i] == Standard(UrlSafe(s[1..]))[i - 1];
    }
  }

  /** Trailing padding is dropped. */
  lemma {:induction false} UrlSafePadding(body: string, pad: nat)
    ensures UrlSafe(body + seq(pad, _ => '=')) == UrlSafe(body)
    decreases |body|, pad
  {
    var p := seq(pad, _ => '=');
    if |body| > 0 {
      assert (body + p)[1..] == body[1..] + p;
      UrlSafePadding(body[1..], pad);
    } else if pad > 0 {
      var q := seq(pad - 1, _ => '=');
      assert body + p == p && p[1..] == q && body + q == q;
      UrlSafePadding(body, pad - 1);
      assert UrlSafe(p) == UrlSafeChar('=') + UrlSafe(q);
    } else {
      assert body + p == "";
    }
  }

  /** GenerateShareUrl: the front-end address (when configured) followed by
      "/shared/<kind>/<token>". */
  function ShareUrl(frontendUrl: string, kind: string, token: string): (url: string)
    ensures EndsWith(url, "/" + token)
  {
    var path := "/shared/" + kind + "/" + token;
    var url := if frontendUrl != "" then frontendUrl + path else path;
    assert url == url[..|url| - |token| - 1] + ("/" + token);
    url
  }

  /** The token is the last segment of its share URL, since a URL-safe token
      has no '/'. */
  lemma ShareUrlToken(frontendUrl: string, kind: string, token: string)
    requires '/' !in token
    ensures FileNameOf(ShareUrl(frontendUrl, kind, token)) == token
  {
    var url := ShareUrl(frontendUrl, kind, token);
    var head := url[..|url| - |token| - 1];
    assert url == head + ['/'] + token;
    LastIndexBefore(head, '/', token);
  }
}

/** The value-level helpers of the search compiler: field and operator
    canonicalisation, ConvertToBytes, ParseDate (with the exact `yyyy-MM-dd`
    path worked out on the proleptic Gregorian calendar) and MergeRange. */
module SearchValues {
  import opened Wrappers
  import opened Base
  import opened Text
  import opened SearchDtos

  /** A parsed number, exactly: num / den. */
  type Positive = n: int | n > 0 witness 1
  datatype Ratio = Ratio(num: int, den: Positive)

  /** The library parsers the compiler calls, supplied by the caller:
      Guid.TryParse, double.TryParse (as an exact ratio) and the free-form
      DateTime.TryParse fallback (already converted to UTC ticks). */
  datatype Parsers = Parsers(
    guid: string -> Option<Guid>,
    number: string -> Option<Ratio>,
    looseDate: string -> Option<Ticks>)

  // ---------------------------------------------------------------- names

  /** NormalizeField: drop spaces, then underscores, trim, lower-case. */
  function NormalizeField(field: string): string {
    Lower(Trim(ReplaceChar(ReplaceChar(field, ' ', ""), '_', "")))
  }

  /** NormalizeOperator: null means "equals"; drop spaces and lower-case (underscores stay). */
  function NormalizeOperator(op: Option<string>): string {
    Lower(ReplaceChar(op.GetOr("equals"), ' ', ""))
  }

  lemma {:induction false} LowerKeeps(s: string, c: char)
    requires c !in s && !('A' <= c <= 'Z') && !('a' <= c <= 'z')
    ensures c !in Lower(s)
  {
    forall i | 0 <= i < |s| ensures Lower(s)[i] != c {
      assert s[i] != c;
    }
  }

  lemma TrimKeeps(s: string, c: char)
    requires c !in s
    ensures c !in Trim(s)
  {
    var t := TrimStart(s);
    assert forall i :: 0 <= i < |t| ==> t[i] == s[|s| - |t| + i];
    var r := TrimEnd(t);
    assert forall i :: 0 <= i < |r| ==> r[i] == t[i];
  }

  /** A canonical field name holds no space, no underscore and no upper-case ASCII letter. */
  lemma NormalizeFieldShape(field: string)
    ensures ' ' !in NormalizeField(field) && '_' !in NormalizeField(field)
    ensures forall i :: 0 <= i < |NormalizeField(field)| ==> !('A' <= NormalizeField(field)[i] <= 'Z')
  {
    var a := ReplaceChar(field, ' ', "");
    ReplaceCharRemoves(field, ' ', "");
    var b := ReplaceChar(a, '_', "");
    ReplaceCharRemoves(a, '_', "");
    ReplaceCharKeeps(a, '_', "", ' ');
    TrimKeeps(b, ' ');
    TrimKeeps(b, '_');
    LowerKeeps(Trim(b), ' ');
    LowerKeeps(Trim(b), '_');
    LowerLeavesNoUpper(Trim(b));
  }

  /** A canonical operator holds no space and no upper-case ASCII letter; null is "equals". */
  lemma NormalizeOperatorShape(op: Option<string>)
    ensures ' ' !in NormalizeOperator(op)
    ensures forall i :: 0 <= i < |NormalizeOperator(op)| ==> !('A' <= NormalizeOperator(op)[i] <= 'Z')
    ensures op.None? ==> NormalizeOperator(op) == "equals"
  {
    var replaced := ReplaceChar(op.GetOr("equals"), ' ', "");
    ReplaceCharRemoves(op.GetOr("equals"), ' ', "");
    LowerKeeps(replaced, ' ');
    LowerLeavesNoUpper(replaced);
    if op.None? {
      EqualsCanonical();
    }
  }

  lemma EqualsCanonical()
    ensures NormalizeOperator(None) == "equals"
  {
    NormalizeOperatorCanonical("equals");
  }

  /** An operator written in lower case without spaces is its own canonical form. */
  lemma NormalizeOperatorCanonical(op: string)
    requires ' ' !in op && forall i :: 0 <= i < |op| ==> !('A' <= op[i] <= 'Z')
    ensures NormalizeOperator(Some(op)) == op
  {
    ReplaceCharAbsent(op, ' ', "");
    LowerNoUpper(op);
  }

  // ---------------------------------------------------------------- sizes

  /** Banker's rounding (Math.Round's default) of n / d, exactly. */
  function RoundHalfEven(n: int, d: Positive): (r: int)
    ensures -(d as int) <= 2 * (n - d * r) <= d
    ensures 2 * (n - d * r) == d || 2 * (n - d * r) == -(d as int) ==> r % 2 == 0
    ensures n >= 0 ==> r >= 0
  {
    DivisionFacts(n, d);
    var q := n / d;
    var rem := n - d * q;
    if 2 * rem < d then q
    else if 2 * rem > d then q + 1
    else if q % 2 == 0 then q
    else q + 1
  }

  /** The Euclidean quotient and remainder, and the product one step up. */
  lemma DivisionFacts(n: int, d: Positive)
    ensures 0 <= n - d * (n / d) < d
    ensures n >= 0 ==> n / d >= 0
    ensures d * (n / d + 1) == d * (n / d) + d
  {
    MulSucc(d, n / d);
  }

  lemma MulSucc(d: int, q: int)
    ensures d * (q + 1) == d * q + d
  {
  }

  /** The unit is trimmed and case-insensitive; null means bytes. */
  function Multiplier(unit: string): (m: int)
    ensures m == 1 || m == 1024 || m == 1024 * 1024 || m == 1024 * 1024 * 1024
  {
    var u := Lower(Trim(unit));
    if u == "gb" then 1024 * 1024 * 1024
    else if u == "mb" then 1024 * 1024
    else if u == "kb" then 1024
    else 1
  }

  /** ConvertToBytes: value × unit multiplier, rounded half to even; blank,
      unparseable and negative values give null. */
  function ConvertToBytes(value: string, unit: string, ps: Parsers): (r: Option<int>)
    ensures r.Some? <==> !IsBlank(value) && ps.number(value).Some? && ps.number(value).value.num * Multiplier(unit) >= 0
    ensures r.Some? ==> r.value >= 0
    ensures r.Some? ==> var q := ps.number(value).value;
      -(q.den as int) <= 2 * (q.num * Multiplier(unit) - q.den * r.value) <= q.den
    ensures r.Some? ==> var q := ps.number(value).value;
      var twice := 2 * (q.num * Multiplier(unit) - q.den * r.value);
      twice == q.den || twice == -(q.den as int) ==> r.value % 2 == 0
  {
    if IsBlank(value) then None
    else match ps.number(value)
      case None => None
      case Some(q) =>
        var bytes := q.num * Multiplier(unit);
        if bytes < 0 then None else Some(RoundHalfEven(bytes, q.den))
  }

  // ---------------------------------------------------------------- dates

  datatype CivilDate = CivilDate(year: int, month: int, day: int)

  predicate IsLeapYear(y: int) {
    y % 4 == 0 && (y % 100 != 0 || y % 400 == 0)
  }

  function DaysInMonth(y: int, m: int): int
    requires 1 <= m <= 12
  {
    if m == 2 then (if IsLeapYear(y) then 29 else 28)
    else if m == 4 || m == 6 || m == 9 || m == 11 then 30
    else 31
  }

  /** A date DateTime can represent. */
  predicate ValidDate(d: CivilDate) {
    1 <= d.year <= 9999 && 1 <= d.month <= 12 && 1 <= d.day <= DaysInMonth(d.year, d.month)
  }

  function DaysBeforeMonth(y: int, m: int): (n: nat)
    requires 1 <= m <= 12
    decreases m
  {
    if m == 1 then 0 else DaysBeforeMonth(y, m - 1) + DaysInMonth(y, m - 1)
  }

  function DaysBeforeYear(y: int): (n: nat)
    requires y >= 1
  {
    var p := y - 1;
    365 * p + p / 4 - p / 100 + p / 400
  }

  /** Days from 0001-01-01 to the date. */
  function DayNumber(d: CivilDate): nat
    requires ValidDate(d)
  {
    DaysBeforeYear(d.year) + DaysBeforeMonth(d.year, d.month) + d.day - 1
  }

  /** A whole number of days is a midnight. */
  lemma {:induction false} WholeDays(k: nat)
    ensures k * TicksPerDay >= 0 && (k * TicksPerDay) % TicksPerDay == 0
  {
    if k > 0 {
      WholeDays(k - 1);
      MulSucc(TicksPerDay, k - 1);
    }
  }

  /** The DateTime (UTC midnight) of a date. */
  function Midnight(d: CivilDate): (t: Ticks)
    requires ValidDate(d)
    ensures t >= 0 && t % TicksPerDay == 0
  {
    WholeDays(DayNumber(d));
    DayNumber(d) * TicksPerDay
  }

  function Pow10(w: nat): nat { if w == 0 then 1 else 10 * Pow10(w - 1) }

  /** n written with exactly w digits, with leading zeros. */
  function Digits(n: nat, w: nat): (s: string)
    requires n < Pow10(w)
    ensures |s| == w && AllDigits(s)
  {
    if w == 0 then "" else Digits(n / 10, w - 1) + [DigitChar(n % 10)]
  }

  lemma {:induction false} NumberOfDigits(n: nat, w: nat)
    requires n < Pow10(w)
    ensures Number(Digits(n, w)) == n
  {
    if w > 0 {
      NumberOfDigits(n / 10, w - 1);
      var s := Digits(n, w);
      assert s[..|s| - 1] == Digits(n / 10, w - 1);
    }
  }

  /** DateTime.TryParseExact(value, "yyyy-MM-dd", InvariantCulture, None):
      exactly four, two and two ASCII digits separated by '-', forming a real date. */
  function ParseIsoDate(s: string): (r: Option<CivilDate>)
    ensures r.Some? ==> ValidDate(r.value)
  {
    if |s| == 10 && s[4] == '-' && s[7] == '-'
       && AllDigits(s[..4]) && AllDigits(s[5..7]) && AllDigits(s[8..])
    then
      var d := CivilDate(Number(s[..4]), Number(s[5..7]), Number(s[8..]));
      if ValidDate(d) then Some(d) else None
    else None
  }

  /** The `yyyy-MM-dd` text of a date. */
  function FormatIsoDate(d: CivilDate): (s: string)
    requires ValidDate(d)
    ensures |s| == 10
  {
    Digits(d.year, 4) + "-" + Digits(d.month, 2) + "-" + Digits(d.day, 2)
  }

  /** Parsing what the format produces gives the date back. */
  lemma IsoDateRoundTrip(d: CivilDate)
    requires ValidDate(d)
    ensures ParseIsoDate(FormatIsoDate(d)) == Some(d)
  {
    var y, m, dd := Digits(d.year, 4), Digits(d.month, 2), Digits(d.day, 2);
    var s := FormatIsoDate(d);
    assert s[..4] == y && s[5..7] == m && s[8..] == dd;
    NumberOfDigits(d.year, 4);
    NumberOfDigits(d.month, 2);
    NumberOfDigits(d.day, 2);
  }

  /** The instant ParseDate starts from: none for a blank value, UTC
      midnight for an exact `yyyy-MM-dd` date, otherwise whatever the
      free-form parser gives (already in UTC). */
  function ParseInstant(value: string, ps: Parsers): (r: Option<Ticks>)
    ensures IsBlank(value) ==> r.None?
    ensures !IsBlank(value) && ParseIsoDate(value).Some? ==> r == Some(Midnight(ParseIsoDate(value).value))
    ensures !IsBlank(value) && ParseIsoDate(value).None? ==> r == ps.looseDate(value)
  {
    if IsBlank(value) then None
    else match ParseIsoDate(value)
      case Some(d) => Some(Midnight(d))
      case None => ps.looseDate(value)
  }

  /** ParseDate(value, endOfDay): blank gives null; an exact date is UTC
      midnight, anything else goes to the free-form parser; with endOfDay
      the instant moves to the last tick of its day, through
      `Date.AddDays(1).AddTicks(-1)`, which throws on 9999-12-31. */
  function ParseDate(value: string, endOfDay: bool, ps: Parsers): (r: Result<Option<Ticks>>)
    ensures IsBlank(value) ==> r == Ok(None)
    ensures r.Err? <==> endOfDay && ParseInstant(value, ps).Some? && LastDay(ParseInstant(value, ps).value)
    ensures r.Ok? ==> (r.value.Some? <==> ParseInstant(value, ps).Some?)
    ensures !endOfDay ==> r == Ok(ParseInstant(value, ps))
    ensures r.Ok? && r.value.Some? && endOfDay ==>
      r.value.value == EndOfDay(DatePart(ParseInstant(value, ps).value)) && DatePart(r.value.value) == DatePart(ParseInstant(value, ps).value)
    ensures !IsBlank(value) && ParseIsoDate(value).Some? && !(endOfDay && LastDay(Midnight(ParseIsoDate(value).value))) ==>
      r == Ok(Some(if endOfDay then EndOfDay(Midnight(ParseIsoDate(value).value)) else Midnight(ParseIsoDate(value).value)))
  {
    if IsBlank(value) then Ok(None)
    else match ParseIsoDate(value)
      case Some(d) =>
        var m := Midnight(d);
        WholeDay(m);
        if !endOfDay then Ok(Some(m))
        else if LastDay(m) then Err("ArgumentOutOfRangeException")
        else Ok(Some(EndOfDay(m)))
      case None =>
        match ps.looseDate(value)
        case None => Ok(None)
        case Some(t) =>
          var m := DatePart(t);
          WholeDay(m);
          if !endOfDay then Ok(Some(t))
          else if LastDay(m) then Err("ArgumentOutOfRangeException")
          else Ok(Some(EndOfDay(m)))
  }

  /** What ParseDate gives when it does not throw; `None` when it does. */
  function Parsed(r: Result<Option<Ticks>>): Option<Ticks> {
    if r.Ok? then r.value else None
  }

  /** MergeRange: Range if present, else Values[0..2], else Value/SecondaryValue
      when either is non-blank, else null. */
  function MergeRange(c: Condition): (r: Option<Range>)
    ensures c.range.Some? ==> r == c.range
    ensures c.range.None? && |c.values| >= 2 ==> r == Some(Range(c.values[0], c.values[1]))
    ensures c.range.None? && |c.values| < 2 ==>
      r == (if !IsBlank(c.value) || !IsBlank(c.secondaryValue) then Some(Range(c.value, c.secondaryValue)) else None)
  {
    if c.range.Some? then c.range
    else if |c.values| >= 2 then Some(Range(c.values[0], c.values[1]))
    else if !IsBlank(c.value) || !IsBlank(c.secondaryValue) then Some(Range(c.value, c.secondaryValue))
    else None
  }
}

/** The per-field predicate builders of the advanced search that are pure
    expressions: BuildStringCondition, BuildStringListCondition,
    BuildFileSizeCondition, BuildDateCondition and BuildMetadataCondition.
    Each builder has a reference predicate saying, in terms of the asset's
    columns, which rows its result admits, and a lemma tying the two. */
module SearchBuilders {
  import opened Wrappers
  import opened Base
  import opened Text
  import opened SqlLike
  import opened Seqs
  import opened Assets
  import opened PredicateBuilder
  import opened SearchDtos
  import opened SearchValues
  import opened SearchAtoms

  predicate Between(x: int, p: int, q: int) {
    (p <= x <= q) || (q <= x <= p)
  }

  // ------------------------------------------------------------ strings

  /** BuildStringCondition(propertyName, condition). */
  function BuildStringCondition(col: Column, c: Condition): (r: Option<Lambda<Atom>>)
    ensures r.Some? ==> Closed(r.value)
  {
    var v := Trim(c.value);
    if v == "" then None
    else
      Some(Both(IsNotNull(col), TextComparison(col, NormalizeOperator(c.op), v)))
  }

  /** The column test of a text operator: a LIKE pattern for the three
      substring operators, plain equality otherwise. */
  function TextComparison(col: Column, op: string, v: string): Atom {
    if op == "contains" then LikeTest(col, "%" + EscapeLike(v) + "%")
    else if op == "startswith" then LikeTest(col, EscapeLike(v) + "%")
    else if op == "endswith" then LikeTest(col, "%" + EscapeLike(v))
    else StrEquals(col, v)
  }

  /** What a text operator asks of a column value. */
  predicate TextMatches(s: string, op: string, v: string, fold: char -> char) {
    if op == "contains" then FoldContains(s, v, fold)
    else if op == "startswith" then FoldStartsWith(s, v, fold)
    else if op == "endswith" then FoldEndsWith(s, v, fold)
    else Fold(s, fold) == Fold(v, fold)
  }

  /** The rows a text condition admits: the column is set and matches the trimmed value. */
  predicate TextAdmits(col: Column, c: Condition, a: Asset, fold: char -> char) {
    ColumnValue(a, col).Some? && TextMatches(ColumnValue(a, col).value, NormalizeOperator(c.op), Trim(c.value), fold)
  }

  /** A text condition yields a predicate exactly when its value is not blank,
      and that predicate admits exactly the rows TextAdmits names. */
  lemma StringConditionMeaning(col: Column, c: Condition, a: Asset, fold: char -> char)
    ensures BuildStringCondition(col, c).None? <==> IsBlank(c.value)
    ensures BuildStringCondition(col, c).Some? ==>
      (Sat(BuildStringCondition(col, c).value, a, fold) <==> TextAdmits(col, c, a, fold))
  {
    TrimEmptyIffBlank(c.value);
    var v := Trim(c.value);
    var op := NormalizeOperator(c.op);
    if v != "" {
      BothSat(IsNotNull(col), TextComparison(col, op, v), a, fold);
      TextComparisonMeaning(col, op, v, a, fold);
    }
  }

  lemma TextComparisonMeaning(col: Column, op: string, v: string, a: Asset, fold: char -> char)
    ensures AtomHolds(TextComparison(col, op, v), a, fold) <==>
      ColumnValue(a, col).Some? && TextMatches(ColumnValue(a, col).value, op, v, fold)
  {
    if ColumnValue(a, col).Some? {
      var s := ColumnValue(a, col).value;
      if op == "contains" {
        LikeContains(s, v, fold);
      } else if op == "startswith" {
        LikeStartsWith(s, v, fold);
      } else if op == "endswith" {
        LikeEndsWith(s, v, fold);
      }
    }
  }

  /** Select(Trim).Where(not empty).Select(ToLowerInvariant). */
  function CleanValues(values: seq<string>): seq<string>
    decreases |values|
  {
    if |values| == 0 then []
    else
      var rest := CleanValues(values[1..]);
      var v := Trim(values[0]);
      if v == "" then rest else [Lower(v)] + rest
  }

  /** Every value that is not blank once trimmed is kept, trimmed and lower-cased. */
  lemma {:induction false} CleanedMember(values: seq<string>, i: nat)
    requires i < |values| && Trim(values[i]) != ""
    ensures Lower(Trim(values[i])) in CleanValues(values)
    decreases |values|
  {
    var rest, v := CleanValues(values[1..]), Trim(values[0]);
    assert CleanValues(values) == if v == "" then rest else [Lower(v)] + rest;
    if i > 0 {
      assert values[1..][i - 1] == values[i];
      CleanedMember(values[1..], i - 1);
      assert Lower(Trim(values[i])) in rest;
    }
  }

  /** `x` is what cleaning keeps of `s`: `s` is not blank once trimmed, and `x` is it trimmed and lower-cased. */
  predicate CleansTo(s: string, x: string) {
    Trim(s) != "" && x == Lower(Trim(s))
  }

  /** A kept value is the first value cleaned, or is kept from the rest. */
  lemma CleanValuesHead(values: seq<string>, x: string)
    requires x in CleanValues(values)
    ensures |values| > 0
    ensures CleansTo(values[0], x) || x in CleanValues(values[1..])
  {
  }

  /** Every kept value comes from a value that is not blank once trimmed. */
  lemma {:induction false} CleanedSource(values: seq<string>, x: string) returns (i: nat)
    requires x in CleanValues(values)
    ensures i < |values| && CleansTo(values[i], x)
    decreases |values|
  {
    CleanValuesHead(values, x);
    if CleansTo(values[0], x) {
      i := 0;
    } else {
      var j := CleanedSource(values[1..], x);
      i := j + 1;
      assert values[1..][j] == values[i];
    }
  }

  /** BuildStringListCondition(propertyName, values). */
  function BuildStringListCondition(col: Column, values: seq<string>): (r: Option<Lambda<Atom>>)
    ensures r.Some? ==> Closed(r.value)
  {
    var normalized := Distinct(CleanValues(values));
    if |normalized| == 0 then None
    else Some(Both(IsNotNull(col), LowerIn(col, normalized)))
  }

  /** The rows a value list admits: the column is set and equals, lower-cased,
      one of the non-blank values trimmed and lower-cased. */
  predicate TextListAdmits(col: Column, values: seq<string>, a: Asset, fold: char -> char) {
    ColumnValue(a, col).Some? &&
    exists i | 0 <= i < |values| ::
      !IsBlank(values[i]) && Fold(Lower(ColumnValue(a, col).value), fold) == Fold(Lower(Trim(values[i])), fold)
  }

  /** The cleaned list is empty exactly when every value is blank. */
  lemma CleanValuesEmpty(values: seq<string>)
    ensures |Distinct(CleanValues(values))| == 0 <==> forall i | 0 <= i < |values| :: IsBlank(values[i])
  {
    var normalized := Distinct(CleanValues(values));
    forall i | 0 <= i < |values| ensures !IsBlank(values[i]) ==> |normalized| > 0 {
      if !IsBlank(values[i]) {
        CleanedHas(values, i);
      }
    }
    if |normalized| > 0 {
      var i := CleanedFrom(values, normalized[0]);
    }
  }

  /** A lower-cased column value is in the cleaned list exactly when it matches a non-blank value. */
  lemma CleanValuesMatch(values: seq<string>, s: string, fold: char -> char)
    ensures (exists j | 0 <= j < |Distinct(CleanValues(values))| :: Fold(s, fold) == Fold(Distinct(CleanValues(values))[j], fold))
        <==> exists i | 0 <= i < |values| :: !IsBlank(values[i]) && Fold(s, fold) == Fold(Lower(Trim(values[i])), fold)
  {
    var normalized := Distinct(CleanValues(values));
    if j :| 0 <= j < |normalized| && Fold(s, fold) == Fold(normalized[j], fold) {
      var i := CleanedFrom(values, normalized[j]);
      assert !IsBlank(values[i]) && Fold(s, fold) == Fold(Lower(Trim(values[i])), fold);
    }
    if i :| 0 <= i < |values| && !IsBlank(values[i]) && Fold(s, fold) == Fold(Lower(Trim(values[i])), fold) {
      var j := CleanedAt(values, i);
      assert Fold(s, fold) == Fold(normalized[j], fold);
    }
  }

  /** The position in the cleaned list of a non-blank value. */
  lemma CleanedAt(values: seq<string>, i: nat) returns (j: nat)
    requires i < |values| && !IsBlank(values[i])
    ensures j < |Distinct(CleanValues(values))| && Distinct(CleanValues(values))[j] == Lower(Trim(values[i]))
  {
    CleanedHas(values, i);
    var normalized := Distinct(CleanValues(values));
    j :| 0 <= j < |normalized| && normalized[j] == Lower(Trim(values[i]));
  }

  /** Every cleaned value comes from a non-blank value. */
  lemma CleanedFrom(values: seq<string>, x: string) returns (i: nat)
    requires x in Distinct(CleanValues(values))
    ensures i < |values| && !IsBlank(values[i]) && x == Lower(Trim(values[i]))
  {
    i := CleanedSource(values, x);
    TrimEmptyIffBlank(values[i]);
  }

  /** Every non-blank value is in the cleaned list, trimmed and lower-cased. */
  lemma CleanedHas(values: seq<string>, i: nat)
    requires i < |values| && !IsBlank(values[i])
    ensures Lower(Trim(values[i])) in Distinct(CleanValues(values))
  {
    TrimEmptyIffBlank(values[i]);
    CleanedMember(values, i);
  }

  /** The IN test on the cleaned list admits what TextListAdmits names. */
  lemma LowerInMeaning(col: Column, values: seq<string>, a: Asset, fold: char -> char)
    ensures AtomHolds(LowerIn(col, Distinct(CleanValues(values))), a, fold) <==> TextListAdmits(col, values, a, fold)
  {
    match ColumnValue(a, col)
    case None =>
    case Some(s) => CleanValuesMatch(values, Lower(s), fold);
  }

  lemma StringListConditionMeaning(col: Column, values: seq<string>, a: Asset, fold: char -> char)
    ensures BuildStringListCondition(col, values).None? <==> forall i | 0 <= i < |values| :: IsBlank(values[i])
    ensures BuildStringListCondition(col, values).Some? ==>
      (Sat(BuildStringListCondition(col, values).value, a, fold) <==> TextListAdmits(col, values, a, fold))
  {
    CleanValuesEmpty(values);
    var normalized := Distinct(CleanValues(values));
    if |normalized| > 0 {
      BothSat(IsNotNull(col), LowerIn(col, normalized), a, fold);
      LowerInMeaning(col, values, a, fold);
    }
  }

  // ------------------------------------------------------------ file size

  /** The byte bounds of a `between` size condition. */
  function SizeBounds(c: Condition, ps: Parsers): (Option<int>, Option<int>) {
    match MergeRange(c)
    case None => (None, None)
    case Some(range) => (ConvertToBytes(range.from, c.unit, ps), ConvertToBytes(range.to, c.unit, ps))
  }

  /** BuildFileSizeCondition(condition). */
  function BuildFileSizeCondition(c: Condition, ps: Parsers): (r: Option<Lambda<Atom>>)
    ensures r.Some? ==> Closed(r.value)
  {
    SizeTest(NormalizeOperator(c.op), SizeBounds(c, ps), ConvertToBytes(c.value, c.unit, ps))
  }

  /** The predicate of a size operator once its value and its bounds are in bytes. */
  function SizeTest(op: string, bounds: (Option<int>, Option<int>), bytes: Option<int>): (r: Option<Lambda<Atom>>)
    ensures r.Some? ==> Closed(r.value)
  {
    if op == "between" then
      match bounds
      case (Some(from), Some(to)) =>
        var lower := if from <= to then from else to;
        var upper := if from <= to then to else from;
        Some(Both(SizeCmp(Ge, lower), SizeCmp(Le, upper)))
      case _ => None
    else
      match bytes
      case None => None
      case Some(b) =>
        Some(Single(SizeCmp(if op == "greaterthan" then Gt else if op == "lessthan" then Lt else Eq, b)))
  }

  /** Whether a size condition produces a predicate: `between` needs both
      bounds, every other operator needs its value. */
  predicate SizeBuilds(c: Condition, ps: Parsers) {
    if NormalizeOperator(c.op) == "between" then SizeBounds(c, ps).0.Some? && SizeBounds(c, ps).1.Some?
    else ConvertToBytes(c.value, c.unit, ps).Some?
  }

  /** The sizes a size condition admits. */
  predicate SizeAdmits(c: Condition, ps: Parsers, size: int) {
    SizeWithin(NormalizeOperator(c.op), SizeBounds(c, ps), ConvertToBytes(c.value, c.unit, ps), size)
  }

  /** Above, below, between (inclusive, bounds in either order) or equal to
      the byte counts of the condition. */
  predicate SizeWithin(op: string, bounds: (Option<int>, Option<int>), bytes: Option<int>, size: int) {
    if op == "between" then
      bounds.0.Some? && bounds.1.Some? && Between(size, bounds.0.value, bounds.1.value)
    else if op == "greaterthan" then bytes.Some? && size > bytes.value
    else if op == "lessthan" then bytes.Some? && size < bytes.value
    else bytes.Some? && size == bytes.value
  }

  lemma FileSizeConditionMeaning(c: Condition, ps: Parsers, a: Asset, fold: char -> char)
    ensures BuildFileSizeCondition(c, ps).Some? <==> SizeBuilds(c, ps)
    ensures BuildFileSizeCondition(c, ps).Some? ==>
      (Sat(BuildFileSizeCondition(c, ps).value, a, fold) <==> SizeAdmits(c, ps, a.fileSize))
  {
    SizeTestMeaning(NormalizeOperator(c.op), SizeBounds(c, ps), ConvertToBytes(c.value, c.unit, ps), a, fold);
  }

  lemma SizeTestMeaning(op: string, bounds: (Option<int>, Option<int>), bytes: Option<int>, a: Asset, fold: char -> char)
    ensures SizeTest(op, bounds, bytes).Some? <==>
      if op == "between" then bounds.0.Some? && bounds.1.Some? else bytes.Some?
    ensures SizeTest(op, bounds, bytes).Some? ==>
      (Sat(SizeTest(op, bounds, bytes).value, a, fold) <==> SizeWithin(op, bounds, bytes, a.fileSize))
  {
    if op == "between" {
      match bounds
      case (Some(from), Some(to)) => SizeRangeSat(from, to, a, fold);
      case _ =>
    } else {
      match bytes
      case None =>
      case Some(b) => SizeCompareSat(op, b, a, fold);
    }
  }

  lemma SizeRangeSat(from: int, to: int, a: Asset, fold: char -> char)
    ensures var lower := if from <= to then from else to;
      var upper := if from <= to then to else from;
      Sat(Both(SizeCmp(Ge, lower), SizeCmp(Le, upper)), a, fold) <==> Between(a.fileSize, from, to)
  {
    var lower := if from <= to then from else to;
    var upper := if from <= to then to else from;
    BothSat(SizeCmp(Ge, lower), SizeCmp(Le, upper), a, fold);
  }

  lemma SizeCompareSat(op: string, b: int, a: Asset, fold: char -> char)
    ensures Sat(Single(SizeCmp(if op == "greaterthan" then Gt else if op == "lessthan" then Lt else Eq, b)), a, fold) <==>
      if op == "greaterthan" then a.fileSize > b else if op == "lessthan" then a.fileSize < b else a.fileSize == b
  {
    SingleSat(SizeCmp(if op == "greaterthan" then Gt else if op == "lessthan" then Lt else Eq, b), a, fold);
  }

  /** Reversing the bounds of a `between` size range changes nothing. */
  lemma FileSizeRangeSymmetric(c: Condition, ps: Parsers, from: string, to: string)
    requires c.range == Some(Range(from, to))
    ensures BuildFileSizeCondition(c.(range := Some(Range(to, from))), ps).Some? <==> BuildFileSizeCondition(c, ps).Some?
    ensures forall size :: SizeAdmits(c.(range := Some(Range(to, from))), ps, size) <==> SizeAdmits(c, ps, size)
  {
  }

  // ------------------------------------------------------------ dates

  /** The instants of a `between` date range: the start of `From` and the
      end of `To` (none for a bound that throws). */
  function DateBounds(c: Condition, ps: Parsers): (Option<Ticks>, Option<Ticks>) {
    match MergeRange(c)
    case None => (None, None)
    case Some(range) => (Parsed(ParseDate(range.from, false, ps)), Parsed(ParseDate(range.to, true, ps)))
  }

  /** The value of a date condition lies on a day whose end DateTime cannot
      hold. */
  predicate OnLastDay(value: string, ps: Parsers) {
    ParseInstant(value, ps).Some? && LastDay(ParseInstant(value, ps).value)
  }

  /** BuildDateCondition throws: `before` and `on` move their value to the
      end of its day, `between` moves its `To` bound there. */
  predicate DateThrows(c: Condition, ps: Parsers) {
    var op := NormalizeOperator(c.op);
    if op == "before" || op == "on" then OnLastDay(c.value, ps)
    else if op == "between" then MergeRange(c).Some? && OnLastDay(MergeRange(c).value.to, ps)
    else false
  }

  /** BuildDateCondition(condition); `Err` is the exception `AddDays` throws. */
  function BuildDateCondition(c: Condition, ps: Parsers): (r: Result<Option<Lambda<Atom>>>)
    ensures r.Ok? && r.value.Some? ==> Closed(r.value.value)
  {
    var op := NormalizeOperator(c.op);
    if op == "after" then
      match ParseDate(c.value, false, ps)
      case Err(e) => Err(e)
      case Ok(None) => Ok(None)
      case Ok(Some(t)) => Ok(Some(Single(CreatedCmp(Ge, t))))
    else if op == "before" then
      match ParseDate(c.value, true, ps)
      case Err(e) => Err(e)
      case Ok(None) => Ok(None)
      case Ok(Some(t)) => Ok(Some(Single(CreatedCmp(Le, t))))
    else if op == "between" then
      var range := MergeRange(c);
      var from := if range.Some? then ParseDate(range.value.from, false, ps) else Ok(None);
      var to := if range.Some? then ParseDate(range.value.to, true, ps) else Ok(None);
      if to.Err? then Err(to.message)
      else match (from.value, to.value)
        case (Some(from), Some(to)) =>
          var start := if from <= to then from else to;
          var end := if from <= to then to else from;
          Ok(Some(Both(CreatedCmp(Ge, start), CreatedCmp(Le, end))))
        case (Some(from), None) => Ok(Some(Single(CreatedCmp(Ge, from))))
        case (None, Some(to)) => Ok(Some(Single(CreatedCmp(Le, to))))
        case (None, None) => Ok(None)
    else if op == "on" then
      match ParseDate(c.value, false, ps)
      case Err(e) => Err(e)
      case Ok(None) => Ok(None)
      case Ok(Some(t)) =>
        var startOfDay := DatePart(t);
        if LastDay(startOfDay) then Err("ArgumentOutOfRangeException")
        else Ok(Some(Both(CreatedCmp(Ge, startOfDay), CreatedCmp(Le, EndOfDay(startOfDay)))))
    else
      match ParseDate(c.value, false, ps)
      case Err(e) => Err(e)
      case Ok(None) => Ok(None)
      case Ok(Some(t)) => Ok(Some(Single(CreatedCmp(Eq, t))))
  }

  /** Whether a date condition produces a predicate: `before` parses its value
      as an end of day, `between` needs at least one bound, the rest need their value. */
  predicate DateBuilds(c: Condition, ps: Parsers) {
    var op := NormalizeOperator(c.op);
    if op == "between" then DateBounds(c, ps).0.Some? || DateBounds(c, ps).1.Some?
    else Parsed(ParseDate(c.value, op == "before", ps)).Some?
  }

  /** The creation instants a date condition admits: from the start of the
      value on (`after`), up to its end (`before`), within the bounds in either
      order, or from one bound on / up to the other when only one parses
      (`between`), the same calendar day (`on`), or the exact instant. */
  predicate DateAdmits(c: Condition, ps: Parsers, t: Ticks) {
    var op := NormalizeOperator(c.op);
    var v := Parsed(ParseDate(c.value, op == "before", ps));
    if op == "after" then v.Some? && t >= v.value
    else if op == "before" then v.Some? && t <= v.value
    else if op == "between" then
      match DateBounds(c, ps)
      case (Some(from), Some(to)) => Between(t, from, to)
      case (Some(from), None) => t >= from
      case (None, Some(to)) => t <= to
      case (None, None) => false
    else if op == "on" then v.Some? && DatePart(t) == DatePart(v.value)
    else v.Some? && t == v.value
  }

  /** BuildDateCondition throws exactly on a day DateTime cannot end; when it
      does not, it yields a predicate exactly when DateBuilds, and that
      predicate admits exactly the instants DateAdmits names. */
  lemma DateConditionMeaning(c: Condition, ps: Parsers, a: Asset, fold: char -> char)
    ensures BuildDateCondition(c, ps).Err? <==> DateThrows(c, ps)
    ensures BuildDateCondition(c, ps).Ok? ==> (BuildDateCondition(c, ps).value.Some? <==> DateBuilds(c, ps))
    ensures BuildDateCondition(c, ps).Ok? && BuildDateCondition(c, ps).value.Some? ==>
      (Sat(BuildDateCondition(c, ps).value.value, a, fold) <==> DateAdmits(c, ps, a.createdAt))
  {
    var op := NormalizeOperator(c.op);
    if op == "after" {
      match ParseDate(c.value, false, ps)
      case Err(_) =>
      case Ok(None) =>
      case Ok(Some(t)) => SingleSat(CreatedCmp(Ge, t), a, fold);
    } else if op == "before" {
      match ParseDate(c.value, true, ps)
      case Err(_) =>
      case Ok(None) =>
      case Ok(Some(t)) => SingleSat(CreatedCmp(Le, t), a, fold);
    } else if op == "between" {
      DateBetweenMeaning(c, ps, a, fold);
    } else if op == "on" {
      match ParseDate(c.value, false, ps)
      case Err(_) =>
      case Ok(None) =>
      case Ok(Some(t)) => DaySat(t, a, fold);
    } else {
      match ParseDate(c.value, false, ps)
      case Err(_) =>
      case Ok(None) =>
      case Ok(Some(t)) => SingleSat(CreatedCmp(Eq, t), a, fold);
    }
  }

  /** DateConditionMeaning for `between`. */
  lemma DateBetweenMeaning(c: Condition, ps: Parsers, a: Asset, fold: char -> char)
    requires NormalizeOperator(c.op) == "between"
    ensures BuildDateCondition(c, ps).Err? <==> DateThrows(c, ps)
    ensures BuildDateCondition(c, ps).Ok? ==> (BuildDateCondition(c, ps).value.Some? <==> DateBuilds(c, ps))
    ensures BuildDateCondition(c, ps).Ok? && BuildDateCondition(c, ps).value.Some? ==>
      (Sat(BuildDateCondition(c, ps).value.value, a, fold) <==> DateAdmits(c, ps, a.createdAt))
  {
    match DateBounds(c, ps)
    case (Some(from), Some(to)) => DateRangeSat(from, to, a, fold);
    case (Some(from), None) => SingleSat(CreatedCmp(Ge, from), a, fold);
    case (None, Some(to)) => SingleSat(CreatedCmp(Le, to), a, fold);
    case (None, None) =>
  }

  lemma DateRangeSat(from: Ticks, to: Ticks, a: Asset, fold: char -> char)
    ensures var start := if from <= to then from else to;
      var end := if from <= to then to else from;
      Sat(Both(CreatedCmp(Ge, start), CreatedCmp(Le, end)), a, fold) <==> Between(a.createdAt, from, to)
  {
    var start := if from <= to then from else to;
    var end := if from <= to then to else from;
    BothSat(CreatedCmp(Ge, start), CreatedCmp(Le, end), a, fold);
  }

  lemma DaySat(t: Ticks, a: Asset, fold: char -> char)
    ensures Sat(Both(CreatedCmp(Ge, DatePart(t)), CreatedCmp(Le, EndOfDay(DatePart(t)))), a, fold) <==>
      DatePart(a.createdAt) == DatePart(t)
  {
    SameDay(a.createdAt, t);
    BothSat(CreatedCmp(Ge, DatePart(t)), CreatedCmp(Le, EndOfDay(DatePart(t))), a, fold);
  }

  /** A `between` over two `yyyy-MM-dd` dates in order admits exactly the
      instants whose calendar day lies between them, both days included. */
  lemma DateBetweenWholeDays(c: Condition, ps: Parsers, d1: CivilDate, d2: CivilDate, t: Ticks)
    requires ValidDate(d1) && ValidDate(d2) && Midnight(d1) <= Midnight(d2) && !LastDay(Midnight(d2))
    requires NormalizeOperator(c.op) == "between"
    requires c.range == Some(Range(FormatIsoDate(d1), FormatIsoDate(d2)))
    ensures DateAdmits(c, ps, t) <==> Midnight(d1) <= DatePart(t) <= Midnight(d2)
  {
    var m1, m2 := Midnight(d1), Midnight(d2);
    IsoDateParses(d1, false, ps);
    IsoDateParses(d2, true, ps);
    assert DateBounds(c, ps) == (Some(m1), Some(EndOfDay(m2)));
    SameDay(t, m2);
    DatePartFrom(t, m1);
  }

  /** ParseDate on the text of a date gives that date's midnight, or the last tick of its day. */
  lemma IsoDateParses(d: CivilDate, endOfDay: bool, ps: Parsers)
    requires ValidDate(d)
    requires endOfDay ==> !LastDay(Midnight(d))
    ensures ParseDate(FormatIsoDate(d), endOfDay, ps) == Ok(Some(if endOfDay then EndOfDay(Midnight(d)) else Midnight(d)))
    ensures DatePart(Midnight(d)) == Midnight(d)
  {
    IsoDateRoundTrip(d);
    var s := FormatIsoDate(d);
    assert !IsBlank(s) by { assert !IsWhiteSpace(s[4]); }
  }

  /** `before 9999-12-31` throws: the end of that day is DateTime.MaxValue,
      and `AddDays(1)` on its midnight goes past it. */
  lemma LastDateBeforeThrows(c: Condition, ps: Parsers)
    requires NormalizeOperator(c.op) == "before" && c.value == "9999-12-31"
    ensures BuildDateCondition(c, ps).Err?
  {
    var d := CivilDate(9999, 12, 31);
    LastDates();
    IsoDateRoundTrip(d);
    assert !IsBlank(c.value) by { assert !IsWhiteSpace(c.value[4]); }
  }

  /** The day before, the same condition yields the predicate `CreatedAt <= 9999-12-30T23:59:59.9999999`. */
  lemma DayBeforeLastDateBuilds(c: Condition, ps: Parsers)
    requires NormalizeOperator(c.op) == "before" && c.value == "9999-12-30"
    ensures BuildDateCondition(c, ps) == Ok(Some(Single(CreatedCmp(Le, 3155378111999999999))))
  {
    var d := CivilDate(9999, 12, 30);
    LastDates();
    IsoDateRoundTrip(d);
    assert !IsBlank(c.value) by { assert !IsWhiteSpace(c.value[4]); }
  }

  /** The text and the midnight of the last two days DateTime holds. */
  lemma LastDates()
    ensures FormatIsoDate(CivilDate(9999, 12, 31)) == "9999-12-31"
    ensures FormatIsoDate(CivilDate(9999, 12, 30)) == "9999-12-30"
    ensures Midnight(CivilDate(9999, 12, 31)) == 3155378112000000000
    ensures Midnight(CivilDate(9999, 12, 30)) == 3155377248000000000
  {
    assert DaysBeforeMonth(9999, 12) == 334;
    assert DaysBeforeYear(9999) == 3651694;
  }

  // ------------------------------------------------------------ metadata

  /** `"key":` as it appears in the serialised UserMetadata object. */
  function KeyLabel(key: string): string {
    "\"" + key + "\":"
  }

  /** `%"key":%`. */
  function KeyPattern(key: string): string {
    "%" + KeyLabel(key) + "%"
  }

  /** `%"key":"<value>"%`. */
  function ExactPattern(key: string, escaped: string): string {
    "%" + KeyLabel(key) + "\"" + escaped + "\"" + "%"
  }

  /** `%"key":"<value>%"%`. */
  function PrefixPattern(key: string, escaped: string): string {
    "%" + KeyLabel(key) + "\"" + escaped + "%" + "\"" + "%"
  }

  /** `%"key":"%<value>"%`. */
  function SuffixPattern(key: string, escaped: string): string {
    "%" + KeyLabel(key) + "\"" + "%" + escaped + "\"" + "%"
  }

  /** `%"key":"%<value>%"%`. */
  function InfixPattern(key: string, escaped: string): string {
    "%" + KeyLabel(key) + "\"" + "%" + escaped + "%" + "\"" + "%"
  }

  /** `asset => string.IsNullOrEmpty(asset.UserMetadata) || !Like(asset.UserMetadata, pattern)`. */
  function NoMetadataLike(pattern: string): (f: Lambda<Atom>)
    ensures Closed(f)
  {
    var unset: Expr<Atom> := Test(IsNullOrEmpty(UserMetadataColumn), 0);
    var matched: Expr<Atom> := Test(LikeTest(UserMetadataColumn, pattern), 0);
    assert Vars(OrElse(unset, Not(matched))) == Vars(unset) + Vars(matched) == {0};
    Lambda(0, OrElse(unset, Not(matched)))
  }

  /** `asset => asset.UserMetadata != null && !Like(.., without) && Like(.., within)`. */
  function MetadataLikeNot(without: string, within: string): (f: Lambda<Atom>)
    ensures Closed(f)
  {
    var present: Expr<Atom> := Test(IsNotNull(UserMetadataColumn), 0);
    var excluded: Expr<Atom> := Test(LikeTest(UserMetadataColumn, without), 0);
    var matched: Expr<Atom> := Test(LikeTest(UserMetadataColumn, within), 0);
    assert Vars(Not(excluded)) == {0};
    assert Vars(AndAlso(present, Not(excluded))) == {0};
    assert Vars(AndAlso(AndAlso(present, Not(excluded)), matched)) == {0};
    Lambda(0, AndAlso(AndAlso(present, Not(excluded)), matched))
  }

  lemma NoMetadataLikeSat(pattern: string, a: Asset, fold: char -> char)
    ensures Sat(NoMetadataLike(pattern), a, fold) <==>
      a.userMetadata.None? || a.userMetadata.value == "" || !Like(a.userMetadata.value, pattern, fold)
  {
    var env := map[0 := a];
    var h := HoldsFn(fold);
    var unset: Expr<Atom> := Test(IsNullOrEmpty(UserMetadataColumn), 0);
    var matched: Expr<Atom> := Test(LikeTest(UserMetadataColumn, pattern), 0);
    assert Eval(Not(matched), env, h) == !Eval(matched, env, h);
    assert Sat(NoMetadataLike(pattern), a, fold) == (Eval(unset, env, h) || Eval(Not(matched), env, h));
  }

  lemma MetadataLikeNotSat(without: string, within: string, a: Asset, fold: char -> char)
    ensures Sat(MetadataLikeNot(without, within), a, fold) <==>
      a.userMetadata.Some? && !Like(a.userMetadata.value, without, fold) && Like(a.userMetadata.value, within, fold)
  {
    var env := map[0 := a];
    var h := HoldsFn(fold);
    var present: Expr<Atom> := Test(IsNotNull(UserMetadataColumn), 0);
    var excluded: Expr<Atom> := Test(LikeTest(UserMetadataColumn, without), 0);
    var matched: Expr<Atom> := Test(LikeTest(UserMetadataColumn, within), 0);
    assert Eval(Not(excluded), env, h) == !Eval(excluded, env, h);
    assert Eval(AndAlso(present, Not(excluded)), env, h) == (Eval(present, env, h) && Eval(Not(excluded), env, h));
    assert Sat(MetadataLikeNot(without, within), a, fold) == (Eval(AndAlso(present, Not(excluded)), env, h) && Eval(matched, env, h));
  }

  /** The LIKE pattern of the operators that look at the value (all but isuntagged and isnot). */
  function ValuePattern(op: string, key: string, escaped: string): string {
    if op == "is" || op == "equals" then ExactPattern(key, escaped)
    else if op == "startswith" then PrefixPattern(key, escaped)
    else if op == "endswith" then SuffixPattern(key, escaped)
    else InfixPattern(key, escaped)
  }

  /** BuildMetadataCondition(condition). The key goes into the patterns as it is;
      only the value is escaped. */
  function BuildMetadataCondition(c: Condition): (r: Option<Lambda<Atom>>)
    ensures r.Some? ==> Closed(r.value)
  {
    MetadataTest(Trim(c.metadataField), Trim(c.value), NormalizeOperator(c.op))
  }

  /** The predicate of a metadata operator for a trimmed key and value. */
  function MetadataTest(key: string, value: string, op: string): (r: Option<Lambda<Atom>>)
    ensures r.Some? ==> Closed(r.value)
  {
    if key == "" then None
    else if op == "isuntagged" then Some(NoMetadataLike(KeyPattern(key)))
    else if value == "" then None
    else
      var escaped := EscapeLike(value);
      if op == "isnot" then Some(MetadataLikeNot(ExactPattern(key, escaped), KeyPattern(key)))
      else Some(Both(IsNotNull(UserMetadataColumn), LikeTest(UserMetadataColumn, ValuePattern(op, key, escaped))))
  }

  /** Whether a metadata condition produces a predicate. */
  predicate MetadataBuilds(c: Condition) {
    !IsBlank(c.metadataField) && (NormalizeOperator(c.op) == "isuntagged" || !IsBlank(c.value))
  }

  /** What a value operator asks of the serialised object `m`, with `k` the label
      `"key":` : the exact string value `"key":"v"` (is/equals), the labelled
      value followed by the closing quote somewhere after (startswith), or
      preceded by the opening quote (endswith), or both (contains and any
      other operator). */
  predicate ValueMatches(op: string, k: string, v: string, m: string, fold: char -> char) {
    if op == "is" || op == "equals" then FoldContains(m, k + "\"" + v + "\"", fold)
    else if op == "startswith" then InOrder(m, [k + "\"" + v, "\""], fold)
    else if op == "endswith" then InOrder(m, [k + "\"", v + "\""], fold)
    else InOrder(m, [k + "\"", v, "\""], fold)
  }

  /** The rows a metadata condition admits: untagged (no object, an empty one,
      or no label for the key), a labelled row without the exact value (isnot),
      or a row whose object matches the value operator. */
  predicate MetadataAdmits(c: Condition, meta: Option<string>, fold: char -> char) {
    MetadataWithin(Trim(c.metadataField), Trim(c.value), NormalizeOperator(c.op), meta, fold)
  }

  /** MetadataAdmits for a trimmed key and value and a canonical operator. */
  predicate MetadataWithin(key: string, v: string, op: string, meta: Option<string>, fold: char -> char) {
    var k := KeyLabel(key);
    if op == "isuntagged" then meta.None? || meta.value == "" || !FoldContains(meta.value, k, fold)
    else if op == "isnot" then
      meta.Some? && !FoldContains(meta.value, k + "\"" + v + "\"", fold) && FoldContains(meta.value, k, fold)
    else meta.Some? && ValueMatches(op, k, v, meta.value, fold)
  }

  lemma PlainAppend(a: string, b: string)
    requires Plain(a) && Plain(b)
    ensures Plain(a + b)
  {
    assert forall i | 0 <= i < |a + b| :: (a + b)[i] == if i < |a| then a[i] else b[i - |a|];
  }

  /** The label of a plain key, with or without the opening quote of its value, is plain. */
  lemma PlainLabel(key: string)
    requires Plain(key)
    ensures Plain(KeyLabel(key)) && Plain(KeyLabel(key) + "\"") && Plain("\"")
    ensures EscapeEach(KeyLabel(key)) == KeyLabel(key)
    ensures EscapeEach(KeyLabel(key) + "\"") == KeyLabel(key) + "\""
    ensures EscapeEach("\"") == "\""
  {
    assert Plain("\"") && Plain("\":");
    PlainAppend("\"", key);
    PlainAppend("\"" + key, "\":");
    PlainAppend(KeyLabel(key), "\"");
    EscapeEachPlain(KeyLabel(key));
    EscapeEachPlain(KeyLabel(key) + "\"");
    EscapeEachPlain("\"");
  }

  lemma PiecesOne(p: string)
    ensures Pieces([p]) == "%" + EscapeEach(p) + "%"
  {
    assert [p][1..] == [];
  }

  lemma PiecesTwo(p: string, q: string)
    ensures Pieces([p, q]) == "%" + EscapeEach(p) + "%" + EscapeEach(q) + "%"
  {
    assert [p, q][1..] == [q];
    PiecesOne(q);
  }

  lemma PiecesThree(p: string, q: string, r: string)
    ensures Pieces([p, q, r]) == "%" + EscapeEach(p) + "%" + EscapeEach(q) + "%" + EscapeEach(r) + "%"
  {
    assert [p, q, r][1..] == [q, r];
    PiecesTwo(q, r);
    AppendRegroup("%" + EscapeEach(p), "%", EscapeEach(q), "%", EscapeEach(r), "%");
  }

  /** a + b + c == a + (b + c) for strings. */
  lemma Assoc(a: string, b: string, c: string)
    ensures a + (b + c) == a + b + c
  {
  }

  /** A prefix in front of a left-nested concatenation of five parts. */
  lemma AppendRegroup(a: string, b1: string, b2: string, b3: string, b4: string, b5: string)
    ensures a + (b1 + b2 + b3 + b4 + b5) == a + b1 + b2 + b3 + b4 + b5
  {
    Assoc(a, b1 + b2 + b3 + b4, b5);
    Assoc(a, b1 + b2 + b3, b4);
    Assoc(a, b1 + b2, b3);
    Assoc(a, b1, b2);
  }

  lemma KeyPatternPieces(key: string)
    requires Plain(key)
    ensures KeyPattern(key) == Pieces([KeyLabel(key)])
  {
    PlainLabel(key);
    PiecesOne(KeyLabel(key));
  }

  lemma ExactPatternPieces(key: string, v: string)
    requires Plain(key)
    ensures ExactPattern(key, EscapeLike(v)) == Pieces([KeyLabel(key) + "\"" + v + "\""])
  {
    var kq := KeyLabel(key) + "\"";
    PlainLabel(key);
    EscapeLikeIsEscapeEach(v);
    EscapeEachAppend(kq + v, "\"");
    EscapeEachAppend(kq, v);
    PiecesOne(kq + v + "\"");
  }

  lemma PrefixPatternPieces(key: string, v: string)
    requires Plain(key)
    ensures PrefixPattern(key, EscapeLike(v)) == Pieces([KeyLabel(key) + "\"" + v, "\""])
  {
    var kq := KeyLabel(key) + "\"";
    PlainLabel(key);
    EscapeLikeIsEscapeEach(v);
    EscapeEachAppend(kq, v);
    PiecesTwo(kq + v, "\"");
  }

  lemma SuffixPatternPieces(key: string, v: string)
    requires Plain(key)
    ensures SuffixPattern(key, EscapeLike(v)) == Pieces([KeyLabel(key) + "\"", v + "\""])
  {
    var kq := KeyLabel(key) + "\"";
    PlainLabel(key);
    EscapeLikeIsEscapeEach(v);
    EscapeEachAppend(v, "\"");
    PiecesTwo(kq, v + "\"");
  }

  lemma InfixPatternPieces(key: string, v: string)
    requires Plain(key)
    ensures InfixPattern(key, EscapeLike(v)) == Pieces([KeyLabel(key) + "\"", v, "\""])
  {
    var kq := KeyLabel(key) + "\"";
    PlainLabel(key);
    EscapeLikeIsEscapeEach(v);
    PiecesThree(kq, v, "\"");
  }

  /** `LIKE %p%` with one piece is containment. */
  lemma LikeOnePiece(m: string, p: string, fold: char -> char)
    ensures Like(m, Pieces([p]), fold) <==> FoldContains(m, p, fold)
  {
    LikePieces(m, [p], fold);
    InOrderOne(m, p, fold);
  }

  lemma KeyPatternMeaning(m: string, key: string, fold: char -> char)
    requires Plain(key)
    ensures Like(m, KeyPattern(key), fold) <==> FoldContains(m, KeyLabel(key), fold)
  {
    KeyPatternPieces(key);
    LikeOnePiece(m, KeyLabel(key), fold);
  }

  lemma ExactPatternMeaning(m: string, key: string, v: string, fold: char -> char)
    requires Plain(key)
    ensures Like(m, ExactPattern(key, EscapeLike(v)), fold) <==> FoldContains(m, KeyLabel(key) + "\"" + v + "\"", fold)
  {
    ExactPatternPieces(key, v);
    LikeOnePiece(m, KeyLabel(key) + "\"" + v + "\"", fold);
  }

  lemma PrefixPatternMeaning(m: string, key: string, v: string, fold: char -> char)
    requires Plain(key)
    ensures Like(m, PrefixPattern(key, EscapeLike(v)), fold) <==> InOrder(m, [KeyLabel(key) + "\"" + v, "\""], fold)
  {
    PrefixPatternPieces(key, v);
    LikePieces(m, [KeyLabel(key) + "\"" + v, "\""], fold);
  }

  lemma SuffixPatternMeaning(m: string, key: string, v: string, fold: char -> char)
    requires Plain(key)
    ensures Like(m, SuffixPattern(key, EscapeLike(v)), fold) <==> InOrder(m, [KeyLabel(key) + "\"", v + "\""], fold)
  {
    SuffixPatternPieces(key, v);
    LikePieces(m, [KeyLabel(key) + "\"", v + "\""], fold);
  }

  lemma InfixPatternMeaning(m: string, key: string, v: string, fold: char -> char)
    requires Plain(key)
    ensures Like(m, InfixPattern(key, EscapeLike(v)), fold) <==> InOrder(m, [KeyLabel(key) + "\"", v, "\""], fold)
  {
    InfixPatternPieces(key, v);
    LikePieces(m, [KeyLabel(key) + "\"", v, "\""], fold);
  }

  /** The value pattern of an operator matches what ValueMatches asks. */
  lemma ValuePatternMeaning(op: string, key: string, v: string, m: string, fold: char -> char)
    requires Plain(key)
    ensures Like(m, ValuePattern(op, key, EscapeLike(v)), fold) <==> ValueMatches(op, KeyLabel(key), v, m, fold)
  {
    if op == "is" || op == "equals" {
      ExactPatternMeaning(m, key, v, fold);
    } else if op == "startswith" {
      PrefixPatternMeaning(m, key, v, fold);
    } else if op == "endswith" {
      SuffixPatternMeaning(m, key, v, fold);
    } else {
      InfixPatternMeaning(m, key, v, fold);
    }
  }

  /** With a key free of LIKE wildcards, a metadata condition yields a
      predicate exactly when MetadataBuilds holds, and that predicate admits
      exactly the rows MetadataAdmits describes. */
  lemma MetadataConditionMeaning(c: Condition, a: Asset, fold: char -> char)
    requires Plain(Trim(c.metadataField))
    ensures BuildMetadataCondition(c).Some? <==> MetadataBuilds(c)
    ensures BuildMetadataCondition(c).Some? ==>
      (Sat(BuildMetadataCondition(c).value, a, fold) <==> MetadataAdmits(c, a.userMetadata, fold))
  {
    TrimEmptyIffBlank(c.metadataField);
    TrimEmptyIffBlank(c.value);
    MetadataTestMeaning(Trim(c.metadataField), Trim(c.value), NormalizeOperator(c.op), a, fold);
  }

  /** Which keys, values and operators give a metadata predicate, whatever the key holds. */
  lemma MetadataTestBuilds(key: string, v: string, op: string)
    ensures MetadataTest(key, v, op).Some? <==> key != "" && (op == "isuntagged" || v != "")
  {
  }

  lemma MetadataTestMeaning(key: string, v: string, op: string, a: Asset, fold: char -> char)
    requires Plain(key)
    ensures MetadataTest(key, v, op).Some? <==> key != "" && (op == "isuntagged" || v != "")
    ensures MetadataTest(key, v, op).Some? ==>
      (Sat(MetadataTest(key, v, op).value, a, fold) <==> MetadataWithin(key, v, op, a.userMetadata, fold))
  {
    MetadataTestBuilds(key, v, op);
    var m := a.userMetadata.GetOr("");
    if key != "" && op == "isuntagged" {
      NoMetadataLikeSat(KeyPattern(key), a, fold);
      KeyPatternMeaning(m, key, fold);
    } else if key != "" && v != "" && op == "isnot" {
      MetadataLikeNotSat(ExactPattern(key, EscapeLike(v)), KeyPattern(key), a, fold);
      KeyPatternMeaning(m, key, fold);
      ExactPatternMeaning(m, key, v, fold);
    } else if key != "" && v != "" {
      BothSat(IsNotNull(UserMetadataColumn), LikeTest(UserMetadataColumn, ValuePattern(op, key, EscapeLike(v))), a, fold);
      ValuePatternMeaning(op, key, v, m, fold);
    }
  }

  lemma WildcardKeyLikes()
    ensures Like("\"axb\":", KeyPattern("a_b"), Ordinal)
  {
    assert KeyPattern("a_b") == "%\"a_b\":%";
    assert Like("", "%", Ordinal);
    assert Like(":", ":%", Ordinal);
    assert Like("\":", "\":%", Ordinal);
    assert Like("b\":", "b\":%", Ordinal);
    assert Like("xb\":", "_b\":%", Ordinal);
    assert Like("axb\":", "a_b\":%", Ordinal);
    assert Like("\"axb\":", "\"a_b\":%", Ordinal);
    assert Like("\"axb\":", "%\"a_b\":%", Ordinal);
  }

  lemma WildcardKeyAbsent()
    ensures !FoldContains("\"axb\":", KeyLabel("a_b"), Ordinal)
  {
    var row := "\"axb\":";
    var keyText := KeyLabel("a_b");
    assert keyText == "\"a_b\":";
    forall i | 0 <= i <= |row| ensures !FoldAt(row, keyText, i, Ordinal) {
      if i == 0 {
        assert row[0..6] == row;
        assert Fold(row, Ordinal)[2] == Ordinal(row[2]) == 'x';
        assert Fold(keyText, Ordinal)[2] == Ordinal(keyText[2]) == '_';
      }
    }
  }

  /** The shape of an `isuntagged` condition with a key. */
  lemma UntaggedShape(c: Condition, meta: Option<string>, fold: char -> char)
    requires NormalizeOperator(c.op) == "isuntagged" && Trim(c.metadataField) != ""
    ensures BuildMetadataCondition(c) == Some(NoMetadataLike(KeyPattern(Trim(c.metadataField))))
    ensures MetadataAdmits(c, meta, fold) <==>
      meta.None? || meta.value == "" || !FoldContains(meta.value, KeyLabel(Trim(c.metadataField)), fold)
  {
  }

  /** The key is not escaped: under a binary collation the key `a_b` (whose
      `_` LIKE reads as any character) finds the label `"axb":`, so a row
      holding only `axb` is not reported as untagged for `a_b`. */
  lemma MetadataKeyWildcard(c: Condition, a: Asset)
    requires NormalizeOperator(c.op) == "isuntagged" && Trim(c.metadataField) == "a_b"
    requires a.userMetadata == Some("\"axb\":")
    ensures BuildMetadataCondition(c).Some?
    ensures MetadataAdmits(c, a.userMetadata, Ordinal)
    ensures !Sat(BuildMetadataCondition(c).value, a, Ordinal)
  {
    UntaggedShape(c, a.userMetadata, Ordinal);
    WildcardKeyLikes();
    WildcardKeyAbsent();
    NoMetadataLikeSat(KeyPattern("a_b"), a, Ordinal);
  }
}

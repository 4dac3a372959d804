/** The loop-based parts of the search compiler: BuildIdCondition,
    BuildTagCondition, the field dispatch BuildConditionPredicate and the
    per-request BuildConditionPredicates. Each is proved against a
    reference predicate over the asset's columns. */
module SearchCompiler {
  import opened Wrappers
  import opened Base
  import opened Text
  import opened SqlLike
  import opened Seqs
  import opened Assets
  import opened PredicateBuilder
  import opened SearchDtos
  import opened SearchValues
  import opened SearchAtoms
  import opened SearchBuilders

  // ------------------------------------------------------------ ids

  /** `id` is named by the condition: one of its Values, or its Value, parses to it. */
  predicate IdListed(c: Condition, ps: Parsers, id: Guid) {
    (exists j | 0 <= j < |c.values| :: ps.guid(c.values[j]) == Some(id))
    || (c.value != "" && ps.guid(c.value) == Some(id))
  }

  /** Whether an id condition produces a predicate: some Value or the Value parses. */
  predicate IdBuilds(c: Condition, ps: Parsers) {
    (exists j | 0 <= j < |c.values| :: ps.guid(c.values[j]).Some?)
    || (c.value != "" && ps.guid(c.value).Some?)
  }

  /** BuildIdCondition: the assets whose Id is among the parsed identifiers. */
  method BuildIdCondition(c: Condition, ps: Parsers) returns (r: Option<Lambda<Atom>>)
    ensures r.Some? <==> IdBuilds(c, ps)
    ensures r.Some? ==> Closed(r.value)
    ensures r.Some? ==> forall a, fold :: Sat(r.value, a, fold) <==> IdListed(c, ps, a.id)
  {
    var ids: seq<Guid> := [];
    var i := 0;
    while i < |c.values|
      invariant 0 <= i <= |c.values|
      invariant forall x :: x in ids <==> exists j | 0 <= j < i :: ps.guid(c.values[j]) == Some(x)
    {
      match ps.guid(c.values[i]) {
        case Some(g) => ids := ids + [g];
        case None =>
      }
      i := i + 1;
    }
    if c.value != "" {
      match ps.guid(c.value) {
        case Some(g) => ids := ids + [g];
        case None =>
      }
    }
    if |ids| == 0 {
      return None;
    }
    assert ids[0] in ids;
    r := Some(Single(IdIn(ids)));
    forall a, fold ensures Sat(r.value, a, fold) <==> IdListed(c, ps, a.id) {
      SingleSat(IdIn(ids), a, fold);
    }
  }

  // ------------------------------------------------------------ tags

  /** Values.Select(TryParse).Where(HasValue).Select(Value). */
  function ParsedGuids(values: seq<string>, ps: Parsers): (r: seq<Guid>)
    ensures forall x :: x in r <==> exists j | 0 <= j < |values| :: ps.guid(values[j]) == Some(x)
    decreases |values|
  {
    if |values| == 0 then []
    else
      var rest := ParsedGuids(values[1..], ps);
      assert forall j | 1 <= j < |values| :: values[1..][j - 1] == values[j];
      match ps.guid(values[0])
      case Some(g) => [g] + rest
      case None => rest
  }

  /** Whether a tag condition produces a predicate: some Value parses. */
  predicate TagBuilds(c: Condition, ps: Parsers) {
    exists j | 0 <= j < |c.values| :: ps.guid(c.values[j]).Some?
  }

  /** The rows a tag condition admits: every named tag (containsall) or some named tag. */
  predicate TagAdmits(c: Condition, ps: Parsers, a: Asset) {
    if NormalizeOperator(c.op) == "containsall" then
      forall j | 0 <= j < |c.values| :: ps.guid(c.values[j]).Some? ==> ps.guid(c.values[j]).value in a.tagIds
    else
      exists j | 0 <= j < |c.values| :: ps.guid(c.values[j]).Some? && ps.guid(c.values[j]).value in a.tagIds
  }

  lemma EvalTagStep(e: Expr<Atom>, id: Guid, a: Asset, fold: char -> char)
    requires Vars(e) <= {0}
    ensures Vars(AndAlso(e, Test(AnyTagIs(id), 0))) <= {0}
    ensures Eval(AndAlso(e, Test(AnyTagIs(id), 0)), map[0 := a], HoldsFn(fold)) <==>
      Eval(e, map[0 := a], HoldsFn(fold)) && id in a.tagIds
  {
  }

  /** BuildTagCondition: with `containsall`, one `Any` test per distinct tag,
      joined by AndAlso; otherwise one `Any` over the whole list. */
  method BuildTagCondition(c: Condition, ps: Parsers) returns (r: Option<Lambda<Atom>>)
    ensures r.Some? <==> TagBuilds(c, ps)
    ensures r.Some? ==> Closed(r.value)
    ensures r.Some? ==> forall a, fold :: Sat(r.value, a, fold) <==> TagAdmits(c, ps, a)
  {
    if |c.values| == 0 {
      return None;
    }
    var tagIds := Distinct(ParsedGuids(c.values, ps));
    if |tagIds| == 0 {
      return None;
    }
    assert tagIds[0] in ParsedGuids(c.values, ps);
    var op := NormalizeOperator(c.op);
    if op == "containsall" {
      var combined := AllTagsTest(tagIds);
      r := Some(Lambda(0, combined));
      AllTagsMeaning(c, ps, tagIds, combined);
    } else {
      r := Some(Single(AnyTagIn(tagIds)));
      AnyTagMeaning(c, ps, tagIds);
    }
  }

  /** The `containsall` test: one tag test per id, joined with `AndAlso`. */
  method AllTagsTest(tagIds: seq<Guid>) returns (combined: Expr<Atom>)
    requires |tagIds| > 0
    ensures RequiresAll(combined, tagIds, |tagIds|)
  {
    combined := Test(AnyTagIs(tagIds[0]), 0);
    for k := 1 to |tagIds|
      invariant RequiresAll(combined, tagIds, k)
    {
      RequiresAllStep(combined, tagIds, k);
      combined := AndAlso(combined, Test(AnyTagIs(tagIds[k]), 0));
    }
  }

  lemma AnyTagMeaning(c: Condition, ps: Parsers, tagIds: seq<Guid>)
    requires tagIds == Distinct(ParsedGuids(c.values, ps))
    requires NormalizeOperator(c.op) != "containsall"
    ensures forall a, fold :: Sat(Single(AnyTagIn(tagIds)), a, fold) <==> TagAdmits(c, ps, a)
  {
    forall a, fold ensures Sat(Single(AnyTagIn(tagIds)), a, fold) <==> TagAdmits(c, ps, a) {
      SingleSat(AnyTagIn(tagIds), a, fold);
      TagsAnyMeaning(c.values, ps, tagIds, a);
    }
  }

  /** The loop invariant of the `containsall` branch: `e` tests the first `k` tags. */
  ghost predicate RequiresAll(e: Expr<Atom>, tagIds: seq<Guid>, k: nat)
    requires k <= |tagIds|
  {
    Vars(e) <= {0} &&
    forall a, fold :: Eval(e, map[0 := a], HoldsFn(fold)) <==> forall j | 0 <= j < k :: tagIds[j] in a.tagIds
  }

  lemma RequiresAllStep(e: Expr<Atom>, tagIds: seq<Guid>, k: nat)
    requires k < |tagIds| && RequiresAll(e, tagIds, k)
    ensures RequiresAll(AndAlso(e, Test(AnyTagIs(tagIds[k]), 0)), tagIds, k + 1)
  {
    forall a, fold ensures Eval(AndAlso(e, Test(AnyTagIs(tagIds[k]), 0)), map[0 := a], HoldsFn(fold)) <==>
      forall j | 0 <= j < k + 1 :: tagIds[j] in a.tagIds
    {
      EvalTagStep(e, tagIds[k], a, fold);
    }
    EvalTagStep(e, tagIds[k], DefaultAsset(), Ordinal);
  }

  lemma AllTagsMeaning(c: Condition, ps: Parsers, tagIds: seq<Guid>, e: Expr<Atom>)
    requires tagIds == Distinct(ParsedGuids(c.values, ps))
    requires NormalizeOperator(c.op) == "containsall"
    requires RequiresAll(e, tagIds, |tagIds|)
    ensures Closed(Lambda(0, e))
    ensures forall a, fold :: Sat(Lambda(0, e), a, fold) <==> TagAdmits(c, ps, a)
  {
    forall a, fold ensures Sat(Lambda(0, e), a, fold) <==> TagAdmits(c, ps, a) {
      TagsAllMeaning(c.values, ps, tagIds, a);
    }
  }

  lemma TagsAllMeaning(values: seq<string>, ps: Parsers, tagIds: seq<Guid>, a: Asset)
    requires tagIds == Distinct(ParsedGuids(values, ps))
    ensures (forall j | 0 <= j < |tagIds| :: tagIds[j] in a.tagIds) <==>
      forall j | 0 <= j < |values| :: ps.guid(values[j]).Some? ==> ps.guid(values[j]).value in a.tagIds
  {
    if forall j | 0 <= j < |tagIds| :: tagIds[j] in a.tagIds {
      forall j | 0 <= j < |values| && ps.guid(values[j]).Some? ensures ps.guid(values[j]).value in a.tagIds {
        var g := ps.guid(values[j]).value;
        assert g in ParsedGuids(values, ps);
        assert g in tagIds;
      }
    }
    if forall j | 0 <= j < |values| :: ps.guid(values[j]).Some? ==> ps.guid(values[j]).value in a.tagIds {
      forall j | 0 <= j < |tagIds| ensures tagIds[j] in a.tagIds {
        assert tagIds[j] in ParsedGuids(values, ps);
      }
    }
  }

  lemma TagsAnyMeaning(values: seq<string>, ps: Parsers, tagIds: seq<Guid>, a: Asset)
    requires tagIds == Distinct(ParsedGuids(values, ps))
    ensures (exists i | 0 <= i < |a.tagIds| :: a.tagIds[i] in tagIds) <==>
      exists j | 0 <= j < |values| :: ps.guid(values[j]).Some? && ps.guid(values[j]).value in a.tagIds
  {
    if i :| 0 <= i < |a.tagIds| && a.tagIds[i] in tagIds {
      assert a.tagIds[i] in ParsedGuids(values, ps);
      var j :| 0 <= j < |values| && ps.guid(values[j]) == Some(a.tagIds[i]);
    }
    if j :| 0 <= j < |values| && ps.guid(values[j]).Some? && ps.guid(values[j]).value in a.tagIds {
      var g := ps.guid(values[j]).value;
      assert g in ParsedGuids(values, ps);
      var i :| 0 <= i < |a.tagIds| && a.tagIds[i] == g;
    }
  }

  // ------------------------------------------------------------ dispatch

  /** Whether a condition produces a predicate, by its normalised field name. */
  /** The cases of the switch on the normalised field name. */
  datatype FieldKind = FileNameField | FileTypeField | TagsField | FileSizeField
                     | DateField | MetadataField | IdField | UnknownField

  /** The case a normalised field name selects: "filename", "filetype",
      "tags", "filesize", "datecreated" or "createdat", "metadata", "id" or
      "ids"; any other name selects no builder. */
  function FieldKindOf(f: string): FieldKind {
    if f == "filename" then FileNameField
    else if f == "filetype" then FileTypeField
    else if f == "tags" then TagsField
    else if f == "filesize" then FileSizeField
    else if f == "datecreated" || f == "createdat" then DateField
    else if f == "metadata" then MetadataField
    else if f == "id" || f == "ids" then IdField
    else UnknownField
  }

  function KindOf(c: Condition): FieldKind {
    FieldKindOf(NormalizeField(c.field))
  }

  predicate ConditionBuilds(c: Option<Condition>, ps: Parsers) {
    match c
    case None => false
    case Some(c) =>
      match KindOf(c)
      case FileNameField => !IsBlank(c.value)
      case FileTypeField =>
        if |c.values| > 0 then exists i | 0 <= i < |c.values| :: !IsBlank(c.values[i])
        else !IsBlank(c.value)
      case TagsField => TagBuilds(c, ps)
      case FileSizeField => SizeBuilds(c, ps)
      case DateField => DateBuilds(c, ps)
      case MetadataField => MetadataBuilds(c)
      case IdField => IdBuilds(c, ps)
      case UnknownField => false
  }

  /** The rows a condition that builds admits, by its normalised field name. */
  predicate ConditionAdmits(c: Condition, ps: Parsers, a: Asset, fold: char -> char) {
    match KindOf(c)
    case FileNameField => TextAdmits(FileNameColumn, c, a, fold)
    case FileTypeField =>
      if |c.values| > 0 then TextListAdmits(FileTypeColumn, c.values, a, fold)
      else TextAdmits(FileTypeColumn, c, a, fold)
    case TagsField => TagAdmits(c, ps, a)
    case FileSizeField => SizeAdmits(c, ps, a.fileSize)
    case DateField => DateAdmits(c, ps, a.createdAt)
    case MetadataField => MetadataAdmits(c, a.userMetadata, fold)
    case IdField => IdListed(c, ps, a.id)
    case UnknownField => false
  }

  /** The meaning of a condition is stated for metadata keys free of LIKE
      wildcards; a key with `%` or `_` matches more than its text. */
  predicate MeaningDefined(c: Condition) {
    KindOf(c) == MetadataField ==> Plain(Trim(c.metadataField))
  }

  /** Building the predicate of a condition throws: only a date condition
      can, on a day whose end DateTime cannot hold. */
  predicate ConditionThrows(c: Option<Condition>, ps: Parsers) {
    c.Some? && KindOf(c.value) == DateField && DateThrows(c.value, ps)
  }

  /** BuildConditionPredicate: a null condition or an unknown field yields
      no predicate; otherwise the builder for the field decides. */
  method BuildConditionPredicate(c: Option<Condition>, ps: Parsers) returns (r: Result<Option<Lambda<Atom>>>)
    ensures r.Err? <==> ConditionThrows(c, ps)
    ensures r.Ok? ==> (r.value.Some? <==> ConditionBuilds(c, ps))
    ensures r.Ok? && r.value.Some? ==> Closed(r.value.value)
    ensures r.Ok? && r.value.Some? && MeaningDefined(c.value) ==>
      forall a, fold :: Sat(r.value.value, a, fold) <==> ConditionAdmits(c.value, ps, a, fold)
  {
    if c.None? {
      return Ok(None);
    }
    var cond := c.value;
    var f := KindOf(cond);
    var p: Option<Lambda<Atom>>;
    if f == FileNameField {
      p := BuildStringCondition(FileNameColumn, cond);
      FileNameRealizes(cond, ps);
    } else if f == FileTypeField {
      if |cond.values| > 0 {
        p := BuildStringListCondition(FileTypeColumn, cond.values);
        FileTypeListRealizes(cond, ps);
      } else {
        p := BuildStringCondition(FileTypeColumn, cond);
        FileTypeRealizes(cond, ps);
      }
    } else if f == TagsField {
      p := BuildTagCondition(cond, ps);
    } else if f == FileSizeField {
      p := BuildFileSizeCondition(cond, ps);
      SizeRealizes(cond, ps);
    } else if f == DateField {
      DateRealizes(cond, ps);
      var d := BuildDateCondition(cond, ps);
      if d.Err? {
        return Err(d.message);
      }
      p := d.value;
    } else if f == MetadataField {
      p := BuildMetadataCondition(cond);
      MetadataRealizes(cond, ps);
    } else if f == IdField {
      p := BuildIdCondition(cond, ps);
    } else {
      p := None;
    }
    r := Ok(p);
  }

  /** The contract of BuildConditionPredicate for one condition and one builder's result. */
  ghost predicate Realizes(r: Option<Lambda<Atom>>, c: Condition, ps: Parsers) {
    (r.Some? <==> ConditionBuilds(Some(c), ps)) &&
    (r.Some? ==> Closed(r.value)) &&
    (r.Some? && MeaningDefined(c) ==> forall a, fold :: Sat(r.value, a, fold) <==> ConditionAdmits(c, ps, a, fold))
  }

  lemma FileNameRealizes(c: Condition, ps: Parsers)
    requires KindOf(c) == FileNameField
    ensures Realizes(BuildStringCondition(FileNameColumn, c), c, ps)
  {
    var r := BuildStringCondition(FileNameColumn, c);
    forall a, fold ensures r.Some? ==> (Sat(r.value, a, fold) <==> ConditionAdmits(c, ps, a, fold)) {
      StringConditionMeaning(FileNameColumn, c, a, fold);
    }
    StringConditionMeaning(FileNameColumn, c, DefaultAsset(), Ordinal);
  }

  lemma FileTypeListRealizes(c: Condition, ps: Parsers)
    requires KindOf(c) == FileTypeField && |c.values| > 0
    ensures Realizes(BuildStringListCondition(FileTypeColumn, c.values), c, ps)
  {
    var r := BuildStringListCondition(FileTypeColumn, c.values);
    forall a, fold ensures r.Some? ==> (Sat(r.value, a, fold) <==> ConditionAdmits(c, ps, a, fold)) {
      StringListConditionMeaning(FileTypeColumn, c.values, a, fold);
    }
    StringListConditionMeaning(FileTypeColumn, c.values, DefaultAsset(), Ordinal);
  }

  lemma FileTypeRealizes(c: Condition, ps: Parsers)
    requires KindOf(c) == FileTypeField && |c.values| == 0
    ensures Realizes(BuildStringCondition(FileTypeColumn, c), c, ps)
  {
    var r := BuildStringCondition(FileTypeColumn, c);
    forall a, fold ensures r.Some? ==> (Sat(r.value, a, fold) <==> ConditionAdmits(c, ps, a, fold)) {
      StringConditionMeaning(FileTypeColumn, c, a, fold);
    }
    StringConditionMeaning(FileTypeColumn, c, DefaultAsset(), Ordinal);
  }

  lemma SizeRealizes(c: Condition, ps: Parsers)
    requires KindOf(c) == FileSizeField
    ensures Realizes(BuildFileSizeCondition(c, ps), c, ps)
  {
    var r := BuildFileSizeCondition(c, ps);
    forall a, fold ensures r.Some? ==> (Sat(r.value, a, fold) <==> ConditionAdmits(c, ps, a, fold)) {
      FileSizeConditionMeaning(c, ps, a, fold);
    }
    FileSizeConditionMeaning(c, ps, DefaultAsset(), Ordinal);
  }

  lemma DateRealizes(c: Condition, ps: Parsers)
    requires KindOf(c) == DateField
    ensures BuildDateCondition(c, ps).Err? <==> DateThrows(c, ps)
    ensures BuildDateCondition(c, ps).Ok? ==> Realizes(BuildDateCondition(c, ps).value, c, ps)
  {
    var r := BuildDateCondition(c, ps);
    forall a, fold ensures r.Ok? && r.value.Some? ==> (Sat(r.value.value, a, fold) <==> ConditionAdmits(c, ps, a, fold)) {
      DateConditionMeaning(c, ps, a, fold);
    }
    DateConditionMeaning(c, ps, DefaultAsset(), Ordinal);
  }

  lemma MetadataRealizes(c: Condition, ps: Parsers)
    requires KindOf(c) == MetadataField
    ensures Realizes(BuildMetadataCondition(c), c, ps)
  {
    var r := BuildMetadataCondition(c);
    if r.Some? && MeaningDefined(c) {
      MetadataMeaningEverywhere(c, ps);
    }
    MetadataBuildsDispatch(c, ps);
  }

  lemma MetadataBuildsDispatch(c: Condition, ps: Parsers)
    requires KindOf(c) == MetadataField
    ensures BuildMetadataCondition(c).Some? <==> ConditionBuilds(Some(c), ps)
  {
    MetadataBuildsAnyKey(c);
  }

  lemma MetadataMeaningEverywhere(c: Condition, ps: Parsers)
    requires KindOf(c) == MetadataField && MeaningDefined(c)
    requires BuildMetadataCondition(c).Some?
    ensures forall a, fold :: Sat(BuildMetadataCondition(c).value, a, fold) <==> ConditionAdmits(c, ps, a, fold)
  {
    forall a, fold
      ensures Sat(BuildMetadataCondition(c).value, a, fold) <==> ConditionAdmits(c, ps, a, fold)
    {
      MetadataConditionMeaning(c, a, fold);
    }
  }

  /** Whether the metadata builder yields a predicate does not depend on the key's characters. */
  lemma MetadataBuildsAnyKey(c: Condition)
    ensures BuildMetadataCondition(c).Some? <==> MetadataBuilds(c)
  {
    TrimEmptyIffBlank(c.metadataField);
    TrimEmptyIffBlank(c.value);
    MetadataTestBuilds(Trim(c.metadataField), Trim(c.value), NormalizeOperator(c.op));
  }

  /** An asset with every column empty, used only to instantiate the lemmas. */
  function DefaultAsset(): Asset {
    Asset(0, "", "", None, None, 0, None, "", None, None, 0, 0, false, None, [])
  }

  // ------------------------------------------------------------ all conditions

  predicate AnyBuilds(conds: seq<Option<Condition>>, ps: Parsers) {
    exists i | 0 <= i < |conds| :: ConditionBuilds(conds[i], ps)
  }

  predicate AllMeaningDefined(conds: seq<Option<Condition>>) {
    forall i | 0 <= i < |conds| :: conds[i].Some? ==> MeaningDefined(conds[i].value)
  }

  /** Every condition that builds admits the row (the AND of a request). */
  predicate AllAdmit(conds: seq<Option<Condition>>, ps: Parsers, a: Asset, fold: char -> char) {
    forall i | 0 <= i < |conds| :: ConditionBuilds(conds[i], ps) ==> ConditionAdmits(conds[i].value, ps, a, fold)
  }

  /** Some condition that builds admits the row (the OR of a request). */
  predicate SomeAdmits(conds: seq<Option<Condition>>, ps: Parsers, a: Asset, fold: char -> char) {
    exists i | 0 <= i < |conds| :: ConditionBuilds(conds[i], ps) && ConditionAdmits(conds[i].value, ps, a, fold)
  }

  /** Some condition's predicate throws while it is built. */
  predicate AnyThrows(conds: seq<Option<Condition>>, ps: Parsers) {
    exists i | 0 <= i < |conds| :: ConditionThrows(conds[i], ps)
  }

  /** BuildConditionPredicates: the predicates of the conditions that build,
      in order; conditions that yield none are skipped, and a condition that
      throws ends the enumeration with its exception. */
  method BuildConditionPredicates(conds: seq<Option<Condition>>, ps: Parsers) returns (r: Result<seq<Lambda<Atom>>>)
    ensures r.Err? <==> AnyThrows(conds, ps)
    ensures r.Ok? ==> Compiled(r.value, conds, AllMeaningDefined(conds), ps)
  {
    var preds: seq<Lambda<Atom>> := [];
    ghost var defined := AllMeaningDefined(conds);
    ghost var done: seq<Option<Condition>> := [];
    CompiledNone(ps, defined);
    for i := 0 to |conds|
      invariant done == conds[..i]
      invariant Compiled(preds, done, defined, ps)
      invariant !AnyThrows(done, ps)
    {
      assert defined ==> conds[i].Some? ==> MeaningDefined(conds[i].value);
      var next := CompileNext(preds, done, conds[i], defined, ps);
      if next.Err? {
        ThrowsAt(conds, i, ps);
        return Err(next.message);
      }
      preds := next.value;
      AnyThrowsAppend(done, conds[i], ps);
      TakeSnoc(conds, i);
      done := done + [conds[i]];
    }
    TakeAll(conds);
    r := Ok(preds);
  }

  lemma ThrowsAt(conds: seq<Option<Condition>>, i: nat, ps: Parsers)
    requires i < |conds| && ConditionThrows(conds[i], ps)
    ensures AnyThrows(conds, ps)
  {
  }

  lemma AnyThrowsAppend(conds: seq<Option<Condition>>, c: Option<Condition>, ps: Parsers)
    ensures AnyThrows(conds + [c], ps) <==> AnyThrows(conds, ps) || ConditionThrows(c, ps)
  {
    var s := conds + [c];
    if AnyThrows(s, ps) {
      var i :| 0 <= i < |s| && ConditionThrows(s[i], ps);
      if i < |conds| {
        assert s[i] == conds[i];
      }
    }
    if ConditionThrows(c, ps) {
      assert s[|conds|] == c;
    }
    if AnyThrows(conds, ps) {
      var i :| 0 <= i < |conds| && ConditionThrows(conds[i], ps);
      assert s[i] == conds[i];
    }
  }

  /** One iteration: compile the next condition `c` and keep its predicate if it has one. */
  method CompileNext(preds: seq<Lambda<Atom>>, ghost done: seq<Option<Condition>>, c: Option<Condition>,
                     ghost defined: bool, ps: Parsers)
    returns (next: Result<seq<Lambda<Atom>>>)
    requires Compiled(preds, done, defined, ps)
    requires defined ==> c.Some? ==> MeaningDefined(c.value)
    ensures next.Err? <==> ConditionThrows(c, ps)
    ensures next.Ok? ==> Compiled(next.value, done + [c], defined, ps)
  {
    var p := BuildConditionPredicate(c, ps);
    if p.Err? {
      return Err(p.message);
    }
    PredicatesStep(preds, done, c, defined, p.value, ps);
    next := Ok(Extend(preds, p.value));
  }

  lemma CompiledNone(ps: Parsers, defined: bool)
    ensures Compiled([], [], defined, ps)
  {
  }

  /** What BuildConditionPredicates promises once the conditions `done` are
      compiled: every predicate is closed, there is at most one per condition,
      there is none exactly when no condition yields one, and when `defined`
      (every condition's meaning is defined) the predicates agree with the
      conditions that yield one, in order. */
  ghost predicate Compiled(preds: seq<Lambda<Atom>>, done: seq<Option<Condition>>, defined: bool, ps: Parsers) {
    AllClosed(preds) && |preds| <= |done| &&
    (|preds| == 0 <==> !AnyBuilds(done, ps)) &&
    (defined ==> Agrees(preds, done, ps))
  }

  /** The list of predicates after one more condition has been compiled. */
  function Extend(preds: seq<Lambda<Atom>>, p: Option<Lambda<Atom>>): (r: seq<Lambda<Atom>>)
    ensures |r| == |preds| + (if p.Some? then 1 else 0)
  {
    if p.Some? then preds + [p.value] else preds
  }

  /** One iteration of BuildConditionPredicates keeps its invariant. */
  lemma PredicatesStep(preds: seq<Lambda<Atom>>, done: seq<Option<Condition>>, c: Option<Condition>,
                       defined: bool, p: Option<Lambda<Atom>>, ps: Parsers)
    requires Compiled(preds, done, defined, ps)
    requires defined ==> c.Some? ==> MeaningDefined(c.value)
    requires p.Some? <==> ConditionBuilds(c, ps)
    requires p.Some? ==> Closed(p.value)
    requires p.Some? && MeaningDefined(c.value) ==>
      forall a, fold :: Sat(p.value, a, fold) <==> ConditionAdmits(c.value, ps, a, fold)
    ensures Compiled(Extend(preds, p), done + [c], defined, ps)
  {
    AnyBuildsAppend(done, c, ps);
    if p.Some? {
      HoldsAppendClosed(preds, p.value);
    }
    if defined {
      AgreesStep(preds, done, p, c, ps);
    }
  }

  /** The predicates agree with the conditions on what AND and OR of them admit. */
  ghost predicate Agrees(preds: seq<Lambda<Atom>>, conds: seq<Option<Condition>>, ps: Parsers)
    requires AllClosed(preds)
  {
    forall a, fold ::
      (AllHold(preds, a, HoldsFn(fold)) <==> AllAdmit(conds, ps, a, fold)) &&
      (AnyHolds(preds, a, HoldsFn(fold)) <==> SomeAdmits(conds, ps, a, fold))
  }

  lemma AnyBuildsAppend(conds: seq<Option<Condition>>, c: Option<Condition>, ps: Parsers)
    ensures AnyBuilds(conds + [c], ps) <==> AnyBuilds(conds, ps) || ConditionBuilds(c, ps)
  {
    ExistsAppend(conds, c, (d: Option<Condition>) => ConditionBuilds(d, ps));
  }

  lemma AdmitsAppend(conds: seq<Option<Condition>>, c: Option<Condition>, ps: Parsers, a: Asset, fold: char -> char)
    ensures AllAdmit(conds + [c], ps, a, fold) <==>
      AllAdmit(conds, ps, a, fold) && (ConditionBuilds(c, ps) ==> ConditionAdmits(c.value, ps, a, fold))
    ensures SomeAdmits(conds + [c], ps, a, fold) <==>
      SomeAdmits(conds, ps, a, fold) || (ConditionBuilds(c, ps) && ConditionAdmits(c.value, ps, a, fold))
  {
    AllAdmitAppend(conds, c, ps, a, fold);
    SomeAdmitsAppend(conds, c, ps, a, fold);
  }

  lemma AllAdmitAppend(conds: seq<Option<Condition>>, c: Option<Condition>, ps: Parsers, a: Asset, fold: char -> char)
    ensures AllAdmit(conds + [c], ps, a, fold) <==>
      AllAdmit(conds, ps, a, fold) && (ConditionBuilds(c, ps) ==> ConditionAdmits(c.value, ps, a, fold))
  {
    var all := (d: Option<Condition>) => ConditionBuilds(d, ps) ==> ConditionAdmits(d.value, ps, a, fold);
    ForallAppend(conds, c, all);
  }

  lemma SomeAdmitsAppend(conds: seq<Option<Condition>>, c: Option<Condition>, ps: Parsers, a: Asset, fold: char -> char)
    ensures SomeAdmits(conds + [c], ps, a, fold) <==>
      SomeAdmits(conds, ps, a, fold) || (ConditionBuilds(c, ps) && ConditionAdmits(c.value, ps, a, fold))
  {
    var some := (d: Option<Condition>) => ConditionBuilds(d, ps) && ConditionAdmits(d.value, ps, a, fold);
    ExistsAppend(conds, c, some);
  }

  lemma ForallAppend<T>(s: seq<T>, x: T, P: T -> bool)
    ensures (forall i | 0 <= i < |s + [x]| :: P((s + [x])[i])) <==> (forall i | 0 <= i < |s| :: P(s[i])) && P(x)
  {
    assert forall i | 0 <= i < |s| :: (s + [x])[i] == s[i];
    assert (s + [x])[|s|] == x;
  }

  lemma ExistsAppend<T>(s: seq<T>, x: T, P: T -> bool)
    ensures (exists i | 0 <= i < |s + [x]| :: P((s + [x])[i])) <==> (exists i | 0 <= i < |s| :: P(s[i])) || P(x)
  {
    assert forall i | 0 <= i < |s| :: (s + [x])[i] == s[i];
    assert (s + [x])[|s|] == x;
  }

  lemma AgreesStep(preds: seq<Lambda<Atom>>, conds: seq<Option<Condition>>, p: Option<Lambda<Atom>>,
                   c: Option<Condition>, ps: Parsers)
    requires AllClosed(preds) && Agrees(preds, conds, ps)
    requires p.Some? <==> ConditionBuilds(c, ps)
    requires p.Some? ==> Closed(p.value)
    requires p.Some? ==> forall a, fold :: Sat(p.value, a, fold) <==> ConditionAdmits(c.value, ps, a, fold)
    ensures p.Some? ==> AllClosed(preds + [p.value]) && Agrees(preds + [p.value], conds + [c], ps)
    ensures p.None? ==> Agrees(preds, conds + [c], ps)
  {
    if p.Some? {
      HoldsAppendClosed(preds, p.value);
      forall a, fold ensures
        (AllHold(preds + [p.value], a, HoldsFn(fold)) <==> AllAdmit(conds + [c], ps, a, fold)) &&
        (AnyHolds(preds + [p.value], a, HoldsFn(fold)) <==> SomeAdmits(conds + [c], ps, a, fold))
      {
        AdmitsAppend(conds, c, ps, a, fold);
        HoldsAppend(preds, p.value, a, HoldsFn(fold));
      }
    } else {
      forall a, fold ensures
        (AllHold(preds, a, HoldsFn(fold)) <==> AllAdmit(conds + [c], ps, a, fold)) &&
        (AnyHolds(preds, a, HoldsFn(fold)) <==> SomeAdmits(conds + [c], ps, a, fold))
      {
        AdmitsAppend(conds, c, ps, a, fold);
      }
    }
  }

  lemma HoldsAppendClosed<A>(fs: seq<Lambda<A>>, f: Lambda<A>)
    requires AllClosed(fs) && Closed(f)
    ensures AllClosed(fs + [f])
  {
    assert forall i | 0 <= i < |fs| :: (fs + [f])[i] == fs[i];
  }

  lemma HoldsAppend<A, T>(fs: seq<Lambda<A>>, f: Lambda<A>, x: T, holds: (A, T) -> bool)
    requires AllClosed(fs) && Closed(f)
    ensures AllClosed(fs + [f])
    ensures AllHold(fs + [f], x, holds) <==> AllHold(fs, x, holds) && Invoke(f, x, holds)
    ensures AnyHolds(fs + [f], x, holds) <==> AnyHolds(fs, x, holds) || Invoke(f, x, holds)
  {
    assert forall i | 0 <= i < |fs| :: (fs + [f])[i] == fs[i];
    assert (fs + [f])[|fs|] == f;
  }
}

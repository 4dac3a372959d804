/** The member tests the search compiler puts into its expression trees,
    and what the database makes of them. String comparisons (=, IN, LIKE)
    go through the column collation, given as a character fold. Every
    LIKE in the compiler is applied to a column already known not to be
    NULL (or sits under an OR whose other side holds for NULL), so SQL's
    three-valued logic agrees with the two-valued one used here. */
module SearchAtoms {
  import opened Wrappers
  import opened Base
  import opened Text
  import opened SqlLike
  import opened Assets
  import opened PredicateBuilder

  /** The string columns the compiler reads. */
  datatype Column = FileNameColumn | FileTypeColumn | UserMetadataColumn

  datatype Cmp = Gt | Lt | Ge | Le | Eq

  datatype Atom =
    | IsNotNull(col: Column)                    // member != null
    | IsNullOrEmpty(col: Column)                // string.IsNullOrEmpty(member)
    | StrEquals(col: Column, text: string)      // member == constant
    | LikeTest(col: Column, pattern: string)    // EF.Functions.Like(member, pattern, "\\")
    | LowerIn(col: Column, texts: seq<string>)  // list.Contains(member.ToLower())
    | SizeCmp(op: Cmp, bound: int)              // FileSize <op> constant
    | CreatedCmp(op: Cmp, at: Ticks)            // CreatedAt <op> constant
    | IdIn(ids: seq<Guid>)                      // ids.Contains(a.Id)
    | AnyTagIn(ids: seq<Guid>)                  // AssetTags.Any(t => ids.Contains(t.VisualTagId))
    | AnyTagIs(id: Guid)                        // AssetTags.Any(t => t.VisualTagId == id)

  function ColumnValue(a: Asset, col: Column): Option<string> {
    match col
    case FileNameColumn => Some(a.fileName)
    case FileTypeColumn => a.fileType
    case UserMetadataColumn => a.userMetadata
  }

  predicate Compare(x: int, op: Cmp, y: int) {
    match op
    case Gt => x > y
    case Lt => x < y
    case Ge => x >= y
    case Le => x <= y
    case Eq => x == y
  }

  predicate AtomHolds(atom: Atom, a: Asset, fold: char -> char) {
    match atom
    case IsNotNull(col) => ColumnValue(a, col).Some?
    case IsNullOrEmpty(col) => ColumnValue(a, col).None? || ColumnValue(a, col).value == ""
    case StrEquals(col, v) => ColumnValue(a, col).Some? && Fold(ColumnValue(a, col).value, fold) == Fold(v, fold)
    case LikeTest(col, p) => ColumnValue(a, col).Some? && Like(ColumnValue(a, col).value, p, fold)
    case LowerIn(col, vs) =>
      ColumnValue(a, col).Some? &&
      exists i | 0 <= i < |vs| :: Fold(Lower(ColumnValue(a, col).value), fold) == Fold(vs[i], fold)
    case SizeCmp(op, b) => Compare(a.fileSize, op, b)
    case CreatedCmp(op, t) => Compare(a.createdAt, op, t)
    case IdIn(ids) => a.id in ids
    case AnyTagIn(ids) => exists i | 0 <= i < |a.tagIds| :: a.tagIds[i] in ids
    case AnyTagIs(id) => id in a.tagIds
  }

  function HoldsFn(fold: char -> char): (Atom, Asset) -> bool {
    (x: Atom, a: Asset) => AtomHolds(x, a, fold)
  }

  /** The database's verdict on a compiled predicate for one row. */
  predicate Sat(f: Lambda<Atom>, a: Asset, fold: char -> char)
    requires Closed(f)
  {
    Invoke(f, a, HoldsFn(fold))
  }

  /** `asset => <one test>`. */
  function Single(x: Atom): (f: Lambda<Atom>)
    ensures Closed(f)
  {
    Lambda(0, Test(x, 0))
  }

  /** `asset => <test> && <test>`. */
  function Both(x: Atom, y: Atom): (f: Lambda<Atom>)
    ensures Closed(f)
  {
    assert Vars(AndAlso(Test(x, 0), Test(y, 0))) == {0} + {0};
    Lambda(0, AndAlso(Test(x, 0), Test(y, 0)))
  }

  lemma SingleSat(x: Atom, a: Asset, fold: char -> char)
    ensures Sat(Single(x), a, fold) <==> AtomHolds(x, a, fold)
  {
  }

  lemma BothSat(x: Atom, y: Atom, a: Asset, fold: char -> char)
    ensures Sat(Both(x, y), a, fold) <==> AtomHolds(x, a, fold) && AtomHolds(y, a, fold)
  {
    assert Sat(Both(x, y), a, fold) == (Eval(Test(x, 0), map[0 := a], HoldsFn(fold)) && Eval(Test(y, 0), map[0 := a], HoldsFn(fold)));
  }
}

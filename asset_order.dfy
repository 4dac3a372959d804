/** ORDER BY for asset queries: the choice of sort column made by
    ApplySorting, the keys the database compares, and an insertion sort
    standing for the database's ORDER BY. Only the order of the keys is
    promised; rows with equal keys may come in any order. */
module AssetOrder {
  import opened Wrappers
  import opened Base
  import opened Text
  import opened SqlLike
  import opened Assets

  /** The column an asset query is ordered by. */
  datatype SortField = ByMetadata(key: string) | ByName | BySize | ByType | ByDeletedAt | ByCreatedAt

  datatype SortOrder = SortOrder(field: SortField, ascending: bool)

  /** The JSON path handed to JsonExtract for a metadata sort. */
  function MetadataPath(key: string): string {
    "$.\"" + key + "\""
  }

  /** The prefix that selects a metadata sort, compared ignoring case. */
  const MetadataPrefix: string := "metadata."

  /** ApplySorting: `Metadata.<key>` (any case, key trimmed and non-empty)
      orders by that metadata entry; name, size, type and deletedat (any
      case) pick their column; anything else, and a missing value, orders
      by CreatedAt. The order is ascending exactly for "asc" in any case
      and padding; otherwise, and when missing, descending. */
  function ApplySorting(sortBy: string, sortDir: string): (o: SortOrder)
    ensures o.ascending <==> Lower(Trim(sortDir)) == "asc"
    ensures o.field.ByMetadata? <==>
      |Trim(sortBy)| >= 9 && Lower(Trim(sortBy)[..9]) == MetadataPrefix && Trim(Trim(sortBy)[9..]) != ""
    ensures o.field.ByMetadata? ==> o.field.key != "" && Trim(o.field.key) == o.field.key
    ensures !o.field.ByMetadata? ==> o.field == NamedSort(Lower(Trim(sortBy)))
  {
    var sortField := Trim(sortBy);
    var asc := Lower(Trim(sortDir)) == "asc";
    if |sortField| >= 9 && Lower(sortField[..9]) == MetadataPrefix && Trim(sortField[9..]) != "" then
      TrimIdempotent(sortField[9..]);
      SortOrder(ByMetadata(Trim(sortField[9..])), asc)
    else
      SortOrder(NamedSort(Lower(sortField)), asc)
  }

  /** The switch on the lower-cased sort name. */
  function NamedSort(name: string): (f: SortField)
    ensures !f.ByMetadata?
  {
    if name == "name" then ByName
    else if name == "size" then BySize
    else if name == "type" then ByType
    else if name == "deletedat" then ByDeletedAt
    else ByCreatedAt
  }

  /** The direction depends on the sort direction text only up to case and padding. */
  lemma DirectionIgnoresCase(sortBy: string, d1: string, d2: string)
    requires Lower(Trim(d1)) == Lower(Trim(d2))
    ensures ApplySorting(sortBy, d1).ascending == ApplySorting(sortBy, d2).ascending
  {
  }

  // ------------------------------------------------------------ keys

  /** The value compared for one row: a nullable text or a nullable number. */
  datatype SortKey = TextKey(text: Option<string>) | NumberKey(number: Option<int>)

  /** What the database supplies to an ORDER BY: the collation's character
      fold, and JsonExtract(UserMetadata, path). */
  datatype Db = Db(fold: char -> char, jsonExtract: (Option<string>, string) -> Option<string>)

  function Key(a: Asset, f: SortField, db: Db): SortKey {
    match f
    case ByMetadata(k) => TextKey(db.jsonExtract(a.userMetadata, MetadataPath(k)))
    case ByName => TextKey(Some(a.fileName))
    case ByType => TextKey(a.fileType)
    case BySize => NumberKey(Some(a.fileSize))
    case ByDeletedAt => NumberKey(a.deletedAt)
    case ByCreatedAt => NumberKey(Some(a.createdAt))
  }

  /** Lexicographic order on character sequences. */
  predicate LexLe(s: seq<char>, t: seq<char>)
    decreases |s|
  {
    |s| == 0 || (|t| > 0 && (s[0] < t[0] || (s[0] == t[0] && LexLe(s[1..], t[1..]))))
  }

  lemma {:induction false} LexLeTotal(s: seq<char>, t: seq<char>)
    ensures LexLe(s, t) || LexLe(t, s)
    decreases |s|
  {
    if |s| > 0 && |t| > 0 && s[0] == t[0] {
      LexLeTotal(s[1..], t[1..]);
    }
  }

  lemma {:induction false} LexLeTrans(s: seq<char>, t: seq<char>, u: seq<char>)
    requires LexLe(s, t) && LexLe(t, u)
    ensures LexLe(s, u)
    decreases |s|
  {
    if |s| > 0 && s[0] == t[0] && t[0] == u[0] {
      LexLeTrans(s[1..], t[1..], u[1..]);
    }
  }

  /** Ascending key order: NULL sorts first, texts compare by their folded
      characters, numbers numerically. */
  predicate KeyLe(x: SortKey, y: SortKey, fold: char -> char) {
    match (x, y)
    case (TextKey(None), TextKey(_)) => true
    case (TextKey(Some(_)), TextKey(None)) => false
    case (TextKey(Some(s)), TextKey(Some(t))) => LexLe(Fold(s, fold), Fold(t, fold))
    case (NumberKey(None), NumberKey(_)) => true
    case (NumberKey(Some(_)), NumberKey(None)) => false
    case (NumberKey(Some(m)), NumberKey(Some(n))) => m <= n
    case (TextKey(_), NumberKey(_)) => true
    case (NumberKey(_), TextKey(_)) => false
  }

  lemma KeyLeTotal(x: SortKey, y: SortKey, fold: char -> char)
    ensures KeyLe(x, y, fold) || KeyLe(y, x, fold)
  {
    if x.TextKey? && y.TextKey? && x.text.Some? && y.text.Some? {
      LexLeTotal(Fold(x.text.value, fold), Fold(y.text.value, fold));
    }
  }

  lemma KeyLeTrans(x: SortKey, y: SortKey, z: SortKey, fold: char -> char)
    requires KeyLe(x, y, fold) && KeyLe(y, z, fold)
    ensures KeyLe(x, z, fold)
  {
    if x.TextKey? && y.TextKey? && z.TextKey? && x.text.Some? && y.text.Some? && z.text.Some? {
      LexLeTrans(Fold(x.text.value, fold), Fold(y.text.value, fold), Fold(z.text.value, fold));
    }
  }

  /** `x` may come before `y` in the order `o`. */
  predicate Before(x: Asset, y: Asset, o: SortOrder, db: Db) {
    if o.ascending then KeyLe(Key(x, o.field, db), Key(y, o.field, db), db.fold)
    else KeyLe(Key(y, o.field, db), Key(x, o.field, db), db.fold)
  }

  lemma BeforeTotal(x: Asset, y: Asset, o: SortOrder, db: Db)
    ensures Before(x, y, o, db) || Before(y, x, o, db)
  {
    KeyLeTotal(Key(x, o.field, db), Key(y, o.field, db), db.fold);
  }

  lemma BeforeTrans(x: Asset, y: Asset, z: Asset, o: SortOrder, db: Db)
    requires Before(x, y, o, db) && Before(y, z, o, db)
    ensures Before(x, z, o, db)
  {
    if o.ascending {
      KeyLeTrans(Key(x, o.field, db), Key(y, o.field, db), Key(z, o.field, db), db.fold);
    } else {
      KeyLeTrans(Key(z, o.field, db), Key(y, o.field, db), Key(x, o.field, db), db.fold);
    }
  }

  predicate Sorted(s: seq<Asset>, o: SortOrder, db: Db) {
    forall i, j | 0 <= i < j < |s| :: Before(s[i], s[j], o, db)
  }

  // ------------------------------------------------------------ sort

  /** Inserts `x` after every leading element that may precede it. */
  function Insert(x: Asset, s: seq<Asset>, o: SortOrder, db: Db): (r: seq<Asset>)
    ensures multiset(r) == multiset(s) + multiset{x}
    ensures Sorted(s, o, db) ==> Sorted(r, o, db)
    decreases |s|
  {
    if |s| == 0 then [x]
    else if !Before(s[0], x, o, db) then
      BeforeTotal(s[0], x, o, db);
      InsertFront(x, s, o, db);
      [x] + s
    else
      var rest := Insert(x, s[1..], o, db);
      assert s == [s[0]] + s[1..];
      InsertBehind(s[0], rest, s[1..], x, o, db);
      [s[0]] + rest
  }

  lemma InsertFront(x: Asset, s: seq<Asset>, o: SortOrder, db: Db)
    requires |s| > 0 && Before(x, s[0], o, db)
    ensures Sorted(s, o, db) ==> Sorted([x] + s, o, db)
  {
    if Sorted(s, o, db) {
      forall i, j | 0 <= i < j < |[x] + s| ensures Before(([x] + s)[i], ([x] + s)[j], o, db) {
        if i == 0 && j > 1 {
          BeforeTrans(x, s[0], s[j - 1], o, db);
        }
      }
    }
  }

  lemma InsertBehind(y: Asset, rest: seq<Asset>, s: seq<Asset>, x: Asset, o: SortOrder, db: Db)
    requires Before(y, x, o, db)
    requires multiset(rest) == multiset(s) + multiset{x}
    requires Sorted([y] + s, o, db) ==> Sorted(s, o, db)
    requires Sorted(s, o, db) ==> Sorted(rest, o, db)
    ensures Sorted([y] + s, o, db) ==> Sorted([y] + rest, o, db)
  {
    if Sorted([y] + s, o, db) {
      forall j | 0 <= j < |rest| ensures Before(y, rest[j], o, db) {
        assert rest[j] in multiset(rest);
        if rest[j] != x {
          assert rest[j] in multiset(s);
          var k :| 0 <= k < |s| && s[k] == rest[j];
          assert ([y] + s)[0] == y && ([y] + s)[k + 1] == s[k];
          assert Before(([y] + s)[0], ([y] + s)[k + 1], o, db);
        }
      }
      forall i, j | 0 <= i < j < |[y] + rest| ensures Before(([y] + rest)[i], ([y] + rest)[j], o, db) {
        if i == 0 {
          assert ([y] + rest)[j] == rest[j - 1];
        } else {
          assert ([y] + rest)[i] == rest[i - 1] && ([y] + rest)[j] == rest[j - 1];
        }
      }
    }
  }

  /** OrderBy / OrderByDescending: a permutation of `s` sorted by `o`.
      Rows with equal keys may come in any order. */
  function SortAssets(s: seq<Asset>, o: SortOrder, db: Db): (r: seq<Asset>)
    ensures multiset(r) == multiset(s)
    ensures |r| == |s|
    ensures Sorted(r, o, db)
    decreases |s|
  {
    if |s| == 0 then []
    else
      assert s == s[..|s| - 1] + [s[|s| - 1]];
      var r := Insert(s[|s| - 1], SortAssets(s[..|s| - 1], o, db), o, db);
      assert |r| == |multiset(r)|;
      r
  }
}

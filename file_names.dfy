/** File-name helpers of the asset service: the parts of a path as .NET's
    Path class splits them, and GetUniqueFileName for uploads. */
module FileNames {
  import opened Text

  // ------------------------------------------------------------ Path

  /** Index of the last `c` in `s`, or -1. */
  function LastIndexOfChar(s: string, c: char): (r: int)
    ensures -1 <= r < |s|
    ensures r >= 0 ==> s[r] == c
    decreases |s|
  {
    if |s| == 0 then -1
    else if s[|s| - 1] == c then |s| - 1
    else
      var r := LastIndexOfChar(s[..|s| - 1], c);
      assert s == s[..|s| - 1] + [s[|s| - 1]];
      r
  }

  /** The last `c` of `s + [c] + t` is the one before `t` when `t` has none. */
  lemma {:induction false} LastIndexBefore(s: string, c: char, t: string)
    requires c !in t
    ensures LastIndexOfChar(s + [c] + t, c) == |s|
    decreases |t|
  {
    var u := s + [c] + t;
    if |t| > 0 {
      var t' := t[..|t| - 1];
      assert u[..|u| - 1] == s + [c] + t';
      assert u[|u| - 1] == t[|t| - 1];
      LastIndexBefore(s, c, t');
    }
  }

  /** Path.GetFileName: the text after the last directory separator. */
  function FileNameOf(path: string): string
  {
    path[LastIndexOfChar(path, '/') + 1..]
  }

  /** Path.GetExtension: from the last '.' of the file name on, or "" when
      there is none or it is the last character. */
  function GetExtension(path: string): string
  {
    var f := FileNameOf(path);
    var d := LastIndexOfChar(f, '.');
    if d < 0 || d == |f| - 1 then "" else f[d..]
  }

  /** Path.GetFileNameWithoutExtension: the file name up to its last '.'. */
  function FileNameWithoutExtension(path: string): string
  {
    var f := FileNameOf(path);
    var d := LastIndexOfChar(f, '.');
    if d < 0 then f else f[..d]
  }

  /** A file name without directory, whose extension is not just a '.',
      is its stem followed by its extension. */
  lemma StemAndExtension(name: string)
    requires '/' !in name
    requires |name| == 0 || name[|name| - 1] != '.'
    ensures FileNameWithoutExtension(name) + GetExtension(name) == name
  {
    assert LastIndexOfChar(name, '/') == -1;
    assert FileNameOf(name) == name;
  }

  // ------------------------------------------------------------ numbered names

  /** The stem, `open`, the number, `close`, then the extension:
      "name (n).ext" for uploads and "name_n.ext" inside a ZIP. */
  function Numbered(name: string, open: string, n: nat, close: string): string {
    FileNameWithoutExtension(name) + open + DecimalString(n) + close + GetExtension(name)
  }

  lemma LowerAppend(a: string, b: string)
    ensures Lower(a + b) == Lower(a) + Lower(b)
  {
  }

  lemma LowerNumbered(name: string, open: string, n: nat, close: string)
    ensures Lower(Numbered(name, open, n, close)) ==
      (Lower(FileNameWithoutExtension(name)) + Lower(open)) + DecimalString(n) + (Lower(close) + Lower(GetExtension(name)))
  {
    var stem, ext, d := FileNameWithoutExtension(name), GetExtension(name), DecimalString(n);
    LowerNoUpper(d);
    LowerAppend(stem + open + d + close, ext);
    LowerAppend(stem + open + d, close);
    LowerAppend(stem + open, d);
    LowerAppend(stem, open);
  }

  /** Different numbers give different names, whatever the case. */
  lemma NumberedInjective(name: string, open: string, m: nat, n: nat, close: string)
    requires Lower(Numbered(name, open, m, close)) == Lower(Numbered(name, open, n, close))
    ensures m == n
  {
    LowerNumbered(name, open, m, close);
    LowerNumbered(name, open, n, close);
    var p := Lower(FileNameWithoutExtension(name)) + Lower(open);
    var q := Lower(close) + Lower(GetExtension(name));
    var dm, dn := DecimalString(m), DecimalString(n);
    assert |dm| == |dn|;
    assert (p + dm + q)[|p|..|p| + |dm|] == dm;
    assert (p + dn + q)[|p|..|p| + |dn|] == dn;
    DecimalStringInjective(m, n);
  }

  /** If the numbers lo .. lo+count-1 all give names already taken, there
      are at least `count` taken names. */
  lemma {:induction false} NumberedBound(name: string, open: string, close: string, lo: nat, count: nat, taken: set<string>)
    requires forall k | lo <= k < lo + count :: Lower(Numbered(name, open, k, close)) in taken
    ensures count <= |taken|
    decreases count
  {
    if count > 0 {
      var last := Lower(Numbered(name, open, lo + count - 1, close));
      var rest := taken - {last};
      forall k | lo <= k < lo + count - 1 ensures Lower(Numbered(name, open, k, close)) in rest {
        if Lower(Numbered(name, open, k, close)) == last {
          NumberedInjective(name, open, k, lo + count - 1, close);
        }
      }
      NumberedBound(name, open, close, lo, count - 1, rest);
    }
  }

  // ------------------------------------------------------------ uploads

  /** "name (n).ext". */
  function Candidate(fileName: string, n: nat): string {
    Numbered(fileName, " (", n, ")")
  }

  /** Every candidate "name (k).ext" with 1 <= k <= tried is taken. */
  ghost predicate AllTried(fileName: string, existing: seq<string>, tried: nat) {
    forall k | 1 <= k <= tried :: Lower(Candidate(fileName, k)) in existing
  }

  lemma CandidatesBound(fileName: string, existing: seq<string>, tried: nat)
    requires AllTried(fileName, existing, tried)
    ensures tried <= |set x | x in existing|
  {
    var taken := set x | x in existing;
    forall k | 1 <= k < 1 + tried ensures Lower(Numbered(fileName, " (", k, ")")) in taken {
      assert Lower(Candidate(fileName, k)) in existing;
    }
    NumberedBound(fileName, " (", ")", 1, tried, taken);
  }

  lemma TriedStep(fileName: string, existing: seq<string>, tried: nat)
    requires AllTried(fileName, existing, tried)
    requires Lower(Candidate(fileName, tried + 1)) in existing
    ensures AllTried(fileName, existing, tried + 1)
  {
  }

  /** GetUniqueFileName: the file name itself when its lower-case form is not
      taken, otherwise "name (n).ext" for the smallest n >= 1 whose lower-case
      form is not taken. `existing` holds lower-case names. */
  method GetUniqueFileName(fileName: string, existing: seq<string>) returns (unique: string)
    ensures Lower(unique) !in existing
    ensures Lower(fileName) !in existing ==> unique == fileName
    ensures Lower(fileName) in existing ==>
      exists n :: n >= 1 && unique == Candidate(fileName, n) && AllTried(fileName, existing, n - 1)
  {
    unique := fileName;
    var counter: nat := 1;
    while Lower(unique) in existing
      invariant counter >= 1 && Searching(fileName, existing, counter, unique)
      decreases |set x | x in existing| + 1 - counter
    {
      SearchStep(fileName, existing, counter, unique);
      unique := Candidate(fileName, counter);
      counter := counter + 1;
    }
    SearchDone(fileName, existing, counter, unique);
  }

  /** The loop invariant of GetUniqueFileName before trying `counter`:
      `unique` is the name tried last, and every earlier candidate is taken. */
  ghost predicate Searching(fileName: string, existing: seq<string>, counter: nat, unique: string) {
    counter >= 1 &&
    (counter == 1 ==> unique == fileName) &&
    (counter > 1 ==> unique == Candidate(fileName, counter - 1) && Lower(fileName) in existing) &&
    AllTried(fileName, existing, if counter > 1 then counter - 2 else 0)
  }

  lemma SearchStep(fileName: string, existing: seq<string>, counter: nat, unique: string)
    requires Searching(fileName, existing, counter, unique) && Lower(unique) in existing
    ensures Searching(fileName, existing, counter + 1, Candidate(fileName, counter))
    ensures counter - 1 <= |set x | x in existing|
  {
    if counter > 1 {
      TriedStep(fileName, existing, counter - 2);
    } else {
      assert AllTried(fileName, existing, 0);
    }
    CandidatesBound(fileName, existing, counter - 1);
  }

  lemma SearchDone(fileName: string, existing: seq<string>, counter: nat, unique: string)
    requires Searching(fileName, existing, counter, unique) && Lower(unique) !in existing
    ensures Lower(fileName) !in existing ==> unique == fileName
    ensures Lower(fileName) in existing ==>
      exists n :: n >= 1 && unique == Candidate(fileName, n) && AllTried(fileName, existing, n - 1)
  {
    if counter > 1 {
      var n := counter - 1;
      assert n >= 1 && unique == Candidate(fileName, n) && AllTried(fileName, existing, n - 1);
    }
  }
}

/** The SQL LIKE predicate used by the search compiler (ISO/IEC 9075-2,
    subclause 8.5 <like predicate>), with `%` matching any run of characters,
    `_` matching one character and the backslash as ESCAPE character, as in
    the MySQL dialect the repository targets. Character comparison goes
    through the column collation, abstracted as a character fold: two
    characters are equal when their folds are equal. */
module SqlLike {
  import opened Text

  /** The escape character passed to every LIKE call of the compiler. */
  const EscapeChar: char := '\\'

  /** A binary collation: characters compare by code point. */
  function Ordinal(c: char): char { c }

  /** The collation's view of a string. */
  function Fold(s: string, fold: char -> char): (r: string)
    ensures |r| == |s|
  {
    seq(|s|, i requires 0 <= i < |s| => fold(s[i]))
  }

  /** `s LIKE p ESCAPE '\'`. An escape followed by any character stands for
      that character; a trailing escape stands for itself (MySQL). */
  function Like(s: string, p: string, fold: char -> char): bool
    decreases |s| + |p|
  {
    if |p| == 0 then |s| == 0
    else if p[0] == '%' then Like(s, p[1..], fold) || (|s| > 0 && Like(s[1..], p, fold))
    else if p[0] == '_' then |s| > 0 && Like(s[1..], p[1..], fold)
    else if p[0] == EscapeChar && |p| >= 2 then
      |s| > 0 && fold(s[0]) == fold(p[1]) && Like(s[1..], p[2..], fold)
    else |s| > 0 && fold(s[0]) == fold(p[0]) && Like(s[1..], p[1..], fold)
  }

  predicate IsLikeSpecial(c: char) {
    c == '%' || c == '_' || c == EscapeChar
  }

  /** Text in which LIKE sees no wildcard and no escape. */
  predicate Plain(s: string) {
    forall i :: 0 <= i < |s| ==> !IsLikeSpecial(s[i])
  }

  /** AssetService.EscapeLike: three successive Replace calls, backslash first. */
  function EscapeLike(input: string): string {
    if input == "" then ""
    else Replace(Replace(Replace(input, "\\", "\\\\"), "%", "\\%"), "_", "\\_")
  }

  /** The per-character meaning of EscapeLike: every special character gets an escape in front. */
  function EscapeEach(v: string): (r: string)
    decreases |v|
  {
    if |v| == 0 then ""
    else (if IsLikeSpecial(v[0]) then [EscapeChar, v[0]] else [v[0]]) + EscapeEach(v[1..])
  }

  function Step1(s: string): string { ReplaceChar(s, '\\', "\\\\") }
  function Step2(s: string): string { ReplaceChar(s, '%', "\\%") }
  function Step3(s: string): string { ReplaceChar(s, '_', "\\_") }

  lemma {:induction false} StepsAreEscapeEach(v: string)
    ensures Step3(Step2(Step1(v))) == EscapeEach(v)
    decreases |v|
  {
    if |v| > 0 {
      var c := v[0];
      assert v == [c] + v[1..];
      ReplaceCharAppend([c], v[1..], '\\', "\\\\");
      var a, b := Step1([c]), Step1(v[1..]);
      ReplaceCharAppend(a, b, '%', "\\%");
      ReplaceCharAppend(Step2(a), Step2(b), '_', "\\_");
      StepsAreEscapeEach(v[1..]);
      StepsOnOne(c);
    }
  }

  /** The three steps on one character escape it exactly when it is special. */
  lemma StepsOnOne(c: char)
    ensures Step3(Step2(Step1([c]))) == (if IsLikeSpecial(c) then [EscapeChar, c] else [c])
  {
    ReplaceCharOne(c, '\\', "\\\\");
    var a := Step1([c]);
    if c == '\\' {
      assert a == ['\\', '\\'];
      ReplaceCharTwo('\\', '\\', '%', "\\%");
      ReplaceCharTwo('\\', '\\', '_', "\\_");
    } else {
      assert a == [c];
      ReplaceCharOne(c, '%', "\\%");
      var b := Step2(a);
      if c == '%' {
        assert b == ['\\', '%'];
        ReplaceCharTwo('\\', '%', '_', "\\_");
      } else {
        assert b == [c];
        ReplaceCharOne(c, '_', "\\_");
      }
    }
  }

  lemma ReplaceCharOne(x: char, c: char, rep: string)
    ensures ReplaceChar([x], c, rep) == if x == c then rep else [x]
  {
    assert [x][1..] == "";
  }

  lemma ReplaceCharTwo(x: char, y: char, c: char, rep: string)
    requires x != c && y != c
    ensures ReplaceChar([x, y], c, rep) == [x, y]
  {
    assert [x, y][1..] == [y];
    ReplaceCharOne(y, c, rep);
  }

  /** Replacing backslash first is what makes the three Replace calls one escape per character. */
  lemma EscapeLikeIsEscapeEach(v: string)
    ensures EscapeLike(v) == EscapeEach(v)
  {
    if v != "" {
      ReplaceOneChar(v, '\\', "\\\\");
      ReplaceOneChar(Step1(v), '%', "\\%");
      ReplaceOneChar(Step2(Step1(v)), '_', "\\_");
      StepsAreEscapeEach(v);
    }
  }

  lemma {:induction false} EscapeEachAppend(a: string, b: string)
    ensures EscapeEach(a + b) == EscapeEach(a) + EscapeEach(b)
    decreases |a|
  {
    if |a| == 0 {
      assert a + b == b;
    } else {
      assert (a + b)[1..] == a[1..] + b;
      EscapeEachAppend(a[1..], b);
    }
  }

  /** Plain text needs no escaping. */
  lemma {:induction false} EscapeEachPlain(v: string)
    requires Plain(v)
    ensures EscapeEach(v) == v
    decreases |v|
  {
    if |v| > 0 {
      EscapeEachPlain(v[1..]);
    }
  }

  /** A pattern that starts with escaped text matches exactly the strings
      starting with that text (under the collation). */
  lemma {:induction false} LikeEscapedPrefix(s: string, v: string, q: string, fold: char -> char)
    ensures Like(s, EscapeEach(v) + q, fold)
        <==> |v| <= |s| && Fold(s[..|v|], fold) == Fold(v, fold) && Like(s[|v|..], q, fold)
    decreases |v|
  {
    if |v| == 0 {
      assert EscapeEach(v) + q == q;
      assert s[..0] == [] && s[0..] == s;
    } else {
      LikeEscapedHead(s, v, q, fold);
      if |s| > 0 {
        LikeEscapedPrefix(s[1..], v[1..], q, fold);
        if |v| <= |s| {
          assert s[1..][..|v| - 1] == s[1..|v|];
          assert s[1..][|v| - 1..] == s[|v|..];
          FoldHead(s[..|v|], v, fold);
          assert s[..|v|][1..] == s[1..|v|];
        }
      }
    }
  }

  /** The first escaped character of the pattern matches the first character of the text. */
  lemma LikeEscapedHead(s: string, v: string, q: string, fold: char -> char)
    requires |v| > 0
    ensures Like(s, EscapeEach(v) + q, fold)
        <==> |s| > 0 && fold(s[0]) == fold(v[0]) && Like(s[1..], EscapeEach(v[1..]) + q, fold)
  {
    var c := v[0];
    var rest := EscapeEach(v[1..]) + q;
    if IsLikeSpecial(c) {
      assert EscapeEach(v) + q == [EscapeChar, c] + rest;
      assert ([EscapeChar, c] + rest)[2..] == rest;
    } else {
      assert EscapeEach(v) + q == [c] + rest;
      assert ([c] + rest)[1..] == rest;
    }
  }

  /** Two non-empty strings of one length fold alike exactly when their
      heads and their tails do. */
  lemma FoldHead(x: string, y: string, fold: char -> char)
    requires |x| == |y| > 0
    ensures Fold(x, fold) == Fold(y, fold) <==>
      fold(x[0]) == fold(y[0]) && Fold(x[1..], fold) == Fold(y[1..], fold)
  {
    var fx, fy := Fold(x, fold), Fold(y, fold);
    assert fx == [fold(x[0])] + Fold(x[1..], fold);
    assert fy == [fold(y[0])] + Fold(y[1..], fold);
    if fx == fy {
      assert fx[0] == fy[0];
      assert fx[1..] == fy[1..];
    }
  }

  /** A leading `%` lets the rest of the pattern match any suffix. */
  lemma {:induction false} LikePercent(s: string, q: string, fold: char -> char)
    ensures Like(s, ['%'] + q, fold) <==> exists i | 0 <= i <= |s| :: Like(s[i..], q, fold)
    decreases |s|
  {
    var p := ['%'] + q;
    assert p[1..] == q;
    assert s[0..] == s;
    if |s| > 0 {
      LikePercent(s[1..], q, fold);
      forall i | 1 <= i <= |s| ensures s[1..][i - 1..] == s[i..] { }
    }
  }

  lemma {:induction false} LikeAnything(s: string, fold: char -> char)
    ensures Like(s, "%", fold)
    decreases |s|
  {
    if |s| > 0 {
      LikeAnything(s[1..], fold);
    }
  }

  lemma LikeEmpty(s: string, fold: char -> char)
    ensures Like(s, "", fold) <==> s == ""
  {
  }

  /** s holds `v` at `i` under the collation. */
  predicate FoldAt(s: string, v: string, i: int, fold: char -> char) {
    0 <= i && i + |v| <= |s| && Fold(s[i..i + |v|], fold) == Fold(v, fold)
  }

  /** `v` occurs somewhere in `s` under the collation. */
  predicate FoldContains(s: string, v: string, fold: char -> char) {
    exists i | 0 <= i <= |s| :: FoldAt(s, v, i, fold)
  }

  predicate FoldStartsWith(s: string, v: string, fold: char -> char) {
    FoldAt(s, v, 0, fold)
  }

  predicate FoldEndsWith(s: string, v: string, fold: char -> char) {
    FoldAt(s, v, |s| - |v|, fold)
  }

  /** `"%" + EscapeLike(v) + "%"` matches exactly the strings containing v. */
  lemma LikeContains(s: string, v: string, fold: char -> char)
    ensures Like(s, "%" + EscapeLike(v) + "%", fold) <==> FoldContains(s, v, fold)
  {
    EscapeLikeIsEscapeEach(v);
    var e := EscapeEach(v);
    assert "%" + e + "%" == ['%'] + (e + "%");
    LikePercent(s, e + "%", fold);
    forall i | 0 <= i <= |s|
      ensures Like(s[i..], e + "%", fold) <==> FoldAt(s, v, i, fold)
    {
      LikeEscapedPrefix(s[i..], v, "%", fold);
      if |v| <= |s[i..]| {
        LikeAnything(s[i..][|v|..], fold);
        assert s[i..][..|v|] == s[i..i + |v|];
      }
    }
  }

  /** `EscapeLike(v) + "%"` matches exactly the strings starting with v. */
  lemma LikeStartsWith(s: string, v: string, fold: char -> char)
    ensures Like(s, EscapeLike(v) + "%", fold) <==> FoldStartsWith(s, v, fold)
  {
    EscapeLikeIsEscapeEach(v);
    LikeEscapedPrefix(s, v, "%", fold);
    if |v| <= |s| {
      LikeAnything(s[|v|..], fold);
      assert s[..|v|] == s[0..0 + |v|];
    }
  }

  /** `"%" + EscapeLike(v)` matches exactly the strings ending with v. */
  lemma LikeEndsWith(s: string, v: string, fold: char -> char)
    ensures Like(s, "%" + EscapeLike(v), fold) <==> FoldEndsWith(s, v, fold)
  {
    EscapeLikeIsEscapeEach(v);
    var e := EscapeEach(v);
    assert "%" + e == ['%'] + (e + "");
    assert e + "" == e;
    LikePercent(s, e, fold);
    forall i | 0 <= i <= |s|
      ensures Like(s[i..], e, fold) <==> (i == |s| - |v| && FoldAt(s, v, i, fold))
    {
      LikeEscapedPrefix(s[i..], v, "", fold);
      if |v| <= |s[i..]| {
        assert s[i..][..|v|] == s[i..i + |v|];
      }
    }
  }

  /** The given pieces occur in `s` in order, without overlapping. */
  predicate InOrder(s: string, pieces: seq<string>, fold: char -> char)
    decreases |pieces|, 1
  {
    if |pieces| == 0 then true
    else exists i | 0 <= i <= |s| :: InOrderFrom(s, pieces, i, fold)
  }

  /** The first piece occurs at `i` and the others follow it in order. */
  predicate InOrderFrom(s: string, pieces: seq<string>, i: int, fold: char -> char)
    requires |pieces| > 0
    decreases |pieces|, 0
  {
    FoldAt(s, pieces[0], i, fold) && InOrder(s[i + |pieces[0]|..], pieces[1..], fold)
  }

  /** The pattern `%p1%p2%...%` with every piece escaped. */
  function Pieces(pieces: seq<string>): string
    decreases |pieces|
  {
    if |pieces| == 0 then "%"
    else "%" + EscapeEach(pieces[0]) + Pieces(pieces[1..])
  }

  /** `%p1%...%pn%` matches exactly the strings holding p1, ..., pn in this order. */
  lemma {:induction false} LikePieces(s: string, pieces: seq<string>, fold: char -> char)
    ensures Like(s, Pieces(pieces), fold) <==> InOrder(s, pieces, fold)
    decreases |pieces|, 1
  {
    if |pieces| == 0 {
      LikeAnything(s, fold);
    } else {
      var rest := EscapeEach(pieces[0]) + Pieces(pieces[1..]);
      assert Pieces(pieces) == ['%'] + rest;
      LikePercent(s, rest, fold);
      forall i | 0 <= i <= |s|
        ensures Like(s[i..], rest, fold) <==> InOrderFrom(s, pieces, i, fold)
      {
        PiecesStep(s, pieces, i, fold);
      }
    }
  }

  lemma {:induction false} PiecesStep(s: string, pieces: seq<string>, i: int, fold: char -> char)
    requires |pieces| > 0 && 0 <= i <= |s|
    ensures Like(s[i..], EscapeEach(pieces[0]) + Pieces(pieces[1..]), fold) <==> InOrderFrom(s, pieces, i, fold)
    decreases |pieces|, 0
  {
    var v := pieces[0];
    var t := s[i..];
    LikeEscapedPrefix(t, v, Pieces(pieces[1..]), fold);
    if |v| <= |t| {
      assert t[..|v|] == s[i..i + |v|];
      assert t[|v|..] == s[i + |v|..];
      LikePieces(s[i + |v|..], pieces[1..], fold);
    }
  }

  /** One piece in order is containment. */
  lemma InOrderOne(s: string, v: string, fold: char -> char)
    ensures InOrder(s, [v], fold) <==> FoldContains(s, v, fold)
  {
    assert [v][0] == v && [v][1..] == [];
    forall i | 0 <= i <= |s| ensures InOrderFrom(s, [v], i, fold) <==> FoldAt(s, v, i, fold) {
      if FoldAt(s, v, i, fold) {
        assert InOrder(s[i + |v|..], [], fold);
      }
    }
  }
}

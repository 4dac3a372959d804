/** GenerateTempPassword, as written in both RegisterService and
    UserManagementService: one lower-case letter, one upper-case letter, one
    digit and one special character, the rest drawn from their union, and
    the whole shuffled. The random draws are parameters. */
module TempPasswords {
  import opened Shuffles

  const LowerLetters: string := "abcdefghijklmnopqrstuvwxyz"
  const UpperLetters: string := "ABCDEFGHIJKLMNOPQRSTUVWXYZ"
  const Digits: string := "0123456789"
  const Specials: string := "!@#$%^&*"
  const AllChars: string := LowerLetters + UpperLetters + Digits + Specials

  /** A length below 4 is raised to 8 (RegisterService); UserManagementService
      always asks for 12. */
  function EffectiveLength(length: int): (n: nat)
    ensures n >= 4
    ensures length >= 4 ==> n == length
  {
    if length < 4 then 8 else length
  }

  /** The values `random.Next(...)` returns during one call, in call order:
      one index per character class, one index into AllChars per remaining
      character, then one sort key per character for the shuffle. */
  datatype Draws = Draws(lower: nat, upper: nat, digit: nat, special: nat, rest: seq<nat>, keys: seq<int>)

  /** Each index lies below the length of the string it indexes, as
      Random.Next(bound) guarantees, and there is one draw per character. */
  predicate DrawsFit(d: Draws, n: nat) {
    n >= 4 && d.lower < |LowerLetters| && d.upper < |UpperLetters| && d.digit < |Digits| &&
    d.special < |Specials| && |d.rest| == n - 4 && |d.keys| == n &&
    forall i | 0 <= i < |d.rest| :: d.rest[i] < |AllChars|
  }

  /** The characters before the shuffle: the four required ones, then the rest. */
  function Drawn(d: Draws, n: nat): (r: string)
    requires DrawsFit(d, n)
    ensures |r| == n
  {
    [LowerLetters[d.lower], UpperLetters[d.upper], Digits[d.digit], Specials[d.special]] +
    seq(n - 4, i requires 0 <= i < n - 4 => AllChars[d.rest[i]])
  }

  // ---------------------------------------------------------------------
  // The generator

  /** GenerateTempPassword: fills the remaining characters in a loop, copies
      the required and the remaining characters into one array, and
      shuffles it. */
  method GenerateTempPassword(length: int, d: Draws) returns (password: string)
    requires DrawsFit(d, EffectiveLength(length))
    ensures password == Shuffle(Drawn(d, EffectiveLength(length)), d.keys)
  {
    var n := if length < 4 then 8 else length;
    var lowerChar := LowerLetters[d.lower];
    var upperChar := UpperLetters[d.upper];
    var digitChar := Digits[d.digit];
    var specialChar := Specials[d.special];
    var remaining := new char[n - 4];
    for i := 0 to remaining.Length
      invariant forall j | 0 <= j < i :: remaining[j] == AllChars[d.rest[j]]
    {
      remaining[i] := AllChars[d.rest[i]];
    }
    var passwordChars := new char[n];
    passwordChars[0], passwordChars[1], passwordChars[2], passwordChars[3] := lowerChar, upperChar, digitChar, specialChar;
    for i := 0 to remaining.Length
      invariant passwordChars[..4] == [lowerChar, upperChar, digitChar, specialChar]
      invariant forall j | 0 <= j < remaining.Length :: remaining[j] == AllChars[d.rest[j]]
      invariant forall j | 0 <= j < i :: passwordChars[4 + j] == AllChars[d.rest[j]]
    {
      passwordChars[4 + i] := remaining[i];
    }
    assert passwordChars[..] == Drawn(d, n) by {
      var cs := Drawn(d, n);
      forall k | 0 <= k < n ensures passwordChars[k] == cs[k] {
        if k < 4 {
          assert passwordChars[k] == passwordChars[..4][k];
        } else {
          assert passwordChars[4 + (k - 4)] == AllChars[d.rest[k - 4]];
        }
      }
    }
    password := Shuffle(passwordChars[..], d.keys);
  }

  // ---------------------------------------------------------------------
  // What the password promises

  predicate HasCharOf(s: string, chars: string) {
    exists i | 0 <= i < |s| :: s[i] in chars
  }

  lemma InMultiset(s: string, t: string, c: char)
    requires multiset(s) == multiset(t)
    ensures c in s <==> c in t
  {
    assert c in s <==> c in multiset(s);
    assert c in t <==> c in multiset(t);
  }

  /** AllChars is the four classes laid end to end. */
  lemma AllCharsLayout()
    ensures forall i | 0 <= i < |LowerLetters| :: AllChars[i] == LowerLetters[i]
    ensures forall i | 0 <= i < |UpperLetters| :: AllChars[|LowerLetters| + i] == UpperLetters[i]
    ensures forall i | 0 <= i < |Digits| :: AllChars[|LowerLetters| + |UpperLetters| + i] == Digits[i]
    ensures forall i | 0 <= i < |Specials| :: AllChars[|LowerLetters| + |UpperLetters| + |Digits| + i] == Specials[i]
    ensures |AllChars| == |LowerLetters| + |UpperLetters| + |Digits| + |Specials|
  {
    var lu := LowerLetters + UpperLetters;
    var lud := lu + Digits;
    assert AllChars == lud + Specials;
    forall i | 0 <= i < |UpperLetters| ensures AllChars[|LowerLetters| + i] == UpperLetters[i] {
      assert AllChars[|LowerLetters| + i] == lud[|LowerLetters| + i] == lu[|LowerLetters| + i];
    }
    forall i | 0 <= i < |Digits| ensures AllChars[|LowerLetters| + |UpperLetters| + i] == Digits[i] {
      assert AllChars[|lu| + i] == lud[|lu| + i];
    }
  }

  /** The characters before the shuffle: one of each class in front, in
      that order. */
  lemma DrawnFront(d: Draws, n: nat)
    requires DrawsFit(d, n)
    ensures var cs := Drawn(d, n);
      cs[0] in LowerLetters && cs[1] in UpperLetters && cs[2] in Digits && cs[3] in Specials
  {
    var cs := Drawn(d, n);
    assert cs[0] == LowerLetters[d.lower] && cs[1] == UpperLetters[d.upper];
    assert cs[2] == Digits[d.digit] && cs[3] == Specials[d.special];
  }

  /** The character at position k before the shuffle is one of AllChars. */
  lemma DrawnCharAt(d: Draws, n: nat, k: nat)
    requires DrawsFit(d, n) && k < n
    ensures Drawn(d, n)[k] in AllChars
  {
    var cs := Drawn(d, n);
    AllCharsLayout();
    if k >= 4 {
      assert cs[k] == AllChars[d.rest[k - 4]];
    } else if k == 0 {
      assert cs[k] == AllChars[d.lower];
    } else if k == 1 {
      assert cs[k] == AllChars[|LowerLetters| + d.upper];
    } else if k == 2 {
      assert cs[k] == AllChars[|LowerLetters| + |UpperLetters| + d.digit];
    } else {
      assert cs[k] == AllChars[|LowerLetters| + |UpperLetters| + |Digits| + d.special];
    }
  }

  /** Every character before the shuffle is one of AllChars. */
  lemma DrawnChars(d: Draws, n: nat)
    requires DrawsFit(d, n)
    ensures var cs := Drawn(d, n); forall c | c in cs :: c in AllChars
  {
    var cs := Drawn(d, n);
    forall c | c in cs ensures c in AllChars {
      var k :| 0 <= k < |cs| && cs[k] == c;
      DrawnCharAt(d, n, k);
    }
  }

  /** The password has the requested length (at least 4), holds a character
      of each of the four classes, and uses no character outside them. */
  lemma PasswordStrength(length: int, d: Draws)
    requires DrawsFit(d, EffectiveLength(length))
    ensures var n := EffectiveLength(length);
      var p := Shuffle(Drawn(d, n), d.keys);
      |p| == n &&
      HasCharOf(p, LowerLetters) && HasCharOf(p, UpperLetters) && HasCharOf(p, Digits) && HasCharOf(p, Specials) &&
      forall i | 0 <= i < |p| :: p[i] in AllChars
  {
    var n := EffectiveLength(length);
    var cs := Drawn(d, n);
    var p := Shuffle(cs, d.keys);
    DrawnFront(d, n);
    DrawnChars(d, n);
    assert |p| == |multiset(p)| == |multiset(cs)| == n;
    forall i | 0 <= i < |p| ensures p[i] in AllChars {
      InMultiset(p, cs, p[i]);
    }
    HasClass(p, cs, 0, LowerLetters);
    HasClass(p, cs, 1, UpperLetters);
    HasClass(p, cs, 2, Digits);
    HasClass(p, cs, 3, Specials);
  }

  lemma HasClass(p: string, cs: string, m: nat, chars: string)
    requires multiset(p) == multiset(cs) && m < |cs| && cs[m] in chars
    ensures HasCharOf(p, chars)
  {
    InMultiset(p, cs, cs[m]);
    var i :| 0 <= i < |p| && p[i] == cs[m];
  }
}

/** `OrderBy(c => random.Next())` on a character array: each character
    gets the next random key and the characters are sorted by it. */
module Shuffles {
  import opened Sorting

  function Pairs(cs: string, keys: seq<int>): (r: seq<(int, char)>)
    requires |keys| == |cs|
    ensures |r| == |cs|
    ensures forall i | 0 <= i < |cs| :: r[i] == (keys[i], cs[i])
  {
    seq(|cs|, i requires 0 <= i < |cs| => (keys[i], cs[i]))
  }

  function Chars(ps: seq<(int, char)>): (r: string)
    ensures |r| == |ps|
    ensures forall i | 0 <= i < |ps| :: r[i] == ps[i].1
  {
    seq(|ps|, i requires 0 <= i < |ps| => ps[i].1)
  }

  function ByKey(): ((int, char), (int, char)) -> bool {
    (a: (int, char), b: (int, char)) => a.0 <= b.0
  }

  lemma ByKeyOrders()
    ensures TotalPreorder(ByKey())
  {
    var le := ByKey();
    forall x: (int, char), y: (int, char), z: (int, char) | le(x, y) && le(y, z) ensures le(x, z) {
      assert x.0 <= y.0 <= z.0;
    }
    forall x: (int, char), y: (int, char) ensures le(x, y) || le(y, x) {
      assert x.0 <= y.0 || y.0 <= x.0;
    }
  }

  lemma CharsAppend(a: seq<(int, char)>, b: seq<(int, char)>)
    ensures Chars(a + b) == Chars(a) + Chars(b)
  {
    assert forall i | 0 <= i < |a + b| :: Chars(a + b)[i] == (Chars(a) + Chars(b))[i];
  }

  /** Taking one element out of a sequence, and out of its projection. */
  lemma RemoveAt(t: seq<(int, char)>, k: nat)
    requires k < |t|
    ensures multiset(t[..k] + t[k + 1..]) == multiset(t) - multiset{t[k]}
    ensures multiset(Chars(t)) == multiset(Chars(t[..k] + t[k + 1..])) + multiset{t[k].1}
  {
    var a, b := t[..k], t[k + 1..];
    assert t == a + [t[k]] + b;
    assert multiset(t) == multiset(a) + multiset{t[k]} + multiset(b);
    CharsAppend(a + [t[k]], b);
    CharsAppend(a, [t[k]]);
    CharsAppend(a, b);
    assert Chars([t[k]]) == [t[k].1];
    var ca, cb := Chars(a), Chars(b);
    assert Chars(t) == ca + [t[k].1] + cb;
    assert multiset(Chars(t)) == multiset(ca) + multiset{t[k].1} + multiset(cb);
    assert multiset(Chars(a + b)) == multiset(ca) + multiset(cb);
  }

  /** Projecting two permutations of each other gives permutations of each other. */
  lemma {:induction false} CharsPermuted(s: seq<(int, char)>, t: seq<(int, char)>)
    requires multiset(s) == multiset(t)
    ensures multiset(Chars(s)) == multiset(Chars(t))
    decreases |s|
  {
    if |s| > 0 {
      var x := s[0];
      assert x in multiset(t);
      var k :| 0 <= k < |t| && t[k] == x;
      var rest, others := s[1..], t[..k] + t[k + 1..];
      assert s == [x] + rest;
      assert multiset(rest) == multiset(s) - multiset{x};
      RemoveAt(t, k);
      CharsPermuted(rest, others);
      CharsAppend([x], rest);
      assert Chars([x]) == [x.1];
      var cs, cr := Chars(s), Chars(rest);
      assert cs == [x.1] + cr;
      assert multiset(cs) == multiset{x.1} + multiset(cr);
      assert multiset(cr) == multiset(Chars(others));
    } else {
      assert |t| == |multiset(t)| == 0;
    }
  }

  lemma CharsOfPairs(cs: string, keys: seq<int>)
    requires |keys| == |cs|
    ensures Chars(Pairs(cs, keys)) == cs
  {
  }

  /** The characters reordered by their keys: a permutation of them. */
  function Shuffle(cs: string, keys: seq<int>): (r: string)
    requires |keys| == |cs|
    ensures multiset(r) == multiset(cs)
  {
    ByKeyOrders();
    var sorted := SortBy(Pairs(cs, keys), ByKey());
    CharsPermuted(sorted, Pairs(cs, keys));
    CharsOfPairs(cs, keys);
    Chars(sorted)
  }
}

/** Sequence helpers shared by the services (LINQ's Distinct and friends). */
module Seqs {

  predicate NoDuplicates<T(==)>(s: seq<T>) {
    forall i, j :: 0 <= i < j < |s| ==> s[i] != s[j]
  }

  /** An element of a sequence without duplicates occurs at most once. */
  lemma {:induction false} NoDuplicatesCount<T>(s: seq<T>, x: T)
    requires NoDuplicates(s)
    ensures multiset(s)[x] <= 1
    decreases |s|
  {
    if |s| > 0 {
      var init, last := s[..|s| - 1], s[|s| - 1];
      assert s == init + [last];
      assert NoDuplicates(init) by {
        forall i, j | 0 <= i < j < |init| ensures init[i] != init[j] {
          assert init[i] == s[i] && init[j] == s[j];
        }
      }
      NoDuplicatesCount(init, x);
      assert last !in init by {
        forall i | 0 <= i < |init| ensures init[i] != last {
          assert init[i] == s[i];
        }
      }
    }
  }

  /** An element found at two positions occurs at least twice. */
  lemma TwoPositionsCount<T>(s: seq<T>, i: nat, j: nat)
    requires i < j < |s|
    ensures s[i] == s[j] ==> multiset(s)[s[i]] >= 2
  {
    var a, b := s[..j], s[j..];
    assert s == a + b;
    assert s[i] == a[i] && s[j] == b[0];
    assert multiset(s) == multiset(a) + multiset(b);
  }

  /** A reordering of a sequence without duplicates has none either. */
  lemma PermutedNoDuplicates<T>(s: seq<T>, t: seq<T>)
    requires NoDuplicates(s) && multiset(s) == multiset(t)
    ensures NoDuplicates(t)
  {
    forall i, j | 0 <= i < j < |t| ensures t[i] != t[j] {
      NoDuplicatesCount(s, t[i]);
      TwoPositionsCount(t, i, j);
    }
  }

  /** Enumerable.Distinct: the elements of `s` in order of first occurrence, each once. */
  function Distinct<T(==,!new)>(s: seq<T>): (r: seq<T>)
    ensures NoDuplicates(r)
    ensures forall x :: x in r <==> x in s
    ensures |r| <= |s|
    decreases |s|
  {
    if |s| == 0 then []
    else
      var r := Distinct(s[..|s| - 1]);
      if s[|s| - 1] in r then r else r + [s[|s| - 1]]
  }

  /** FirstOrDefault as a position: the first index whose element satisfies `p`, or -1. */
  function NotIn<T(==)>(b: seq<T>): T -> bool {
    (x: T) => x !in b
  }

  /** Enumerable.Except: the distinct elements of `a` that are not in `b`, in
      order of first occurrence. */
  function Except<T(==,!new)>(a: seq<T>, b: seq<T>): (r: seq<T>)
    ensures NoDuplicates(r)
    ensures forall x :: x in r <==> x in a && x !in b
  {
    Distinct(Filter(a, NotIn(b)))
  }

  function FirstIndex<T>(s: seq<T>, p: T -> bool): (r: int)
    ensures -1 <= r < |s|
    ensures r >= 0 ==> p(s[r]) && forall j | 0 <= j < r :: !p(s[j])
    ensures r == -1 ==> forall j | 0 <= j < |s| :: !p(s[j])
    decreases |s|
  {
    if |s| == 0 then -1
    else if p(s[0]) then 0
    else
      var k := FirstIndex(s[1..], p);
      if k == -1 then -1 else k + 1
  }

  /** A prefix one longer is the shorter prefix and the next element. */
  lemma TakeSnoc<T>(s: seq<T>, i: nat)
    requires i < |s|
    ensures s[..i + 1] == s[..i] + [s[i]]
  {
  }

  lemma TakeAll<T>(s: seq<T>)
    ensures s[..|s|] == s
  {
  }

  /** Enumerable.Where: the elements satisfying `p`, in their order. */
  function Filter<T(!new)>(s: seq<T>, p: T -> bool): (r: seq<T>)
    ensures |r| <= |s|
    ensures forall x :: x in r <==> x in s && p(x)
    ensures multiset(r) <= multiset(s)
    decreases |s|
  {
    if |s| == 0 then []
    else
      var init := s[..|s| - 1];
      assert s == init + [s[|s| - 1]];
      Filter(init, p) + (if p(s[|s| - 1]) then [s[|s| - 1]] else [])
  }

  /** Two Where clauses in a row are one Where over the conjunction `r`. */
  lemma {:induction false} FilterFilter<T(!new)>(s: seq<T>, p: T -> bool, q: T -> bool, r: T -> bool)
    requires forall x | x in s :: r(x) == (p(x) && q(x))
    ensures Filter(Filter(s, p), q) == Filter(s, r)
    decreases |s|
  {
    if |s| > 0 {
      var init, last := s[..|s| - 1], s[|s| - 1];
      assert forall x | x in init :: x in s;
      FilterFilter(init, p, q, r);
      FilterAppend(Filter(init, p), if p(last) then [last] else [], q);
    }
  }

  /** Where distributes over concatenation. */
  lemma {:induction false} FilterAppend<T(!new)>(a: seq<T>, b: seq<T>, p: T -> bool)
    ensures Filter(a + b, p) == Filter(a, p) + Filter(b, p)
    decreases |b|
  {
    if |b| > 0 {
      var init, last := b[..|b| - 1], b[|b| - 1];
      assert (a + b)[..|a + b| - 1] == a + init;
      FilterAppend(a, init, p);
    } else {
      assert a + b == a;
    }
  }

  /** Where depends only on the verdicts for the elements present. */
  lemma {:induction false} FilterCongruent<T(!new)>(s: seq<T>, p: T -> bool, q: T -> bool)
    requires forall x | x in s :: p(x) == q(x)
    ensures Filter(s, p) == Filter(s, q)
    decreases |s|
  {
    if |s| > 0 {
      var init := s[..|s| - 1];
      assert forall x | x in init :: x in s;
      FilterCongruent(init, p, q);
    }
  }

  /** A Where every element passes leaves the sequence as it was. */
  lemma {:induction false} FilterAll<T(!new)>(s: seq<T>, p: T -> bool)
    requires forall x | x in s :: p(x)
    ensures Filter(s, p) == s
    decreases |s|
  {
    if |s| > 0 {
      var init := s[..|s| - 1];
      assert s == init + [s[|s| - 1]];
      assert forall x | x in init :: x in s;
      FilterAll(init, p);
    }
  }

  /** A Where no element passes is empty. */
  lemma {:induction false} FilterNone<T(!new)>(s: seq<T>, p: T -> bool)
    requires forall x | x in s :: !p(x)
    ensures Filter(s, p) == []
    decreases |s|
  {
    if |s| > 0 {
      var init := s[..|s| - 1];
      assert forall x | x in init :: x in s;
      FilterNone(init, p);
    }
  }

  /** Where keeps every copy of a passing element and no copy of another. */
  lemma {:induction false} FilterMultiset<T(!new)>(s: seq<T>, p: T -> bool)
    ensures forall x :: multiset(Filter(s, p))[x] == if p(x) then multiset(s)[x] else 0
    decreases |s|
  {
    if |s| > 0 {
      var init, last := s[..|s| - 1], s[|s| - 1];
      assert s == init + [last];
      FilterMultiset(init, p);
      assert Filter(s, p) == Filter(init, p) + (if p(last) then [last] else []);
    }
  }

  /** Reordering the input does not change how many pass a Where. */
  lemma FilterPermuted<T(!new)>(s: seq<T>, t: seq<T>, p: T -> bool)
    requires multiset(s) == multiset(t)
    ensures |Filter(s, p)| == |Filter(t, p)|
  {
    FilterMultiset(s, p);
    FilterMultiset(t, p);
    assert multiset(Filter(s, p)) == multiset(Filter(t, p));
    assert |Filter(s, p)| == |multiset(Filter(s, p))|;
    assert |Filter(t, p)| == |multiset(Filter(t, p))|;
  }

  /** Where over a reordering is a reordering of the Where. */
  lemma FilterPermutedMultiset<T(!new)>(s: seq<T>, t: seq<T>, p: T -> bool)
    requires multiset(s) == multiset(t)
    ensures multiset(Filter(s, p)) == multiset(Filter(t, p))
  {
    FilterMultiset(s, p);
    FilterMultiset(t, p);
  }

  /** Every element passes `p` or `q` and none passes both: the two Wheres
      split the sequence. */
  lemma {:induction false} FilterSplit<T(!new)>(s: seq<T>, p: T -> bool, q: T -> bool)
    requires forall x | x in s :: p(x) != q(x)
    ensures |Filter(s, p)| + |Filter(s, q)| == |s|
    decreases |s|
  {
    if |s| > 0 {
      var init := s[..|s| - 1];
      assert forall x | x in init :: x in s;
      FilterSplit(init, p, q);
    }
  }

  /** A weaker Where keeps at least as many elements. */
  lemma {:induction false} FilterWeaker<T(!new)>(s: seq<T>, p: T -> bool, q: T -> bool)
    requires forall x | x in s :: p(x) ==> q(x)
    ensures |Filter(s, p)| <= |Filter(s, q)|
    decreases |s|
  {
    if |s| > 0 {
      var init := s[..|s| - 1];
      assert forall x | x in init :: x in s;
      FilterWeaker(init, p, q);
    }
  }

  /** A RemoveRange over the rows failing `p`, done row by row: what stays is
      the Where of `p`. */
  method Keep<T(!new)>(s: seq<T>, p: T -> bool) returns (kept: seq<T>)
    ensures kept == Filter(s, p)
  {
    kept := [];
    for i := 0 to |s|
      invariant kept == Filter(s[..i], p)
    {
      TakeSnoc(s, i);
      assert s[..i + 1][..i] == s[..i];
      if p(s[i]) {
        kept := kept + [s[i]];
      }
    }
    TakeAll(s);
  }

  /** Enumerable.Sum of a weight over the elements. */
  function Sum<T>(s: seq<T>, w: T -> int): int
    decreases |s|
  {
    if |s| == 0 then 0 else Sum(s[..|s| - 1], w) + w(s[|s| - 1])
  }

  lemma {:induction false} SumAppend<T>(a: seq<T>, b: seq<T>, w: T -> int)
    ensures Sum(a + b, w) == Sum(a, w) + Sum(b, w)
    decreases |b|
  {
    if |b| > 0 {
      var init := b[..|b| - 1];
      assert (a + b)[..|a + b| - 1] == a + init;
      assert (a + b)[|a + b| - 1] == b[|b| - 1];
      SumAppend(a, init, w);
    } else {
      assert a + b == a;
    }
  }

  /** Sums over two sequences agree when their weights agree position by position. */
  lemma {:induction false} SumPointwise<A, B>(s: seq<A>, t: seq<B>, v: A -> int, w: B -> int)
    requires |s| == |t| && forall j | 0 <= j < |s| :: v(s[j]) == w(t[j])
    ensures Sum(s, v) == Sum(t, w)
    decreases |s|
  {
    if |s| > 0 {
      SumPointwise(s[..|s| - 1], t[..|t| - 1], v, w);
    }
  }

  lemma SumCongruent<T>(s: seq<T>, v: T -> int, w: T -> int)
    requires forall x | x in s :: v(x) == w(x)
    ensures Sum(s, v) == Sum(s, w)
  {
    SumPointwise(s, s, v, w);
  }

  /** Taking the last element of `s` out of `s` and one copy of it out of a
      reordering `t` leaves two reorderings of each other. */
  lemma RemoveMatching<T>(s: seq<T>, t: seq<T>, i: nat)
    requires multiset(s) == multiset(t) && |s| > 0
    requires i < |t| && t[i] == s[|s| - 1]
    ensures multiset(t[..i] + t[i + 1..]) == multiset(s[..|s| - 1])
  {
    var init, x := s[..|s| - 1], s[|s| - 1];
    var pre, post := t[..i], t[i + 1..];
    assert s == init + [x];
    assert t == pre + [x] + post;
    assert multiset(t) == multiset(pre) + multiset{x} + multiset(post);
    assert multiset(s) == multiset(init) + multiset{x};
    assert multiset(pre + post) == multiset(pre) + multiset(post);
    forall y
      ensures multiset(pre + post)[y] == multiset(init)[y]
    {
      assert multiset(t)[y] == multiset(pre)[y] + multiset{x}[y] + multiset(post)[y];
      assert multiset(s)[y] == multiset(init)[y] + multiset{x}[y];
    }
  }

  /** Reordering does not change a sum. */
  lemma {:induction false} SumPermuted<T>(s: seq<T>, t: seq<T>, w: T -> int)
    requires multiset(s) == multiset(t)
    ensures Sum(s, w) == Sum(t, w)
    decreases |s|
  {
    if |s| > 0 {
      var init, x := s[..|s| - 1], s[|s| - 1];
      assert x in multiset(t);
      var i :| 0 <= i < |t| && t[i] == x;
      var pre, post := t[..i], t[i + 1..];
      assert t == pre + [x] + post;
      RemoveMatching(s, t, i);
      SumPermuted(init, pre + post, w);
      SumAppend(pre + [x], post, w);
      SumAppend(pre, [x], w);
      SumAppend(pre, post, w);
      assert Sum([x], w) == w(x) by {
        assert [x][..0] == [];
      }
    } else {
      assert |t| == |multiset(t)|;
    }
  }

  function Min(a: int, b: int): int {
    if a <= b then a else b
  }

  /** Skip(skip).Take(take). */
  function Window<T>(s: seq<T>, skip: nat, take: nat): (r: seq<T>)
    ensures |r| == (if skip >= |s| then 0 else Min(take, |s| - skip))
    ensures forall i | 0 <= i < |r| :: r[i] == s[skip + i]
  {
    if skip >= |s| then [] else s[skip..Min(skip + take, |s|)]
  }

  /** Pages 1..k of size n, one after the other. */
  function Pages<T>(s: seq<T>, n: nat, k: nat): seq<T> {
    if k == 0 then [] else Pages(s, n, k - 1) + Window(s, (k - 1) * n, n)
  }

  /** The first k pages of size n are exactly the first k*n elements: pages
      neither overlap nor leave gaps. */
  lemma {:induction false} PagesCover<T>(s: seq<T>, n: nat, k: nat)
    ensures Pages(s, n, k) == s[..Min(k * n, |s|)]
  {
    if k > 0 {
      PagesCover(s, n, k - 1);
      PagesStep(s, n, k, (k - 1) * n);
      MulPred(k, n);
    }
  }

  /** One more page extends the covered prefix by one window. */
  lemma PagesStep<T>(s: seq<T>, n: nat, k: nat, a: nat)
    requires k > 0 && a == (k - 1) * n
    requires Pages(s, n, k - 1) == s[..Min(a, |s|)]
    ensures Pages(s, n, k) == s[..Min(a + n, |s|)]
  {
    WindowExtends(s, a, n);
  }

  /** The window after a prefix extends the prefix by that window. */
  lemma WindowExtends<T>(s: seq<T>, a: nat, n: nat)
    ensures s[..Min(a, |s|)] + Window(s, a, n) == s[..Min(a + n, |s|)]
  {
    if a < |s| {
      var b := Min(a + n, |s|);
      assert Window(s, a, n) == s[a..b];
      assert s[..b] == s[..a] + s[a..b];
    } else {
      assert Window(s, a, n) == [];
    }
  }

  lemma MulPred(k: nat, n: nat)
    requires k > 0
    ensures k * n == (k - 1) * n + n
  {
  }

  /** There is a next page of size n after page `page` exactly when
      page * n is less than the length. */
  lemma NextPageNonEmpty<T>(s: seq<T>, n: nat, page: nat)
    requires n > 0
    ensures page * n < |s| <==> |Window(s, page * n, n)| > 0
  {
  }
}

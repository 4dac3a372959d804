/** OrderBy / OrderByDescending over an in-memory table: an insertion sort
    under a total preorder `le` ("may come before"). Only the order of the
    keys is promised, not the order of elements with equal keys. */
module Sorting {
  import opened Seqs

  /** `le` is total and transitive: a key comparison, ascending or descending. */
  ghost predicate TotalPreorder<T(!new)>(le: (T, T) -> bool) {
    (forall x, y :: le(x, y) || le(y, x)) &&
    (forall x, y, z :: le(x, y) && le(y, z) ==> le(x, z))
  }

  predicate SortedBy<T>(s: seq<T>, le: (T, T) -> bool) {
    forall i, j | 0 <= i < j < |s| :: le(s[i], s[j])
  }

  /** Inserts `x` behind every leading element that may come before it. */
  function InsertBy<T(!new)>(x: T, s: seq<T>, le: (T, T) -> bool): (r: seq<T>)
    requires TotalPreorder(le)
    ensures multiset(r) == multiset(s) + multiset{x}
    ensures SortedBy(s, le) ==> SortedBy(r, le)
    decreases |s|
  {
    if |s| == 0 then [x]
    else if !le(s[0], x) then
      InsertFront(x, s, le);
      [x] + s
    else
      var rest := InsertBy(x, s[1..], le);
      assert s == [s[0]] + s[1..];
      InsertBehind(s[0], rest, s[1..], x, le);
      [s[0]] + rest
  }

  lemma InsertFront<T(!new)>(x: T, s: seq<T>, le: (T, T) -> bool)
    requires TotalPreorder(le) && |s| > 0 && le(x, s[0])
    ensures SortedBy(s, le) ==> SortedBy([x] + s, le)
  {
    if SortedBy(s, le) {
      forall i, j | 0 <= i < j < |[x] + s| ensures le(([x] + s)[i], ([x] + s)[j]) {
        if i == 0 && j > 1 {
          assert le(s[0], s[j - 1]);
        }
      }
    }
  }

  lemma InsertBehind<T(!new)>(y: T, rest: seq<T>, s: seq<T>, x: T, le: (T, T) -> bool)
    requires TotalPreorder(le) && le(y, x)
    requires multiset(rest) == multiset(s) + multiset{x}
    requires SortedBy(s, le) ==> SortedBy(rest, le)
    ensures SortedBy([y] + s, le) ==> SortedBy([y] + rest, le)
  {
    if SortedBy([y] + s, le) {
      assert SortedBy(s, le) by {
        forall i, j | 0 <= i < j < |s| ensures le(s[i], s[j]) {
          assert ([y] + s)[i + 1] == s[i] && ([y] + s)[j + 1] == s[j];
        }
      }
      forall j | 0 <= j < |rest| ensures le(y, rest[j]) {
        assert rest[j] in multiset(rest);
        if rest[j] != x {
          assert rest[j] in multiset(s);
          var k :| 0 <= k < |s| && s[k] == rest[j];
          assert ([y] + s)[0] == y && ([y] + s)[k + 1] == s[k];
        }
      }
      forall i, j | 0 <= i < j < |[y] + rest| ensures le(([y] + rest)[i], ([y] + rest)[j]) {
        if i == 0 {
          assert ([y] + rest)[j] == rest[j - 1];
        } else {
          assert ([y] + rest)[i] == rest[i - 1] && ([y] + rest)[j] == rest[j - 1];
        }
      }
    }
  }

  /** A sorted permutation of `s`. */
  function SortBy<T(!new)>(s: seq<T>, le: (T, T) -> bool): (r: seq<T>)
    requires TotalPreorder(le)
    ensures multiset(r) == multiset(s)
    ensures |r| == |s|
    ensures SortedBy(r, le)
    decreases |s|
  {
    if |s| == 0 then []
    else
      assert s == s[..|s| - 1] + [s[|s| - 1]];
      var r := InsertBy(s[|s| - 1], SortBy(s[..|s| - 1], le), le);
      assert |r| == |multiset(r)|;
      r
  }

  /** An element is in the sorted table exactly when it is in the input. */
  lemma SortByMembers<T(!new)>(s: seq<T>, le: (T, T) -> bool, x: T)
    requires TotalPreorder(le)
    ensures x in SortBy(s, le) <==> x in s
  {
    var r := SortBy(s, le);
    assert x in r <==> x in multiset(r);
    assert x in s <==> x in multiset(s);
  }

  /** A Where after an OrderBy keeps the order. */
  lemma {:induction false} FilterSorted<T(!new)>(s: seq<T>, p: T -> bool, le: (T, T) -> bool)
    requires SortedBy(s, le)
    ensures SortedBy(Filter(s, p), le)
    decreases |s|
  {
    if |s| > 0 {
      var init, last := s[..|s| - 1], s[|s| - 1];
      assert SortedBy(init, le);
      FilterSorted(init, p, le);
      var f := Filter(init, p);
      if p(last) {
        forall i, j | 0 <= i < j < |f + [last]| ensures le((f + [last])[i], (f + [last])[j]) {
          if j == |f| {
            assert f[i] in init;
            var k :| 0 <= k < |init| && init[k] == f[i];
          }
        }
      }
    }
  }

  /** Taking the first n of a sorted sequence takes elements that may come
      before every element left behind. */
  lemma TakeComesFirst<T>(s: seq<T>, n: int, le: (T, T) -> bool)
    requires SortedBy(s, le)
    ensures multiset(Take(s, n)) <= multiset(s)
    ensures forall e | e in Take(s, n) :: e in s
    ensures multiset(s) - multiset(Take(s, n)) == multiset(s[|Take(s, n)|..])
    ensures forall e, f | e in Take(s, n) && f in multiset(s) - multiset(Take(s, n)) :: le(e, f)
  {
    var k := |Take(s, n)|;
    assert s == s[..k] + s[k..];
    assert multiset(s) == multiset(s[..k]) + multiset(s[k..]);
    forall e, f | e in s[..k] && f in multiset(s[k..]) ensures le(e, f) {
      var i :| 0 <= i < k && s[i] == e;
      var rest := s[k..];
      assert f in rest;
      var j :| 0 <= j < |rest| && rest[j] == f;
      assert s[k + j] == f;
    }
  }

  /** Take(n): .NET treats a negative count as zero. */
  function Take<T>(s: seq<T>, n: int): (r: seq<T>)
    ensures |r| == if n <= 0 then 0 else if n < |s| then n else |s|
    ensures r == s[..|r|]
  {
    if n <= 0 then [] else if n < |s| then s[..n] else s
  }
}

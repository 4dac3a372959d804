/** The access check of the link services: the rows whose key is among the
    requested ids and that belong to the caller are loaded, and the request
    is refused unless their number equals the number of requested ids. */
module IdChecks {
  import opened Base
  import opened Seqs

  /** The rows the check loads: key among `ids` and passing `mine`. */
  function Requested<T(!new)>(rows: seq<T>, ids: seq<Guid>, key: T -> Guid, mine: T -> bool): seq<T> {
    Filter(rows, (x: T) => key(x) in ids && mine(x))
  }

  /** `assets.Count != dto.AssetIds.Count` fails the request. */
  predicate CountMatches<T(!new)>(rows: seq<T>, ids: seq<Guid>, key: T -> Guid, mine: T -> bool) {
    |Requested(rows, ids, key, mine)| == |ids|
  }

  /** The table's primary key. */
  ghost predicate UniqueKeys<T, K>(rows: seq<T>, key: T -> K) {
    forall i, j | 0 <= i < j < |rows| :: key(rows[i]) != key(rows[j])
  }

  ghost predicate Present<T(!new)>(rows: seq<T>, x: Guid, key: T -> Guid, mine: T -> bool) {
    exists r | r in rows :: key(r) == x && mine(r)
  }

  function Keys<T>(rows: seq<T>, key: T -> Guid): (r: seq<Guid>)
    ensures |r| == |rows|
    ensures forall i | 0 <= i < |rows| :: r[i] == key(rows[i])
  {
    seq(|rows|, i requires 0 <= i < |rows| => key(rows[i]))
  }

  function Elements(s: seq<Guid>): set<Guid> {
    set x | x in s
  }

  /** A sequence has at least as many positions as distinct elements, and
      exactly as many when no element repeats. */
  lemma {:induction false} ElementsCount(s: seq<Guid>)
    ensures |Elements(s)| <= |s|
    ensures |Elements(s)| == |s| <==> NoDuplicates(s)
    decreases |s|
  {
    if |s| > 0 {
      var init, x := s[..|s| - 1], s[|s| - 1];
      assert s == init + [x];
      ElementsCount(init);
      assert Elements(s) == Elements(init) + {x};
      if x in init {
        assert Elements(s) == Elements(init);
        var k :| 0 <= k < |init| && init[k] == x;
        assert s[k] == s[|s| - 1];
      } else {
        assert x !in Elements(init);
        if NoDuplicates(init) {
          forall i, j | 0 <= i < j < |s| ensures s[i] != s[j] {
            if j < |s| - 1 {
              assert s[i] == init[i] && s[j] == init[j];
            } else {
              assert s[i] in init;
            }
          }
        }
        if NoDuplicates(s) {
          forall i, j | 0 <= i < j < |init| ensures init[i] != init[j] {
            assert init[i] == s[i] && init[j] == s[j];
          }
        }
      }
    } else {
      assert Elements(s) == {};
    }
  }

  lemma SubsetCount(a: set<Guid>, b: set<Guid>)
    requires a <= b
    ensures |a| <= |b|
    ensures |a| == |b| ==> a == b
  {
    assert a * b == a;
    assert a + b == b;
    if |a| == |b| {
      assert |b - a| == 0;
      assert b - a == {};
    }
  }

  /** A Where keeps the key unique. */
  lemma {:induction false} FilterKeepsKeys<T(!new), K>(rows: seq<T>, key: T -> K, p: T -> bool)
    requires UniqueKeys(rows, key)
    ensures UniqueKeys(Filter(rows, p), key)
    decreases |rows|
  {
    if |rows| > 0 {
      var init, x := rows[..|rows| - 1], rows[|rows| - 1];
      assert UniqueKeys(init, key) by {
        forall i, j | 0 <= i < j < |init| ensures key(init[i]) != key(init[j]) {
          assert init[i] == rows[i] && init[j] == rows[j];
        }
      }
      FilterKeepsKeys(init, key, p);
      var f := Filter(init, p);
      if p(x) {
        forall i, j | 0 <= i < j < |f + [x]| ensures key((f + [x])[i]) != key((f + [x])[j]) {
          if j == |f| {
            assert f[i] in init;
            var k :| 0 <= k < |init| && init[k] == f[i];
            assert rows[k] == f[i];
          } else {
            assert (f + [x])[i] == f[i] && (f + [x])[j] == f[j];
          }
        }
      }
    }
  }

  /** Under a unique key, the count check passes exactly when no id is
      requested twice and every requested id names one of the caller's rows. */
  lemma CountMatchesMeans<T(!new)>(rows: seq<T>, ids: seq<Guid>, key: T -> Guid, mine: T -> bool)
    requires UniqueKeys(rows, key)
    ensures CountMatches(rows, ids, key, mine) <==>
      NoDuplicates(ids) && forall x | x in ids :: Present(rows, x, key, mine)
  {
    var m := Requested(rows, ids, key, mine);
    FilterKeepsKeys(rows, key, (x: T) => key(x) in ids && mine(x));
    var km := Keys(m, key);
    assert NoDuplicates(km) by {
      forall i, j | 0 <= i < j < |km| ensures km[i] != km[j] {
        assert km[i] == key(m[i]) && km[j] == key(m[j]);
      }
    }
    ElementsCount(km);
    ElementsCount(ids);
    assert Elements(km) <= Elements(ids) by {
      forall x | x in Elements(km) ensures x in Elements(ids) {
        var i :| 0 <= i < |km| && km[i] == x;
        assert m[i] in m;
      }
    }
    SubsetCount(Elements(km), Elements(ids));
    if CountMatches(rows, ids, key, mine) {
      forall x | x in ids ensures Present(rows, x, key, mine) {
        assert x in Elements(ids);
        assert x in Elements(km);
        var i :| 0 <= i < |km| && km[i] == x;
        assert m[i] in m;
      }
    }
    if NoDuplicates(ids) && forall x | x in ids :: Present(rows, x, key, mine) {
      forall x | x in Elements(ids) ensures x in Elements(km) {
        var r :| r in rows && key(r) == x && mine(r);
        assert r in m;
        var i :| 0 <= i < |m| && m[i] == r;
        assert km[i] == x;
      }
      assert Elements(km) == Elements(ids);
    }
  }
}

/** The password history both password services keep per user
    (UserPasswordHistory rows): a new password is refused when it matches
    one of the user's five newest entries, and after a change the entries
    beyond the five newest are deleted. */
module PasswordHistory {
  import opened Base
  import opened Seqs
  import opened Sorting
  import opened IdChecks

  /** A history row: its key, the user, the stored hash and when it was set. */
  datatype HistoryEntry = HistoryEntry(id: Guid, userId: string, passwordHash: string, changedOn: Ticks)

  /** PasswordVerificationResult: what PasswordHasher.VerifyHashedPassword
      answers. A hash made under older hasher settings verifies with
      SuccessRehashNeeded. */
  datatype PasswordVerification = Failed | Success | SuccessRehashNeeded

  /** The test sign-in and the current-password checks apply: any answer
      but Failed lets the password through. */
  function Accepts(hasher: (string, string) -> PasswordVerification): (string, string) -> bool {
    (hash: string, password: string) => hasher(hash, password) != Failed
  }

  const ReuseMessage: string := "You cannot reuse one of your last 5 passwords."

  /** How many entries per user are checked and kept. */
  const HistoryDepth: nat := 5

  function EntryId(): HistoryEntry -> Guid {
    (e: HistoryEntry) => e.id
  }

  function OfUser(userId: string): HistoryEntry -> bool {
    (e: HistoryEntry) => e.userId == userId
  }

  /** OrderByDescending(p => p.ChangedOn). */
  function NewestFirst(): (HistoryEntry, HistoryEntry) -> bool {
    (a: HistoryEntry, b: HistoryEntry) => a.changedOn >= b.changedOn
  }

  lemma NewestFirstOrders()
    ensures TotalPreorder(NewestFirst())
  {
  }

  /** The user's entries, newest first; entries set at the same instant may
      come in any order. */
  function Recent(h: seq<HistoryEntry>, userId: string): (r: seq<HistoryEntry>)
    ensures multiset(r) == multiset(Filter(h, OfUser(userId)))
    ensures SortedBy(r, NewestFirst())
  {
    NewestFirstOrders();
    SortBy(Filter(h, OfUser(userId)), NewestFirst())
  }

  /** `.Take(5)`: the entries the reuse check looks at. */
  function Last5(h: seq<HistoryEntry>, userId: string): (r: seq<HistoryEntry>)
    ensures |r| <= HistoryDepth
  {
    Take(Recent(h, userId), HistoryDepth)
  }

  /** `.Skip(5)`: the entries the clean-up deletes. */
  function Stale(h: seq<HistoryEntry>, userId: string): seq<HistoryEntry> {
    var r := Recent(h, userId);
    if |r| <= HistoryDepth then [] else r[HistoryDepth..]
  }

  function NotStale(h: seq<HistoryEntry>, userId: string): HistoryEntry -> bool {
    var ids := Keys(Stale(h, userId), EntryId());
    (e: HistoryEntry) => e.id !in ids
  }

  /** The table after the clean-up: every row deleted whose key is one of
      the stale entries'. */
  function Trimmed(h: seq<HistoryEntry>, userId: string): seq<HistoryEntry> {
    Filter(h, NotStale(h, userId))
  }

  /** The table after a change: the new entry added, then the clean-up. */
  function Recorded(h: seq<HistoryEntry>, userId: string, hash: string, id: Guid, now: Ticks): seq<HistoryEntry> {
    Trimmed(h + [HistoryEntry(id, userId, hash, now)], userId)
  }

  /** The `foreach (var past in last5)` loop: true as soon as one entry
      verifies the new password with Success; SuccessRehashNeeded does not
      count. */
  method IsReused(last5: seq<HistoryEntry>, password: string, hasher: (string, string) -> PasswordVerification)
    returns (reused: bool)
    ensures reused <==> exists e | e in last5 :: hasher(e.passwordHash, password) == Success
  {
    for i := 0 to |last5|
      invariant forall j | 0 <= j < i :: hasher(last5[j].passwordHash, password) != Success
    {
      if hasher(last5[i].passwordHash, password) == Success {
        return true;
      }
    }
    return false;
  }

  /** What the reuse check refuses: a password one of the user's five
      newest entries verifies with Success. */
  predicate Reused(h: seq<HistoryEntry>, userId: string, password: string, hasher: (string, string) -> PasswordVerification) {
    exists e | e in Last5(h, userId) :: hasher(e.passwordHash, password) == Success
  }

  /** A stored hash that verifies the password only with SuccessRehashNeeded
      lets that password through sign-in, yet does not make it a reuse. */
  lemma RehashNeededNotReused(e: HistoryEntry, password: string, hasher: (string, string) -> PasswordVerification)
    requires hasher(e.passwordHash, password) == SuccessRehashNeeded
    ensures Accepts(hasher)(e.passwordHash, password)
    ensures !Reused([e], e.userId, password, hasher)
  {
    var r := Recent([e], e.userId);
    TakeComesFirst(r, HistoryDepth, NewestFirst());
    forall x | x in Last5([e], e.userId)
      ensures x == e
    {
      assert x in multiset(r);
    }
  }

  /** The clean-up loop: deletes the stale rows one by one. */
  method TrimHistory(h: seq<HistoryEntry>, userId: string) returns (r: seq<HistoryEntry>)
    ensures r == Trimmed(h, userId)
  {
    var keep := NotStale(h, userId);
    r := Keep(h, keep);
  }

  // ---------------------------------------------------------------------
  // What the clean-up guarantees

  /** A Where that drops everything from position five on keeps at most five. */
  lemma FilterFront(r: seq<HistoryEntry>, p: HistoryEntry -> bool)
    requires forall k | HistoryDepth <= k < |r| :: !p(r[k])
    ensures |Filter(r, p)| <= HistoryDepth
  {
    if |r| > HistoryDepth {
      var front, back := r[..HistoryDepth], r[HistoryDepth..];
      assert r == front + back;
      FilterAppend(front, back, p);
      forall x | x in back ensures !p(x) {
        var k :| 0 <= k < |back| && back[k] == x;
        assert r[HistoryDepth + k] == x;
      }
      FilterNone(back, p);
    }
  }

  /** The clean-up drops every entry from position five on. */
  lemma StaleDropped(h: seq<HistoryEntry>, userId: string)
    ensures var r := Recent(h, userId);
      forall k | HistoryDepth <= k < |r| :: !NotStale(h, userId)(r[k])
  {
    var r := Recent(h, userId);
    var stale := Stale(h, userId);
    var ids := Keys(stale, EntryId());
    forall k | HistoryDepth <= k < |r| ensures r[k].id in ids {
      assert stale[k - HistoryDepth] == r[k];
      assert ids[k - HistoryDepth] == r[k].id;
    }
  }

  /** After the clean-up the user has at most five entries. */
  lemma TrimmedBound(h: seq<HistoryEntry>, userId: string)
    ensures |Filter(Trimmed(h, userId), OfUser(userId))| <= HistoryDepth
  {
    var p := NotStale(h, userId);
    var q := OfUser(userId);
    var both := (e: HistoryEntry) => p(e) && q(e);
    var s := Filter(h, q);
    var r := Recent(h, userId);
    FilterFilter(h, p, q, both);
    FilterFilter(h, q, p, both);
    FilterPermuted(s, r, p);
    StaleDropped(h, userId);
    FilterFront(r, p);
  }

  /** Two rows with the same key are the same row. */
  lemma SameKeySameEntry(h: seq<HistoryEntry>, a: HistoryEntry, b: HistoryEntry)
    requires UniqueKeys(h, EntryId()) && a in h && b in h && a.id == b.id
    ensures a == b
  {
    var i :| 0 <= i < |h| && h[i] == a;
    var j :| 0 <= j < |h| && h[j] == b;
    assert EntryId()(h[i]) == EntryId()(h[j]);
  }

  /** The clean-up leaves the other users' entries alone. */
  lemma TrimmedOthers(h: seq<HistoryEntry>, userId: string, other: string)
    requires UniqueKeys(h, EntryId()) && other != userId
    ensures Filter(Trimmed(h, userId), OfUser(other)) == Filter(h, OfUser(other))
  {
    var p := NotStale(h, userId);
    var q := OfUser(other);
    var both := (e: HistoryEntry) => p(e) && q(e);
    FilterFilter(h, p, q, both);
    var stale := Stale(h, userId);
    var ids := Keys(stale, EntryId());
    forall x | x in h ensures both(x) == q(x) {
      if q(x) {
        forall k | 0 <= k < |stale| ensures ids[k] != x.id {
          StaleEntry(h, userId, k);
          if ids[k] == x.id {
            SameKeySameEntry(h, stale[k], x);
          }
        }
      }
    }
    FilterCongruent(h, both, q);
  }

  /** Every stale entry is one of the user's rows. */
  lemma StaleEntry(h: seq<HistoryEntry>, userId: string, k: nat)
    requires k < |Stale(h, userId)|
    ensures Stale(h, userId)[k] in h && Stale(h, userId)[k].userId == userId
  {
    var r := Recent(h, userId);
    var x := Stale(h, userId)[k];
    assert x == r[HistoryDepth + k];
    assert x in multiset(r);
    assert x in Filter(h, OfUser(userId));
  }

  /** The user's strictly newest entry comes first. */
  lemma NewestFirstPlace(h: seq<HistoryEntry>, userId: string, x: HistoryEntry)
    requires x in h && x.userId == userId
    requires forall y | y in h && y.userId == userId && y != x :: y.changedOn < x.changedOn
    ensures |Recent(h, userId)| > 0 && Recent(h, userId)[0] == x
  {
    var s := Filter(h, OfUser(userId));
    var r := Recent(h, userId);
    assert x in s;
    assert x in multiset(r);
    var i :| 0 <= i < |r| && r[i] == x;
    assert r[0] in multiset(s);
    assert r[0] in s;
    if i > 0 {
      assert NewestFirst()(r[0], r[i]);
    }
  }

  /** The entry in front is not stale. */
  lemma FrontNotStale(h: seq<HistoryEntry>, userId: string)
    requires UniqueKeys(h, EntryId()) && |Recent(h, userId)| > 0
    ensures NotStale(h, userId)(Recent(h, userId)[0])
  {
    var r := Recent(h, userId);
    var x := r[0];
    NoDuplicatesOf(h, userId);
    var stale := Stale(h, userId);
    var ids := Keys(stale, EntryId());
    assert x in multiset(r);
    assert x in h;
    forall k | 0 <= k < |stale| ensures ids[k] != x.id {
      StaleEntry(h, userId, k);
      assert stale[k] == r[HistoryDepth + k] != r[0];
      if ids[k] == x.id {
        SameKeySameEntry(h, stale[k], x);
      }
    }
  }

  /** The user's strictly newest entry is kept and is the first the reuse
      check looks at. */
  lemma NewestKept(h: seq<HistoryEntry>, userId: string, x: HistoryEntry)
    requires UniqueKeys(h, EntryId()) && x in h && x.userId == userId
    requires forall y | y in h && y.userId == userId && y != x :: y.changedOn < x.changedOn
    ensures Recent(h, userId)[0] == x
    ensures x in Last5(h, userId) && x in Trimmed(h, userId)
  {
    NewestFirstPlace(h, userId, x);
    assert Last5(h, userId)[0] == x;
    FrontNotStale(h, userId);
  }

  /** Under a unique key the user's entries, newest first, hold no row twice. */
  lemma NoDuplicatesOf(h: seq<HistoryEntry>, userId: string)
    requires UniqueKeys(h, EntryId())
    ensures NoDuplicates(Recent(h, userId))
  {
    var s := Filter(h, OfUser(userId));
    FilterKeepsKeys(h, EntryId(), OfUser(userId));
    assert NoDuplicates(s) by {
      forall i, j | 0 <= i < j < |s| ensures s[i] != s[j] {
        assert EntryId()(s[i]) != EntryId()(s[j]);
      }
    }
    PermutedNoDuplicates(s, Recent(h, userId));
  }

  /** An entry added under a fresh key keeps the keys unique. */
  lemma AppendedKeys(h: seq<HistoryEntry>, x: HistoryEntry)
    requires UniqueKeys(h, EntryId()) && forall e | e in h :: e.id != x.id
    ensures UniqueKeys(h + [x], EntryId())
  {
    var g := h + [x];
    forall i, j | 0 <= i < j < |g| ensures g[i].id != g[j].id {
      assert g[i] == h[i];
      if j < |h| {
        assert g[j] == h[j];
      } else {
        assert h[i] in h;
      }
    }
  }

  /** Recording a password under a fresh key keeps the keys unique. */
  lemma RecordedValid(h: seq<HistoryEntry>, userId: string, hash: string, id: Guid, now: Ticks)
    requires UniqueKeys(h, EntryId()) && forall e | e in h :: e.id != id
    ensures UniqueKeys(Recorded(h, userId, hash, id, now), EntryId())
  {
    var g := h + [HistoryEntry(id, userId, hash, now)];
    AppendedKeys(h, HistoryEntry(id, userId, hash, now));
    FilterKeepsKeys(g, EntryId(), NotStale(g, userId));
  }

  /** Recording a password under a fresh key at an instant later than the
      user's other entries keeps it, leaves at most five entries for the
      user and the others' entries as they were, and makes the reuse check
      see it right away. */
  lemma RecordedKeepsNewest(h: seq<HistoryEntry>, userId: string, hash: string, id: Guid, now: Ticks)
    requires UniqueKeys(h, EntryId()) && forall e | e in h :: e.id != id
    requires forall e | e in h && e.userId == userId :: e.changedOn < now
    ensures var h' := Recorded(h, userId, hash, id, now);
      HistoryEntry(id, userId, hash, now) in h' &&
      HistoryEntry(id, userId, hash, now) in Last5(h', userId) &&
      |Filter(h', OfUser(userId))| <= HistoryDepth &&
      UniqueKeys(h', EntryId())
  {
    var x := HistoryEntry(id, userId, hash, now);
    var g := h + [x];
    AppendedKeys(h, x);
    NewestKept(g, userId, x);
    var g' := Trimmed(g, userId);
    TrimmedBound(g, userId);
    FilterKeepsKeys(g, EntryId(), NotStale(g, userId));
    assert x in g';
    // The reuse check over the trimmed table still starts with x.
    NewestKept(g', userId, x);
  }

  /** The password just recorded counts as reused at the next change. */
  lemma RecordedIsReused(h: seq<HistoryEntry>, userId: string, hash: string, id: Guid, now: Ticks,
                         password: string, hasher: (string, string) -> PasswordVerification)
    requires UniqueKeys(h, EntryId()) && forall e | e in h :: e.id != id
    requires forall e | e in h && e.userId == userId :: e.changedOn < now
    requires hasher(hash, password) == Success
    ensures Reused(Recorded(h, userId, hash, id, now), userId, password, hasher)
  {
    RecordedKeepsNewest(h, userId, hash, id, now);
  }
}

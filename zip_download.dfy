/** DownloadAssetsAsZipAsync of the asset service: which assets go into a
    bulk download and the entry name each file gets inside the archive. */
module ZipDownload {
  import opened Wrappers
  import opened Base
  import opened Text
  import opened Seqs
  import opened Assets
  import opened FileNames

  /** One archive entry: its name and the stored file it copies. */
  datatype ZipEntry = ZipEntry(name: string, filePath: string)

  /** The download takes the listed assets that are not deleted and belong to
      the caller's company, or have no company when the caller has none. */
  predicate Selected(a: Asset, assetIds: seq<Guid>, companyId: Option<Guid>) {
    a.id in assetIds && !a.isDeleted && a.companyId == companyId
  }

  function Selection(assetIds: seq<Guid>, companyId: Option<Guid>): Asset -> bool {
    a => Selected(a, assetIds, companyId)
  }

  /** Files missing from storage are skipped. */
  function OnDisk(fileExists: string -> bool): Asset -> bool {
    (a: Asset) => fileExists(a.filePath)
  }

  function NamesOf(s: seq<Asset>): (r: seq<string>)
    ensures |r| == |s| && forall i | 0 <= i < |s| :: r[i] == s[i].fileName
  {
    seq(|s|, i requires 0 <= i < |s| => s[i].fileName)
  }

  // ------------------------------------------------------------ as written

  /** How many names of `s` have `key` as lower-case form. */
  function CountLower(s: seq<string>, key: string): (n: nat)
    ensures n <= |s|
    ensures n == 0 <==> forall x | x in s :: Lower(x) != key
    decreases |s|
  {
    if |s| == 0 then 0
    else
      var init := s[..|s| - 1];
      assert s == init + [s[|s| - 1]];
      CountLower(init, key) + (if Lower(s[|s| - 1]) == key then 1 else 0)
  }

  lemma CountLowerSnoc(s: seq<string>, x: string, key: string)
    ensures CountLower(s + [x], key) == CountLower(s, key) + (if Lower(x) == key then 1 else 0)
  {
    assert (s + [x])[..|s|] == s;
  }

  /** The entry name of a file that is the c-th of its lower-case name so
      far: its own name the first time, otherwise stem + "_" + c + extension. */
  function Renamed(name: string, c: nat): string {
    if c == 1 then name else Numbered(name, "_", c, "")
  }

  /** The entry names DownloadAssetsAsZipAsync gives the files `names`, in order. */
  function AsWrittenNames(names: seq<string>): (r: seq<string>)
    ensures |r| == |names|
    decreases |names|
  {
    if |names| == 0 then []
    else
      var last := names[|names| - 1];
      AsWrittenNames(names[..|names| - 1]) + [Renamed(last, CountLower(names, Lower(last)))]
  }

  /** The i-th entry is named by how many files of its lower-case name came
      before it, itself included. */
  lemma {:induction false} AsWrittenNamesAt(names: seq<string>, i: nat)
    requires i < |names|
    ensures AsWrittenNames(names)[i] == Renamed(names[i], CountLower(names[..i + 1], Lower(names[i])))
    decreases |names|
  {
    var init, last := names[..|names| - 1], names[|names| - 1];
    var r := Renamed(last, CountLower(names, Lower(last)));
    assert AsWrittenNames(names) == AsWrittenNames(init) + [r];
    if i < |names| - 1 {
      AsWrittenNamesAt(init, i);
      assert init[..i + 1] == names[..i + 1] && init[i] == names[i];
      SnocAt(AsWrittenNames(init), r, i);
    } else {
      TakeAll(names);
    }
  }

  lemma SnocAt<T>(xs: seq<T>, y: T, i: nat)
    requires i < |xs|
    ensures (xs + [y])[i] == xs[i]
  {
  }

  /** `counts` maps each lower-case name of `s` to how often it occurs. */
  ghost predicate Tallies(counts: map<string, nat>, s: seq<string>) {
    forall key :: (key in counts <==> CountLower(s, key) > 0) &&
      (key in counts ==> counts[key] == CountLower(s, key))
  }

  lemma TalliesStep(counts: map<string, nat>, s: seq<string>, x: string)
    requires Tallies(counts, s)
    ensures Tallies(counts[Lower(x) := if Lower(x) in counts then counts[Lower(x)] + 1 else 1], s + [x])
  {
    forall key ensures CountLower(s + [x], key) == CountLower(s, key) + (if Lower(x) == key then 1 else 0) {
      CountLowerSnoc(s, x, key);
    }
  }

  /** One more file: its name follows from the count before it. */
  lemma AsWrittenStep(names: seq<string>, i: nat, counts: map<string, nat>)
    requires i < |names|
    requires Tallies(counts, names[..i])
    ensures AsWrittenNames(names[..i + 1]) == AsWrittenNames(names[..i]) +
      [if Lower(names[i]) in counts then Numbered(names[i], "_", counts[Lower(names[i])] + 1, "") else names[i]]
  {
    TakeSnoc(names, i);
    var s := names[..i + 1];
    assert s[..|s| - 1] == names[..i];
    CountLowerSnoc(names[..i], names[i], Lower(names[i]));
  }

  /** The naming loop of DownloadAssetsAsZipAsync as written: a dictionary
      counts the files seen per lower-case name, and only the original names
      are counted, never the renamed entries. */
  method EntryNamesAsWritten(names: seq<string>) returns (entries: seq<string>)
    ensures entries == AsWrittenNames(names)
  {
    var counts: map<string, nat> := map[];
    entries := [];
    for i := 0 to |names|
      invariant entries == AsWrittenNames(names[..i])
      invariant Tallies(counts, names[..i])
    {
      AsWrittenStep(names, i, counts);
      TalliesStep(counts, names[..i], names[i]);
      TakeSnoc(names, i);
      var name;
      name, counts := CountOne(names[i], counts);
      entries := entries + [name];
    }
    TakeAll(names);
  }

  /** One file of the loop: bump its lower-case name's count, and rename it
      when the name was seen before. */
  method CountOne(fileName: string, counts: map<string, nat>) returns (name: string, counts': map<string, nat>)
    ensures counts' == counts[Lower(fileName) := if Lower(fileName) in counts then counts[Lower(fileName)] + 1 else 1]
    ensures name == if Lower(fileName) in counts then Numbered(fileName, "_", counts[Lower(fileName)] + 1, "") else fileName
  {
    name := fileName;
    counts' := counts;
    if Lower(name) in counts' {
      counts' := counts'[Lower(name) := counts'[Lower(name)] + 1];
      name := Numbered(name, "_", counts'[Lower(fileName)], "");
    } else {
      counts' := counts'[Lower(name) := 1];
    }
  }

  /** Files that share a lower-case name get entry names that differ from
      each other, ignoring case: their counts differ. */
  lemma CountedNamesSameOriginal(names: seq<string>, i: nat, j: nat)
    requires i < j < |names|
    requires Lower(names[i]) == Lower(names[j])
    requires PlainName(names[j])
    ensures Lower(AsWrittenNames(names)[i]) != Lower(AsWrittenNames(names)[j])
  {
    AsWrittenNamesAt(names, i);
    AsWrittenNamesAt(names, j);
    CountsIncrease(names, i, j);
    RenamedDistinct(names[i], names[j],
      CountLower(names[..i + 1], Lower(names[i])), CountLower(names[..j + 1], Lower(names[j])));
  }

  /** A later file of the same lower-case name has a higher count. */
  lemma CountsIncrease(names: seq<string>, i: nat, j: nat)
    requires i < j < |names|
    requires Lower(names[i]) == Lower(names[j])
    ensures 1 <= CountLower(names[..i + 1], Lower(names[i])) < CountLower(names[..j + 1], Lower(names[j]))
  {
    var key := Lower(names[i]);
    TakeSnoc(names, j);
    CountLowerSnoc(names[..j], names[j], key);
    CountLowerGrows(names, i + 1, j, key);
    TakeSnoc(names, i);
    CountLowerSnoc(names[..i], names[i], key);
  }

  lemma RenamedDistinct(a: string, b: string, m: nat, n: nat)
    requires Lower(a) == Lower(b)
    requires PlainName(b)
    requires 1 <= m < n
    ensures Lower(Renamed(a, m)) != Lower(Renamed(b, n))
  {
    if m == 1 {
      NumberedNotOriginal(a, b, n);
    } else {
      LowerNumberedSameKey(a, b, m, n);
    }
  }

  lemma {:induction false} CountLowerGrows(names: seq<string>, m: nat, n: nat, key: string)
    requires m <= n <= |names|
    ensures CountLower(names[..m], key) <= CountLower(names[..n], key)
    decreases n - m
  {
    if m < n {
      TakeSnoc(names, n - 1);
      CountLowerSnoc(names[..n - 1], names[n - 1], key);
      CountLowerGrows(names, m, n - 1, key);
    }
  }

  /** Names with one lower-case form have the same lower-case file name. */
  lemma LowerFileName(a: string, b: string)
    requires Lower(a) == Lower(b)
    ensures Lower(FileNameOf(a)) == Lower(FileNameOf(b))
  {
    LastIndexLower(a, b, '/');
    LowerSuffix(a, b, LastIndexOfChar(a, '/') + 1);
  }

  lemma LowerSuffix(a: string, b: string, d: nat)
    requires Lower(a) == Lower(b)
    requires d <= |a|
    ensures Lower(a[d..]) == Lower(b[d..])
  {
    LowerSlice(a, b, d, |a|);
    assert a[d..|a|] == a[d..];
    assert b[d..|b|] == b[d..];
  }

  /** Names with one lower-case form have the same lower-case stem and extension. */
  lemma LowerParts(a: string, b: string)
    requires Lower(a) == Lower(b)
    ensures Lower(FileNameWithoutExtension(a)) == Lower(FileNameWithoutExtension(b))
    ensures Lower(GetExtension(a)) == Lower(GetExtension(b))
  {
    LowerFileName(a, b);
    var fa, fb := FileNameOf(a), FileNameOf(b);
    LastIndexLower(fa, fb, '.');
    var e := LastIndexOfChar(fa, '.');
    if e >= 0 {
      LowerSlice(fa, fb, 0, e);
      LowerSlice(fa, fb, e, |fa|);
      assert fa[e..|fa|] == fa[e..] && fb[e..|fb|] == fb[e..];
    }
  }

  /** Equal lower-case forms have equal lower-case slices. */
  lemma LowerSlice(a: string, b: string, i: nat, j: nat)
    requires Lower(a) == Lower(b)
    requires i <= j <= |a|
    ensures Lower(a[i..j]) == Lower(b[i..j])
  {
    assert |a| == |Lower(a)| == |b|;
    forall k | 0 <= k < j - i ensures Lower(a[i..j])[k] == Lower(b[i..j])[k] {
      assert Lower(a[i..j])[k] == LowerChar(a[i + k]) == Lower(a)[i + k];
      assert Lower(b[i..j])[k] == LowerChar(b[i + k]) == Lower(b)[i + k];
    }
  }

  /** Lower-casing keeps '/' and '.' where they are. */
  lemma {:induction false} LastIndexLower(a: string, b: string, c: char)
    requires Lower(a) == Lower(b)
    requires c == '/' || c == '.'
    ensures LastIndexOfChar(a, c) == LastIndexOfChar(b, c)
    decreases |a|
  {
    assert |a| == |b|;
    if |a| > 0 {
      var n := |a| - 1;
      assert LowerChar(a[n]) == Lower(a)[n] == Lower(b)[n] == LowerChar(b[n]);
      assert a[n] == c <==> b[n] == c;
      if a[n] != c {
        LowerSlice(a, b, 0, n);
        LastIndexLower(a[..n], b[..n], c);
      }
    }
  }

  lemma LowerNumberedSameKey(a: string, b: string, m: nat, n: nat)
    requires Lower(a) == Lower(b)
    requires m != n
    ensures Lower(Numbered(a, "_", m, "")) != Lower(Numbered(b, "_", n, ""))
  {
    LowerParts(a, b);
    LowerNumbered(a, "_", m, "");
    LowerNumbered(b, "_", n, "");
    LowerNumbered(a, "_", n, "");
    if Lower(Numbered(a, "_", m, "")) == Lower(Numbered(b, "_", n, "")) {
      NumberedInjective(a, "_", m, n, "");
    }
  }

  /** A renamed entry never has the lower-case form of its own original name
      (it is longer by "_" and the digits). */
  lemma NumberedNotOriginal(a: string, b: string, n: nat)
    requires Lower(a) == Lower(b)
    requires PlainName(b)
    ensures Lower(a) != Lower(Numbered(b, "_", n, ""))
  {
    StemAndExtension(b);
    assert |Lower(a)| == |b|;
  }

  /** A file name with no directory part that does not end in '.'. */
  predicate PlainName(name: string) {
    '/' !in name && (|name| == 0 || name[|name| - 1] != '.')
  }

  /** A file named "a_2" after two files named "a" gives two entries
      named "a_2". */
  lemma AsWrittenCollision()
    ensures AsWrittenNames(["a", "a", "a_2"]) == ["a", "a_2", "a_2"]
  {
    var names := ["a", "a", "a_2"];
    assert names[..2] == ["a", "a"];
    SampleLower();
    CountLowerSample();
    assert Renamed("a_2", CountLower(names, Lower("a_2"))) == "a_2";
    assert AsWrittenNames(names) == AsWrittenNames(["a", "a"]) + ["a_2"];
    AsWrittenTwo();
  }

  lemma AsWrittenTwo()
    ensures AsWrittenNames(["a", "a"]) == ["a", "a_2"]
  {
    SampleLower();
    CountLowerSample();
    assert ["a", "a"][..1] == ["a"];
    AsWrittenOne();
    RenamedSample();
  }

  lemma RenamedSample()
    ensures Renamed("a", 2) == "a_2"
  {
    SampleNumbered();
  }

  lemma AsWrittenOne()
    ensures AsWrittenNames(["a"]) == ["a"]
  {
    assert ["a"][..0] == [];
    SampleLower();
    CountLowerSample();
  }

  lemma SampleLower()
    ensures Lower("a") == "a" && Lower("a_2") == "a_2"
  {
  }

  lemma SampleNumbered()
    ensures Numbered("a", "_", 2, "") == "a_2"
  {
    assert LastIndexOfChar("a", '/') == -1;
    assert LastIndexOfChar("a", '.') == -1;
    assert FileNameWithoutExtension("a") == "a";
    assert GetExtension("a") == "";
    assert DecimalString(2) == "2";
  }

  lemma CountLowerSample()
    ensures CountLower(["a"], "a") == 1
    ensures CountLower(["a", "a"], "a") == 2
    ensures CountLower(["a", "a", "a_2"], "a_2") == 1
  {
    SampleLower();
    assert ["a"][..0] == [];
    assert ["a", "a"][..1] == ["a"];
    assert ["a", "a", "a_2"][..2] == ["a", "a"];
    assert CountLower(["a"], "a_2") == 0;
    assert CountLower(["a", "a"], "a_2") == 0;
  }

  // ------------------------------------------------------------ corrected

  /** Every "stem_k.ext" with lo <= k < hi is taken, ignoring case. */
  ghost predicate AllTaken(name: string, lo: nat, hi: nat, used: set<string>) {
    forall k | lo <= k < hi :: Lower(Numbered(name, "_", k, "")) in used
  }

  lemma TakenBound(name: string, hi: nat, used: set<string>)
    requires hi >= 2
    requires AllTaken(name, 2, hi, used)
    ensures hi - 2 <= |used|
  {
    NumberedBound(name, "_", "", 2, hi - 2, used);
  }

  /** The entry name for one more file: its own name when no entry so far has
      its lower-case form, else "stem_k.ext" for the smallest k >= 2 that is
      not taken. */
  method FreshEntryName(name: string, used: set<string>) returns (entry: string)
    ensures Lower(entry) !in used
    ensures Lower(name) !in used ==> entry == name
    ensures Lower(name) in used ==>
      exists k :: k >= 2 && entry == Numbered(name, "_", k, "") && AllTaken(name, 2, k, used)
  {
    entry := name;
    if Lower(name) in used {
      var k: nat := 2;
      while Lower(Numbered(name, "_", k, "")) in used
        invariant k >= 2
        invariant AllTaken(name, 2, k, used)
        decreases |used| + 2 - k
      {
        TakenBound(name, k + 1, used);
        k := k + 1;
      }
      entry := Numbered(name, "_", k, "");
    }
  }

  /** `entry` is `name` or a numbered form of it. */
  ghost predicate RenamedFrom(name: string, entry: string) {
    entry == name || exists k :: k >= 2 && entry == Numbered(name, "_", k, "")
  }

  /** The lower-case forms of the entries named so far. */
  ghost predicate Records(used: set<string>, entries: seq<string>) {
    forall x :: x in used <==> exists j | 0 <= j < |entries| :: Lower(entries[j]) == x
  }

  /** No two entries share a lower-case form. */
  ghost predicate DistinctIgnoringCase(entries: seq<string>) {
    forall a, b | 0 <= a < b < |entries| :: Lower(entries[a]) != Lower(entries[b])
  }

  /** Each entry keeps its file's name unless an earlier entry has its
      lower-case form, and is otherwise a numbered form of it. */
  ghost predicate NamedAfter(names: seq<string>, entries: seq<string>) {
    |entries| <= |names| && KeepsFirst(names, entries) && AllRenamedFrom(names, entries)
  }

  ghost predicate KeepsFirst(names: seq<string>, entries: seq<string>)
    requires |entries| <= |names|
  {
    forall a | 0 <= a < |entries| ::
      (forall j | 0 <= j < a :: Lower(entries[j]) != Lower(names[a])) ==> entries[a] == names[a]
  }

  ghost predicate AllRenamedFrom(names: seq<string>, entries: seq<string>)
    requires |entries| <= |names|
  {
    forall a | 0 <= a < |entries| :: RenamedFrom(names[a], entries[a])
  }

  lemma EntryStep(names: seq<string>, entries: seq<string>, used: set<string>, entry: string)
    requires Records(used, entries) && DistinctIgnoringCase(entries) && NamedAfter(names, entries)
    requires |entries| < |names|
    requires Lower(entry) !in used
    requires Lower(names[|entries|]) !in used ==> entry == names[|entries|]
    requires RenamedFrom(names[|entries|], entry)
    ensures Records(used + {Lower(entry)}, entries + [entry])
    ensures DistinctIgnoringCase(entries + [entry])
    ensures NamedAfter(names, entries + [entry])
  {
    RecordsStep(used, entries, entry);
    DistinctStep(entries, used, entry);
    NamedAfterStep(names, entries, used, entry);
  }

  lemma DistinctStep(entries: seq<string>, used: set<string>, entry: string)
    requires Records(used, entries) && DistinctIgnoringCase(entries)
    requires Lower(entry) !in used
    ensures DistinctIgnoringCase(entries + [entry])
  {
    var e := entries + [entry];
    forall a, b | 0 <= a < b < |e| ensures Lower(e[a]) != Lower(e[b]) {
      if b == |entries| {
        assert Lower(entries[a]) in used;
      } else {
        assert e[a] == entries[a] && e[b] == entries[b];
      }
    }
  }

  lemma NamedAfterStep(names: seq<string>, entries: seq<string>, used: set<string>, entry: string)
    requires Records(used, entries) && NamedAfter(names, entries)
    requires |entries| < |names|
    requires Lower(names[|entries|]) !in used ==> entry == names[|entries|]
    requires RenamedFrom(names[|entries|], entry)
    ensures NamedAfter(names, entries + [entry])
  {
    KeepsFirstStep(names, entries, used, entry);
    RenamedStep(names, entries, entry);
  }

  lemma KeepsFirstStep(names: seq<string>, entries: seq<string>, used: set<string>, entry: string)
    requires Records(used, entries)
    requires |entries| < |names| && KeepsFirst(names, entries)
    requires Lower(names[|entries|]) !in used ==> entry == names[|entries|]
    ensures KeepsFirst(names, entries + [entry])
  {
    var e := entries + [entry];
    var i := |entries|;
    if forall j | 0 <= j < i :: Lower(e[j]) != Lower(names[i]) {
      forall j | 0 <= j < i ensures Lower(entries[j]) != Lower(names[i]) {
        assert e[j] == entries[j];
      }
    }
    forall a | 0 <= a < i ensures
      (forall j | 0 <= j < a :: Lower(e[j]) != Lower(names[a])) ==> e[a] == names[a]
    {
      assert forall j | 0 <= j <= a :: e[j] == entries[j];
    }
  }

  lemma RenamedStep(names: seq<string>, entries: seq<string>, entry: string)
    requires |entries| < |names| && AllRenamedFrom(names, entries)
    requires RenamedFrom(names[|entries|], entry)
    ensures AllRenamedFrom(names, entries + [entry])
  {
    var e := entries + [entry];
    forall a | 0 <= a < |e| ensures RenamedFrom(names[a], e[a]) {
      if a < |entries| {
        assert e[a] == entries[a];
      }
    }
  }

  /** The naming loop with the collision removed: a set holds the lower-case
      forms of the entry names already given, and each file gets the first
      free one. */
  method EntryNames(names: seq<string>) returns (entries: seq<string>)
    ensures |entries| == |names|
    ensures DistinctIgnoringCase(entries)
    ensures NamedAfter(names, entries)
  {
    var used: set<string> := {};
    entries := [];
    for i := 0 to |names|
      invariant |entries| == i
      invariant Records(used, entries)
      invariant DistinctIgnoringCase(entries)
      invariant NamedAfter(names, entries)
    {
      var entry := FreshEntryName(names[i], used);
      EntryStep(names, entries, used, entry);
      entries := entries + [entry];
      used := used + {Lower(entry)};
    }
  }

  lemma RecordsStep(used: set<string>, entries: seq<string>, entry: string)
    requires Records(used, entries)
    ensures Records(used + {Lower(entry)}, entries + [entry])
  {
    var e := entries + [entry];
    forall x ensures x in used + {Lower(entry)} <==> exists j | 0 <= j < |e| :: Lower(e[j]) == x {
      if x in used {
        var j :| 0 <= j < |entries| && Lower(entries[j]) == x;
        assert Lower(e[j]) == x;
      }
      if x == Lower(entry) {
        assert Lower(e[|entries|]) == x;
      }
    }
  }

  // ------------------------------------------------------------ the download

  /** DownloadAssetsAsZipAsync: None when no asset is selected; otherwise an
      entry per selected asset whose file exists, in order, each entry name
      distinct from the others ignoring case. */
  method DownloadAssetsAsZip(assetIds: seq<Guid>, companyId: Option<Guid>, store: seq<Asset>,
                             fileExists: string -> bool) returns (r: Option<seq<ZipEntry>>)
    ensures r.None? <==> forall a | a in store :: !Selected(a, assetIds, companyId)
    ensures r.Some? ==>
      var files := Filter(Filter(store, Selection(assetIds, companyId)), OnDisk(fileExists));
      |r.value| == |files| &&
      (forall i | 0 <= i < |files| :: r.value[i].filePath == files[i].filePath) &&
      DistinctIgnoringCase(EntryNamesIn(r.value)) &&
      NamedAfter(NamesOf(files), EntryNamesIn(r.value))
  {
    var selected := Filter(store, Selection(assetIds, companyId));
    if |selected| == 0 {
      forall a | a in store ensures !Selected(a, assetIds, companyId) {
        assert a !in selected;
      }
      return None;
    }
    assert selected[0] in store && Selected(selected[0], assetIds, companyId);
    var files := Filter(selected, OnDisk(fileExists));
    var names := EntryNames(NamesOf(files));
    r := Some(seq(|files|, i requires 0 <= i < |files| => ZipEntry(names[i], files[i].filePath)));
    assert EntryNamesIn(r.value) == names;
  }

  function EntryNamesIn(entries: seq<ZipEntry>): (r: seq<string>)
    ensures |r| == |entries| && forall i | 0 <= i < |entries| :: r[i] == entries[i].name
  {
    seq(|entries|, i requires 0 <= i < |entries| => entries[i].name)
  }
}

/** AdvancedSearchAssetsAsync: scope the asset table to the caller's
    company and folder, compile the conditions, fold them with AND or OR,
    order, count and page. The reference result `Expected` is written in
    terms of the conditions' reference predicates. */
module SearchExecutor {
  import opened Wrappers
  import opened Base
  import opened Text
  import opened SqlLike
  import opened Seqs
  import opened Assets
  import opened PredicateBuilder
  import opened SearchDtos
  import opened SearchValues
  import opened SearchAtoms
  import opened SearchCompiler
  import opened AssetOrder

  /** PagedAssetResultDto (the mapping of rows to AssetDto is not modelled). */
  datatype PagedResult = PagedResult(assets: seq<Asset>, total: int, page: int, hasMore: bool)

  /** `request ?? new AdvancedSearchRequestDto()`. */
  function Normalize(request: Option<Request>): Request {
    request.GetOr(DefaultRequest())
  }

  /** Rows of the caller's company (or of no company) that are not in the bin,
      restricted to the requested folder when there is one. */
  predicate InScope(a: Asset, companyId: Option<Guid>, folderId: Option<Guid>) {
    a.companyId == companyId && !a.isDeleted && (folderId.Some? ==> a.folderId == folderId)
  }

  /** `string.Equals(Logic, "OR", OrdinalIgnoreCase)`. */
  predicate UseOr(logic: string) {
    EqualsIgnoreCase(logic, "OR")
  }

  function Scope(companyId: Option<Guid>, folderId: Option<Guid>): Asset -> bool {
    a => InScope(a, companyId, folderId)
  }

  /** Filtering by a compiled predicate. */
  function Passes(f: Lambda<Atom>, fold: char -> char): Asset -> bool
    requires Closed(f)
  {
    a => Sat(f, a, fold)
  }

  /** The rows a request selects, before ordering. */
  ghost function Selector(req: Request, companyId: Option<Guid>, ps: Parsers, fold: char -> char): Asset -> bool {
    Selects(req.conditions, req.logic, req.folderId, companyId, ps, fold)
  }

  ghost function Selects(conds: seq<Option<Condition>>, logic: string, folderId: Option<Guid>,
                         companyId: Option<Guid>, ps: Parsers, fold: char -> char): Asset -> bool {
    a => InScope(a, companyId, folderId) && Matches(conds, logic, ps, fold, a)
  }

  /** The row passes the request's conditions. When no condition yields a
      predicate, nothing is filtered, whatever the logic. */
  ghost predicate Matches(conds: seq<Option<Condition>>, logic: string, ps: Parsers, fold: char -> char, a: Asset) {
    !AnyBuilds(conds, ps) ||
    (if UseOr(logic) then SomeAdmits(conds, ps, a, fold) else AllAdmit(conds, ps, a, fold))
  }

  /** Page numbers below 1 mean page 1; page sizes below 1 mean "no paging". */
  function Paginate(sorted: seq<Asset>, page: int, pageSize: Option<int>): (r: PagedResult)
    ensures r.page >= 1 && r.total == |sorted|
    ensures pageSize.None? || pageSize.value <= 0 ==> r.assets == sorted && !r.hasMore
    ensures pageSize.Some? && pageSize.value > 0 ==> |r.assets| <= pageSize.value
    ensures forall x | x in r.assets :: x in sorted
  {
    var page := if page > 0 then page else 1;
    if pageSize.Some? && pageSize.value > 0 then
      var n := pageSize.value;
      PagedResult(Window(sorted, (page - 1) * n, n), |sorted|, page, page * n < |sorted|)
    else
      PagedResult(sorted, |sorted|, page, false)
  }

  /** The rows a request selects, in order, counted and paged. */
  ghost function Expected(request: Option<Request>, companyId: Option<Guid>, assets: seq<Asset>,
                          ps: Parsers, db: Db): PagedResult
  {
    var req := Normalize(request);
    Paginate(Ordered(req, companyId, assets, ps, db), req.page, req.pageSize)
  }

  /** The rows a request selects, in the requested order, before paging. */
  ghost function Ordered(req: Request, companyId: Option<Guid>, assets: seq<Asset>, ps: Parsers, db: Db): seq<Asset> {
    SortAssets(Filter(assets, Selector(req, companyId, ps, db.fold)), ApplySorting(req.sortBy, req.sortDir), db)
  }

  /** AdvancedSearchAssetsAsync. The logging loop reads each condition's
      Field before any condition is compiled, so a null entry in Conditions
      fails the whole call; so does a date condition whose day DateTime
      cannot end. */
  method AdvancedSearch(request: Option<Request>, companyId: Option<Guid>, assets: seq<Asset>,
                        ps: Parsers, db: Db) returns (r: Result<PagedResult>)
    ensures r.Err? <==>
      (exists i | 0 <= i < |Normalize(request).conditions| :: Normalize(request).conditions[i].None?) ||
      AnyThrows(Normalize(request).conditions, ps)
    ensures r.Ok? && AllMeaningDefined(Normalize(request).conditions) ==>
      r.value == Expected(request, companyId, assets, ps, db)
  {
    var req := Normalize(request);
    for i := 0 to |req.conditions|
      invariant forall j | 0 <= j < i :: req.conditions[j].Some?
    {
      if req.conditions[i].None? {
        return Err("NullReferenceException");
      }
    }
    var filtered := SelectAssets(req, companyId, assets, ps, db);
    if filtered.Err? {
      return Err(filtered.message);
    }
    r := Ok(Paginate(SortAssets(filtered.value, ApplySorting(req.sortBy, req.sortDir), db), req.page, req.pageSize));
  }

  /** The query before ordering: the scope filter, then the combined
      condition predicate when there is at least one. */
  method SelectAssets(req: Request, companyId: Option<Guid>, assets: seq<Asset>, ps: Parsers, db: Db)
    returns (r: Result<seq<Asset>>)
    ensures r.Err? <==> AnyThrows(req.conditions, ps)
    ensures r.Ok? && AllMeaningDefined(req.conditions) ==> r.value == Filter(assets, Selector(req, companyId, ps, db.fold))
  {
    var scoped := Filter(assets, Scope(companyId, req.folderId));
    var built := BuildConditionPredicates(req.conditions, ps);
    if built.Err? {
      return Err(built.message);
    }
    var preds := built.value;
    var filtered := scoped;
    if |preds| > 0 {
      var useOr := UseOr(req.logic);
      var combined := CombinePredicates(preds, useOr);
      filtered := Filter(scoped, Passes(combined, db.fold));
      if AllMeaningDefined(req.conditions) {
        SelectionMatches(req, companyId, assets, ps, db, preds, combined, useOr);
      }
    } else {
      SelectionUnfiltered(req, companyId, assets, ps, db);
    }
    r := Ok(filtered);
  }

  /** The foreach that folds the predicates into one, starting from
      False() for OR and from True() for AND. */
  method CombinePredicates(preds: seq<Lambda<Atom>>, useOr: bool) returns (combined: Lambda<Atom>)
    requires AllClosed(preds)
    ensures Closed(combined)
    ensures Combines(combined, preds, useOr)
  {
    combined := if useOr then False() else True();
    for k := 0 to |preds|
      invariant Closed(combined)
      invariant Combines(combined, preds[..k], useOr)
    {
      CombineStep(combined, preds, k, useOr);
      combined := if useOr then Or(combined, preds[k]) else And(combined, preds[k]);
    }
    TakeAll(preds);
  }

  /** `combined` is the AND (or the OR) of `preds`. */
  ghost predicate Combines(combined: Lambda<Atom>, preds: seq<Lambda<Atom>>, useOr: bool)
    requires Closed(combined) && AllClosed(preds)
  {
    forall a, fold :: Sat(combined, a, fold) <==>
      if useOr then AnyHolds(preds, a, HoldsFn(fold)) else AllHold(preds, a, HoldsFn(fold))
  }

  lemma CombineStep(combined: Lambda<Atom>, preds: seq<Lambda<Atom>>, k: nat, useOr: bool)
    requires k < |preds| && AllClosed(preds) && Closed(combined)
    requires Combines(combined, preds[..k], useOr)
    ensures Closed(if useOr then Or(combined, preds[k]) else And(combined, preds[k]))
    ensures Combines(if useOr then Or(combined, preds[k]) else And(combined, preds[k]), preds[..k + 1], useOr)
  {
    TakeSnoc(preds, k);
    var next := if useOr then Or(combined, preds[k]) else And(combined, preds[k]);
    AndMeaning(combined, preds[k], DefaultAsset(), HoldsFn(Ordinal));
    OrMeaning(combined, preds[k], DefaultAsset(), HoldsFn(Ordinal));
    forall a, fold ensures Sat(next, a, fold) <==>
      if useOr then AnyHolds(preds[..k + 1], a, HoldsFn(fold)) else AllHold(preds[..k + 1], a, HoldsFn(fold))
    {
      AndMeaning(combined, preds[k], a, HoldsFn(fold));
      OrMeaning(combined, preds[k], a, HoldsFn(fold));
      HoldsAppend(preds[..k], preds[k], a, HoldsFn(fold));
    }
  }

  /** With predicates built, scoping then filtering by the combined
      predicate selects the rows Expected does. */
  lemma SelectionMatches(req: Request, companyId: Option<Guid>, assets: seq<Asset>, ps: Parsers, db: Db,
                         preds: seq<Lambda<Atom>>, combined: Lambda<Atom>, useOr: bool)
    requires AllMeaningDefined(req.conditions)
    requires AllClosed(preds) && |preds| > 0 && Closed(combined)
    requires |preds| == 0 <==> !AnyBuilds(req.conditions, ps)
    requires Agrees(preds, req.conditions, ps)
    requires useOr == UseOr(req.logic)
    requires Combines(combined, preds, useOr)
    ensures Filter(Filter(assets, Scope(companyId, req.folderId)), Passes(combined, db.fold)) ==
      Filter(assets, Selector(req, companyId, ps, db.fold))
  {
    forall x | x in assets
      ensures Selector(req, companyId, ps, db.fold)(x) == (Scope(companyId, req.folderId)(x) && Passes(combined, db.fold)(x))
    {
      CombinedMeans(req, ps, preds, combined, useOr, x, db.fold);
    }
    FilterFilter(assets, Scope(companyId, req.folderId), Passes(combined, db.fold), Selector(req, companyId, ps, db.fold));
  }

  lemma CombinedMeans(req: Request, ps: Parsers, preds: seq<Lambda<Atom>>, combined: Lambda<Atom>,
                      useOr: bool, a: Asset, fold: char -> char)
    requires AllClosed(preds) && |preds| > 0 && Closed(combined)
    requires |preds| == 0 <==> !AnyBuilds(req.conditions, ps)
    requires Agrees(preds, req.conditions, ps)
    requires useOr == UseOr(req.logic)
    requires Combines(combined, preds, useOr)
    ensures Sat(combined, a, fold) <==> Matches(req.conditions, req.logic, ps, fold, a)
  {
    assert Sat(combined, a, fold) <==>
      if useOr then AnyHolds(preds, a, HoldsFn(fold)) else AllHold(preds, a, HoldsFn(fold));
    assert (AllHold(preds, a, HoldsFn(fold)) <==> AllAdmit(req.conditions, ps, a, fold)) &&
      (AnyHolds(preds, a, HoldsFn(fold)) <==> SomeAdmits(req.conditions, ps, a, fold));
  }

  /** With no predicate built, the scope alone selects the rows Expected does. */
  lemma SelectionUnfiltered(req: Request, companyId: Option<Guid>, assets: seq<Asset>, ps: Parsers, db: Db)
    requires !AnyBuilds(req.conditions, ps)
    ensures Filter(assets, Scope(companyId, req.folderId)) == Filter(assets, Selector(req, companyId, ps, db.fold))
  {
    FilterCongruent(assets, Scope(companyId, req.folderId), Selector(req, companyId, ps, db.fold));
  }

  // ------------------------------------------------------------ properties

  /** Every row returned belongs to the caller's scope and passes the conditions. */
  lemma ExpectedSound(request: Option<Request>, companyId: Option<Guid>, assets: seq<Asset>, ps: Parsers, db: Db)
    ensures forall a | a in Expected(request, companyId, assets, ps, db).assets ::
      a in assets && InScope(a, companyId, Normalize(request).folderId) && Matches(Normalize(request).conditions, Normalize(request).logic, ps, db.fold, a)
  {
    var req := Normalize(request);
    var matching := Filter(assets, Selector(req, companyId, ps, db.fold));
    var sorted := SortAssets(matching, ApplySorting(req.sortBy, req.sortDir), db);
    forall a | a in sorted ensures a in matching {
      assert a in multiset(sorted);
    }
  }

  /** The rows come back in the order ApplySorting chooses. */
  lemma ExpectedOrdered(request: Option<Request>, companyId: Option<Guid>, assets: seq<Asset>, ps: Parsers, db: Db)
    ensures Sorted(Expected(request, companyId, assets, ps, db).assets,
                   ApplySorting(Normalize(request).sortBy, Normalize(request).sortDir), db)
  {
    var req := Normalize(request);
    var o := ApplySorting(req.sortBy, req.sortDir);
    var sorted := SortAssets(Filter(assets, Selector(req, companyId, ps, db.fold)), o, db);
    PaginateSorted(sorted, req.page, req.pageSize, o, db);
  }

  lemma PaginateSorted(sorted: seq<Asset>, page: int, pageSize: Option<int>, o: SortOrder, db: Db)
    requires Sorted(sorted, o, db)
    ensures Sorted(Paginate(sorted, page, pageSize).assets, o, db)
  {
    if pageSize.Some? && pageSize.value > 0 {
      var page := if page > 0 then page else 1;
      WindowSorted(sorted, (page - 1) * pageSize.value, pageSize.value, o, db);
    }
  }

  lemma WindowSorted(s: seq<Asset>, skip: nat, take: nat, o: SortOrder, db: Db)
    requires Sorted(s, o, db)
    ensures Sorted(Window(s, skip, take), o, db)
  {
    var w := Window(s, skip, take);
    forall i, j | 0 <= i < j < |w| ensures Before(w[i], w[j], o, db) {
      assert w[i] == s[skip + i] && w[j] == s[skip + j];
    }
  }

  /** Without paging, every matching row is returned exactly once, and
      Total counts them. */
  lemma ExpectedUnpaged(request: Option<Request>, companyId: Option<Guid>, assets: seq<Asset>, ps: Parsers, db: Db)
    requires Normalize(request).pageSize.None? || Normalize(request).pageSize.value <= 0
    ensures multiset(Expected(request, companyId, assets, ps, db).assets) ==
      multiset(Filter(assets, Selector(Normalize(request), companyId, ps, db.fold)))
    ensures Expected(request, companyId, assets, ps, db).total == |Expected(request, companyId, assets, ps, db).assets|
    ensures !Expected(request, companyId, assets, ps, db).hasMore
  {
  }

  /** With a page size, HasMore holds exactly when the next page is not empty,
      and Total counts the matching rows on every page. */
  lemma ExpectedHasMore(req: Request, companyId: Option<Guid>, assets: seq<Asset>, ps: Parsers, db: Db)
    requires req.pageSize.Some? && req.pageSize.value > 0 && req.page > 0
    ensures Expected(Some(req), companyId, assets, ps, db).hasMore <==>
      |Expected(Some(req.(page := req.page + 1)), companyId, assets, ps, db).assets| > 0
    ensures Expected(Some(req), companyId, assets, ps, db).total ==
      Expected(Some(req.(page := req.page + 1)), companyId, assets, ps, db).total
  {
    var next := req.(page := req.page + 1);
    var sorted := Ordered(req, companyId, assets, ps, db);
    assert Selector(next, companyId, ps, db.fold) == Selector(req, companyId, ps, db.fold);
    assert Ordered(next, companyId, assets, ps, db) == sorted;
    PaginateHasMore(sorted, req.page, req.pageSize.value);
  }

  lemma PaginateHasMore(sorted: seq<Asset>, page: int, n: int)
    requires n > 0 && page > 0
    ensures Paginate(sorted, page, Some(n)).hasMore <==> |Paginate(sorted, page + 1, Some(n)).assets| > 0
  {
    NextPageNonEmpty(sorted, n, page);
  }

  /** C#'s unchecked `int` product: the value modulo 2^32, read as a signed 32-bit integer. */
  function Wrap32(x: int): (r: int)
    ensures -0x8000_0000 <= r < 0x8000_0000
    ensures (x - r) % 0x1_0000_0000 == 0
    ensures -0x8000_0000 <= x < 0x8000_0000 ==> r == x
  {
    var m := x % 0x1_0000_0000;
    if m >= 0x8000_0000 then m - 0x1_0000_0000 else m
  }

  /** `HasMore` as written: `page * pageSize.Value < total`, with the product
      in 32-bit arithmetic. */
  function HasMoreAsWritten(page: int, pageSize: int, total: int): bool {
    Wrap32(page * pageSize) < total
  }

  /** Page 32768 of size 65536 over one row: the offset 32767 * 65536 still
      fits in 32 bits, so the page is the one the source asks for, and it is
      empty; the product 32768 * 65536 = 2^31 wraps to -2^31, so the page
      reports more rows, where nothing follows it. */
  lemma HasMoreWraps(a: Asset)
    ensures Wrap32((32768 - 1) * 65536) == (32768 - 1) * 65536
    ensures HasMoreAsWritten(32768, 65536, 1)
    ensures Paginate([a], 32768, Some(65536)).assets == []
    ensures !Paginate([a], 32768, Some(65536)).hasMore
  {
    assert 32768 * 65536 == 0x8000_0000;
    assert Wrap32(0x8000_0000) == -0x8000_0000;
  }

  /** While the product fits in 32 bits, the two agree. */
  lemma HasMoreAsWrittenAgrees(page: int, pageSize: int, total: int)
    requires -0x8000_0000 <= page * pageSize < 0x8000_0000
    ensures HasMoreAsWritten(page, pageSize, total) <==> page * pageSize < total
  {
  }

  /** When no condition yields a predicate, the search returns every row in scope. */
  lemma UnbuiltConditionsKeepScope(req: Request, companyId: Option<Guid>, ps: Parsers, fold: char -> char, a: Asset)
    requires !AnyBuilds(req.conditions, ps)
    ensures Selector(req, companyId, ps, fold)(a) <==> InScope(a, companyId, req.folderId)
  {
  }
}

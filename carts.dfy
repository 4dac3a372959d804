/** CartService: each user's download cart, a list of CartItems that point at
    assets. A user holds an asset in the cart at most once. */
module Carts {
  import opened Wrappers
  import opened Base
  import opened Seqs
  import opened Sorting
  import opened Assets
  import opened IdChecks

  datatype CartItem = CartItem(id: Guid, userId: string, assetId: Guid, companyId: Option<Guid>, addedAt: Ticks)

  /** A CartItemDto: the item with its asset's file columns. */
  datatype CartLine = CartLine(
    id: Guid, assetId: Guid, fileName: string, fileType: Option<string>, fileSize: int, filePath: string, addedAt: Ticks)

  /** A CartSummaryDto. */
  datatype CartSummary = CartSummary(totalItems: nat, items: seq<CartLine>)

  const AccessDeniedMessage: string := "Asset not found or access denied"

  function ItemKey(): CartItem -> Guid {
    (it: CartItem) => it.id
  }

  /** What AddToCartAsync looks up first: the user's item for the asset. */
  function ItemPair(): CartItem -> (string, Guid) {
    (it: CartItem) => (it.userId, it.assetId)
  }

  /** Unique item ids and at most one item per user and asset. */
  ghost predicate ValidItems(items: seq<CartItem>) {
    UniqueKeys(items, ItemKey()) && UniqueKeys(items, ItemPair())
  }

  // ---------------------------------------------------------------------
  // Reading the cart

  /** The item's Asset navigation: the asset row with its id, if any. */
  function AssetOf(assets: seq<Asset>, assetId: Guid): (r: Option<Asset>)
    ensures r.Some? ==> r.value in assets && r.value.id == assetId
    ensures r.None? ==> forall a | a in assets :: a.id != assetId
  {
    var i := FirstIndex(assets, AssetIdIs(assetId));
    if i < 0 then None else Some(assets[i])
  }

  /** ci.Asset != null && !ci.Asset.IsDeleted. */
  predicate LiveAsset(assets: seq<Asset>, assetId: Guid) {
    var a := AssetOf(assets, assetId);
    a.Some? && !a.value.isDeleted
  }

  function HasLiveAsset(assets: seq<Asset>): CartItem -> bool {
    (it: CartItem) => LiveAsset(assets, it.assetId)
  }

  /** The cart's scope: the user's items with exactly the given CompanyId
      (a null CompanyId when the user has no company). */
  function InScope(userId: string, companyId: Option<Guid>): CartItem -> bool {
    (it: CartItem) => it.userId == userId && it.companyId == companyId
  }

  function InCart(assets: seq<Asset>, userId: string, companyId: Option<Guid>): CartItem -> bool {
    (it: CartItem) => it.userId == userId && it.companyId == companyId && LiveAsset(assets, it.assetId)
  }

  function NewestFirst(): (CartItem, CartItem) -> bool {
    (a: CartItem, b: CartItem) => a.addedAt >= b.addedAt
  }

  lemma NewestFirstOrders()
    ensures TotalPreorder(NewestFirst())
  {
  }

  /** The items GetCartAsync shows: the scoped items, newest first, without
      those whose asset is missing or deleted. */
  function CartRows(items: seq<CartItem>, assets: seq<Asset>, userId: string, companyId: Option<Guid>): (r: seq<CartItem>)
    ensures forall x | x in r :: x in items && InCart(assets, userId, companyId)(x)
  {
    NewestFirstOrders();
    var scoped := Filter(items, InScope(userId, companyId));
    var sorted := SortBy(scoped, NewestFirst());
    forall x | x in sorted ensures x in scoped {
      SortByMembers(scoped, NewestFirst(), x);
    }
    Filter(sorted, HasLiveAsset(assets))
  }

  /** The shown items are newest first. */
  lemma CartRowsSorted(items: seq<CartItem>, assets: seq<Asset>, userId: string, companyId: Option<Guid>)
    ensures SortedBy(CartRows(items, assets, userId, companyId), NewestFirst())
  {
    NewestFirstOrders();
    var sorted := SortBy(Filter(items, InScope(userId, companyId)), NewestFirst());
    FilterSorted(sorted, HasLiveAsset(assets), NewestFirst());
  }

  /** The shown items are exactly the scoped items with a live asset, each
      as often as in the table. */
  lemma CartRowsExact(items: seq<CartItem>, assets: seq<Asset>, userId: string, companyId: Option<Guid>)
    ensures multiset(CartRows(items, assets, userId, companyId)) == multiset(Filter(items, InCart(assets, userId, companyId)))
    ensures |CartRows(items, assets, userId, companyId)| == |Filter(items, InCart(assets, userId, companyId))|
  {
    NewestFirstOrders();
    var scoped := Filter(items, InScope(userId, companyId));
    var sorted := SortBy(scoped, NewestFirst());
    var r := CartRows(items, assets, userId, companyId);
    FilterPermutedMultiset(sorted, scoped, HasLiveAsset(assets));
    FilterFilter(items, InScope(userId, companyId), HasLiveAsset(assets), InCart(assets, userId, companyId));
    assert |r| == |multiset(r)|;
    assert |Filter(items, InCart(assets, userId, companyId))| == |multiset(Filter(items, InCart(assets, userId, companyId)))|;
  }

  /** The DTO of an item and its asset. */
  function LineFrom(it: CartItem, a: Asset): CartLine {
    CartLine(it.id, it.assetId, a.fileName, a.fileType, a.fileSize, a.filePath, it.addedAt)
  }

  /** The DTO of an item: the item with the file columns of its asset (an
      item without an asset row is never shown). */
  function Line(it: CartItem, assets: seq<Asset>): (r: CartLine)
    ensures LiveAsset(assets, it.assetId) ==>
      exists a | a in assets :: a.id == it.assetId && !a.isDeleted && r == LineFrom(it, a)
  {
    match AssetOf(assets, it.assetId)
    case Some(a) => LineFrom(it, a)
    case None => CartLine(it.id, it.assetId, "", None, 0, "", it.addedAt)
  }

  /** GetCartAsync: one line per shown item, in order, and TotalItems is
      their number. */
  function Cart(items: seq<CartItem>, assets: seq<Asset>, userId: string, companyId: Option<Guid>): (r: CartSummary)
    ensures var rows := CartRows(items, assets, userId, companyId);
      r.totalItems == |r.items| == |rows| &&
      forall k | 0 <= k < |rows| :: r.items[k] == Line(rows[k], assets)
  {
    var rows := CartRows(items, assets, userId, companyId);
    var lines := seq(|rows|, k requires 0 <= k < |rows| => Line(rows[k], assets));
    CartSummary(|lines|, lines)
  }

  /** Each shown line is an item of the user in the company, built from its
      live asset. */
  lemma CartLines(items: seq<CartItem>, assets: seq<Asset>, userId: string, companyId: Option<Guid>, k: nat)
    requires k < |Cart(items, assets, userId, companyId).items|
    ensures var rows := CartRows(items, assets, userId, companyId);
      var line := Cart(items, assets, userId, companyId).items[k];
      rows[k] in items && rows[k].userId == userId && rows[k].companyId == companyId &&
      exists a | a in assets :: a.id == rows[k].assetId && !a.isDeleted && line == LineFrom(rows[k], a)
  {
    var rows := CartRows(items, assets, userId, companyId);
    assert rows[k] in rows;
  }

  /** TotalItems counts the scoped items with a live asset. */
  lemma CartTotal(items: seq<CartItem>, assets: seq<Asset>, userId: string, companyId: Option<Guid>)
    ensures Cart(items, assets, userId, companyId).totalItems == |Filter(items, InCart(assets, userId, companyId))|
  {
    CartRowsExact(items, assets, userId, companyId);
  }

  function Counted(assets: seq<Asset>, userId: string): CartItem -> bool {
    (it: CartItem) => it.userId == userId && LiveAsset(assets, it.assetId)
  }

  /** GetCartCountAsync: the user's items with a live asset, in any company. */
  function CartCount(items: seq<CartItem>, assets: seq<Asset>, userId: string): nat {
    |Filter(items, Counted(assets, userId))|
  }

  /** The count is not scoped by company, so it bounds the cart from above. */
  lemma CartWithinCount(items: seq<CartItem>, assets: seq<Asset>, userId: string, companyId: Option<Guid>)
    ensures Cart(items, assets, userId, companyId).totalItems <= CartCount(items, assets, userId)
  {
    CartTotal(items, assets, userId, companyId);
    FilterWeaker(items, InCart(assets, userId, companyId), Counted(assets, userId));
  }

  /** When every item of the user is in the company, the two agree. */
  lemma CartMatchesCount(items: seq<CartItem>, assets: seq<Asset>, userId: string, companyId: Option<Guid>)
    requires forall it | it in items && it.userId == userId :: it.companyId == companyId
    ensures Cart(items, assets, userId, companyId).totalItems == CartCount(items, assets, userId)
  {
    CartTotal(items, assets, userId, companyId);
    FilterCongruent(items, InCart(assets, userId, companyId), Counted(assets, userId));
  }

  // ---------------------------------------------------------------------
  // Adding

  /** The asset AddToCartAsync accepts: not deleted, in the caller's company
      (no company when the caller has none). */
  function Accessible(assetId: Guid, companyId: Option<Guid>): Asset -> bool {
    (a: Asset) => a.id == assetId && !a.isDeleted && a.companyId == companyId
  }

  function ItemFor(userId: string, assetId: Guid): CartItem -> bool {
    (it: CartItem) => it.userId == userId && it.assetId == assetId
  }

  datatype Added = Added(line: Result<CartLine>, items: seq<CartItem>)

  /** AddToCartAsync on the item table: refused for an inaccessible asset; the
      existing item when the user already holds the asset (in any company);
      otherwise a new item with the fresh `id`. */
  function AddOne(items: seq<CartItem>, assets: seq<Asset>, assetId: Guid, userId: string,
                  companyId: Option<Guid>, id: Guid, now: Ticks): (r: Added)
    ensures r.line.Ok? <==> exists a | a in assets :: Accessible(assetId, companyId)(a)
    ensures r.line.Err? ==> r.line.message == AccessDeniedMessage && r.items == items
    ensures r.line.Ok? ==> r.line.value.assetId == assetId
    ensures r.line.Ok? ==> exists it | it in r.items :: it.id == r.line.value.id && ItemFor(userId, assetId)(it)
    ensures r.items == items || r.items == items + [CartItem(id, userId, assetId, companyId, now)]
    ensures r.items != items ==> forall it | it in items :: !ItemFor(userId, assetId)(it)
  {
    var a := FirstIndex(assets, Accessible(assetId, companyId));
    if a < 0 then Added(Err(AccessDeniedMessage), items)
    else
      var e := FirstIndex(items, ItemFor(userId, assetId));
      if e >= 0 then Added(Ok(LineFrom(items[e], assets[a])), items)
      else
        var it := CartItem(id, userId, assetId, companyId, now);
        assert it in items + [it];
        Added(Ok(LineFrom(it, assets[a])), items + [it])
  }

  /** Adding keeps the table valid when the new id is fresh. */
  lemma AddOneValid(items: seq<CartItem>, assets: seq<Asset>, assetId: Guid, userId: string,
                    companyId: Option<Guid>, id: Guid, now: Ticks)
    requires ValidItems(items)
    requires forall it | it in items :: it.id != id
    ensures ValidItems(AddOne(items, assets, assetId, userId, companyId, id, now).items)
  {
    var r := AddOne(items, assets, assetId, userId, companyId, id, now);
    if r.items != items {
      var n := r.items;
      forall i, j | 0 <= i < j < |n| ensures n[i].id != n[j].id && ItemPair()(n[i]) != ItemPair()(n[j]) {
        if j == |items| {
          assert n[i] in items;
        } else {
          assert n[i] == items[i] && n[j] == items[j];
        }
      }
    }
  }

  /** Adding the same asset again changes nothing and returns the same item. */
  lemma AddOneIdempotent(items: seq<CartItem>, assets: seq<Asset>, assetId: Guid, userId: string,
                         companyId: Option<Guid>, id: Guid, now: Ticks, id2: Guid, later: Ticks)
    requires UniqueKeys(items, ItemPair())
    ensures var r := AddOne(items, assets, assetId, userId, companyId, id, now);
      var again := AddOne(r.items, assets, assetId, userId, companyId, id2, later);
      again.items == r.items && again.line == r.line
  {
    var r := AddOne(items, assets, assetId, userId, companyId, id, now);
    var a := FirstIndex(assets, Accessible(assetId, companyId));
    if a >= 0 {
      var e := FirstIndex(items, ItemFor(userId, assetId));
      if e < 0 {
        var it := CartItem(id, userId, assetId, companyId, now);
        assert r.items == items + [it];
        var e2 := FirstIndex(r.items, ItemFor(userId, assetId));
        assert e2 == |items| by {
          assert forall k | 0 <= k < |items| :: r.items[k] == items[k];
          assert ItemFor(userId, assetId)(r.items[|items|]);
        }
      }
    }
  }

  /** AddMultipleToCartAsync on the item table: AddOne per id in order,
      keeping the successes and skipping the failures; `freshIds[k]` is the
      Guid a new item for `assetIds[k]` would get. */
  function AddAll(items: seq<CartItem>, assets: seq<Asset>, assetIds: seq<Guid>, userId: string,
                  companyId: Option<Guid>, freshIds: seq<Guid>, now: Ticks): (r: (seq<CartLine>, seq<CartItem>))
    requires |freshIds| == |assetIds|
    ensures |r.0| <= |assetIds|
    ensures items <= r.1
    ensures forall it | it in r.1[|items|..] :: it.id in freshIds
    decreases |assetIds|
  {
    if |assetIds| == 0 then ([], items)
    else
      var n := |assetIds| - 1;
      var prev := AddAll(items, assets, assetIds[..n], userId, companyId, freshIds[..n], now);
      var step := AddOne(prev.1, assets, assetIds[n], userId, companyId, freshIds[n], now);
      assert forall it | it in step.items[|items|..] :: it in prev.1[|items|..] || it.id == freshIds[n];
      (prev.0 + (if step.line.Ok? then [step.line.value] else []), step.items)
  }

  /** AddAll over one more id is AddOne on the items AddAll left. */
  lemma AddAllStep(items0: seq<CartItem>, assets: seq<Asset>, assetIds: seq<Guid>, userId: string,
                   companyId: Option<Guid>, freshIds: seq<Guid>, now: Ticks, k: nat,
                   lines: seq<CartLine>, items: seq<CartItem>, r: Result<CartLine>, after: seq<CartItem>)
    requires |freshIds| == |assetIds| && k < |assetIds|
    requires (lines, items) == AddAll(items0, assets, assetIds[..k], userId, companyId, freshIds[..k], now)
    requires Added(r, after) == AddOne(items, assets, assetIds[k], userId, companyId, freshIds[k], now)
    ensures var next := AddAll(items0, assets, assetIds[..k + 1], userId, companyId, freshIds[..k + 1], now);
      next.1 == after && next.0 == if r.Ok? then lines + [r.value] else lines
  {
    assert assetIds[..k + 1][..k] == assetIds[..k];
    assert freshIds[..k + 1][..k] == freshIds[..k];
  }

  function AccessibleId(assets: seq<Asset>, companyId: Option<Guid>): Guid -> bool {
    (x: Guid) => FirstIndex(assets, Accessible(x, companyId)) >= 0
  }

  /** One line per accessible id, and the user then holds every accessible
      asset. */
  lemma {:induction false} AddAllOutcome(items: seq<CartItem>, assets: seq<Asset>, assetIds: seq<Guid>, userId: string,
                                         companyId: Option<Guid>, freshIds: seq<Guid>, now: Ticks)
    requires |freshIds| == |assetIds|
    ensures var r := AddAll(items, assets, assetIds, userId, companyId, freshIds, now);
      |r.0| == |Filter(assetIds, AccessibleId(assets, companyId))| &&
      forall x | x in assetIds && AccessibleId(assets, companyId)(x) ::
        exists it | it in r.1 :: ItemFor(userId, x)(it)
    decreases |assetIds|
  {
    if |assetIds| > 0 {
      var n := |assetIds| - 1;
      assert assetIds == assetIds[..n] + [assetIds[n]];
      AddAllOutcome(items, assets, assetIds[..n], userId, companyId, freshIds[..n], now);
      var prev := AddAll(items, assets, assetIds[..n], userId, companyId, freshIds[..n], now);
      var step := AddOne(prev.1, assets, assetIds[n], userId, companyId, freshIds[n], now);
      var x := assetIds[n];
      assert step.line.Ok? <==> AccessibleId(assets, companyId)(x) by {
        var a := FirstIndex(assets, Accessible(x, companyId));
        if a < 0 {
          assert forall b | b in assets :: !Accessible(x, companyId)(b) by {
            forall b | b in assets ensures !Accessible(x, companyId)(b) {
              var k :| 0 <= k < |assets| && assets[k] == b;
            }
          }
        }
      }
      assert prev.1 <= step.items;
      forall y | y in assetIds && AccessibleId(assets, companyId)(y)
        ensures exists it | it in step.items :: ItemFor(userId, y)(it)
      {
        if y in assetIds[..n] {
          var it :| it in prev.1 && ItemFor(userId, y)(it);
          assert it in step.items;
        }
      }
    }
  }

  /** Adding many keeps the table valid when the fresh ids are distinct and
      unused. */
  lemma {:induction false} AddAllValid(items: seq<CartItem>, assets: seq<Asset>, assetIds: seq<Guid>, userId: string,
                                       companyId: Option<Guid>, freshIds: seq<Guid>, now: Ticks)
    requires |freshIds| == |assetIds| && NoDuplicates(freshIds)
    requires ValidItems(items) && forall it | it in items :: it.id !in freshIds
    ensures ValidItems(AddAll(items, assets, assetIds, userId, companyId, freshIds, now).1)
    decreases |assetIds|
  {
    if |assetIds| > 0 {
      var n := |assetIds| - 1;
      var pre := freshIds[..n];
      assert NoDuplicates(pre) by {
        forall i, j | 0 <= i < j < n ensures pre[i] != pre[j] {
          assert pre[i] == freshIds[i] && pre[j] == freshIds[j];
        }
      }
      AddAllValid(items, assets, assetIds[..n], userId, companyId, pre, now);
      var prev := AddAll(items, assets, assetIds[..n], userId, companyId, pre, now);
      forall it | it in prev.1 ensures it.id != freshIds[n] {
        var k :| 0 <= k < |prev.1| && prev.1[k] == it;
        if k < |items| {
          assert it == items[k];
        } else {
          assert it in prev.1[|items|..];
          var m :| 0 <= m < n && pre[m] == it.id;
          assert freshIds[m] != freshIds[n];
        }
      }
      AddOneValid(prev.1, assets, assetIds[n], userId, companyId, freshIds[n], now);
    }
  }

  /** The k-th fresh id is unused after the first k additions. */
  lemma StillFresh(items0: seq<CartItem>, items: seq<CartItem>, freshIds: seq<Guid>, k: nat)
    requires k < |freshIds| && NoDuplicates(freshIds) && items0 <= items
    requires forall it | it in items0 :: it.id !in freshIds
    requires forall it | it in items[|items0|..] :: it.id in freshIds[..k]
    ensures forall it | it in items :: it.id != freshIds[k]
  {
    forall it | it in items ensures it.id != freshIds[k] {
      var j :| 0 <= j < |items| && items[j] == it;
      if j < |items0| {
        assert it == items0[j];
      } else {
        assert it in items[|items0|..];
        var m :| 0 <= m < k && freshIds[..k][m] == it.id;
        assert freshIds[m] != freshIds[k];
      }
    }
  }

  // ---------------------------------------------------------------------
  // Removing

  function ItemOf(cartItemId: Guid, userId: string): CartItem -> bool {
    (it: CartItem) => it.id == cartItemId && it.userId == userId
  }

  function Selected(cartItemIds: seq<Guid>, userId: string): CartItem -> bool {
    (it: CartItem) => it.id in cartItemIds && it.userId == userId
  }

  function Unselected(cartItemIds: seq<Guid>, userId: string): CartItem -> bool {
    (it: CartItem) => !(it.id in cartItemIds && it.userId == userId)
  }

  function NotOwnedBy(userId: string): CartItem -> bool {
    (it: CartItem) => it.userId != userId
  }

  /** What a bulk removal keeps: every other user's items untouched and
      none of the removed ones. */
  lemma UnselectedKeepsOthers(items: seq<CartItem>, cartItemIds: seq<Guid>, userId: string, other: string)
    requires other != userId
    ensures Filter(Filter(items, Unselected(cartItemIds, userId)), InScopeOf(other)) == Filter(items, InScopeOf(other))
    ensures Filter(Filter(items, Unselected(cartItemIds, userId)), Selected(cartItemIds, userId)) == []
  {
    FilterFilter(items, Unselected(cartItemIds, userId), InScopeOf(other), InScopeOf(other));
    FilterNone(Filter(items, Unselected(cartItemIds, userId)), Selected(cartItemIds, userId));
  }

  function InScopeOf(userId: string): CartItem -> bool {
    (it: CartItem) => it.userId == userId
  }

  lemma FilteredValid(items: seq<CartItem>, p: CartItem -> bool)
    requires ValidItems(items)
    ensures ValidItems(Filter(items, p))
  {
    FilterKeepsKeys(items, ItemKey(), p);
    FilterKeepsKeys(items, ItemPair(), p);
  }

  lemma RemovedValid(items: seq<CartItem>, i: nat)
    requires ValidItems(items) && i < |items|
    ensures ValidItems(items[..i] + items[i + 1..])
    ensures forall it | it in items[..i] + items[i + 1..] :: it.id != items[i].id
  {
    var n := items[..i] + items[i + 1..];
    forall a | 0 <= a < |n| ensures n[a] == items[if a < i then a else a + 1] {
    }
    forall it | it in n ensures it.id != items[i].id {
      var a :| 0 <= a < |n| && n[a] == it;
    }
  }

  // ---------------------------------------------------------------------
  // The service's tables

  class CartStore {
    var items: seq<CartItem>
    var assets: seq<Asset>

    ghost predicate Valid()
      reads this
    {
      ValidItems(items)
    }

    constructor (assets: seq<Asset>)
      ensures Valid() && items == [] && this.assets == assets
    {
      items := [];
      this.assets := assets;
    }

    /** AddToCartAsync. `id` is the fresh Guid. */
    method AddToCart(assetId: Guid, userId: string, companyId: Option<Guid>, id: Guid, now: Ticks)
      returns (r: Result<CartLine>)
      requires Valid()
      requires forall it | it in items :: it.id != id
      modifies this
      ensures Valid()
      ensures assets == old(assets)
      ensures Added(r, items) == AddOne(old(items), assets, assetId, userId, companyId, id, now)
    {
      AddOneValid(items, assets, assetId, userId, companyId, id, now);
      var a := FirstIndex(assets, Accessible(assetId, companyId));
      if a < 0 {
        return Err(AccessDeniedMessage);
      }
      var e := FirstIndex(items, ItemFor(userId, assetId));
      if e >= 0 {
        return Ok(LineFrom(items[e], assets[a]));
      }
      var it := CartItem(id, userId, assetId, companyId, now);
      items := items + [it];
      r := Ok(LineFrom(it, assets[a]));
    }

    /** AddMultipleToCartAsync: the lines of the assets it could add. */
    method AddMultiple(assetIds: seq<Guid>, userId: string, companyId: Option<Guid>, freshIds: seq<Guid>, now: Ticks)
      returns (lines: seq<CartLine>)
      requires Valid()
      requires |freshIds| == |assetIds| && NoDuplicates(freshIds)
      requires forall it | it in items :: it.id !in freshIds
      modifies this
      ensures Valid()
      ensures assets == old(assets)
      ensures (lines, items) == AddAll(old(items), assets, assetIds, userId, companyId, freshIds, now)
    {
      ghost var items0 := items;
      lines := [];
      for k := 0 to |assetIds|
        invariant assets == old(assets)
        invariant (lines, items) == AddAll(items0, assets, assetIds[..k], userId, companyId, freshIds[..k], now)
        invariant Valid()
      {
        StillFresh(items0, items, freshIds, k);
        ghost var before := items;
        var r := AddToCart(assetIds[k], userId, companyId, freshIds[k], now);
        AddAllStep(items0, assets, assetIds, userId, companyId, freshIds, now, k, lines, before, r, items);
        if r.Ok? {
          lines := lines + [r.value];
        }
      }
      assert assetIds[..|assetIds|] == assetIds;
      assert freshIds[..|freshIds|] == freshIds;
    }

    /** RemoveFromCartAsync: deletes the user's item with the id. */
    method RemoveFromCart(cartItemId: Guid, userId: string) returns (r: bool)
      requires Valid()
      modifies this
      ensures Valid()
      ensures assets == old(assets)
      ensures var i := FirstIndex(old(items), ItemOf(cartItemId, userId));
        (i < 0 ==> !r && items == old(items)) &&
        (i >= 0 ==> r && items == old(items)[..i] + old(items)[i + 1..])
      ensures r ==> forall it | it in items :: it.id != cartItemId
      ensures !r ==> forall it | it in items :: !ItemOf(cartItemId, userId)(it)
    {
      var i := FirstIndex(items, ItemOf(cartItemId, userId));
      if i < 0 {
        return false;
      }
      RemovedValid(items, i);
      items := items[..i] + items[i + 1..];
      r := true;
    }

    /** RemoveMultipleFromCartAsync: deletes the user's items among the ids;
        false when there are none. */
    method RemoveMultiple(cartItemIds: seq<Guid>, userId: string) returns (r: bool)
      requires Valid()
      modifies this
      ensures Valid()
      ensures assets == old(assets)
      ensures r <==> |Filter(old(items), Selected(cartItemIds, userId))| > 0
      ensures items == if r then Filter(old(items), Unselected(cartItemIds, userId)) else old(items)
    {
      var chosen := Keep(items, Selected(cartItemIds, userId));
      if |chosen| == 0 {
        return false;
      }
      FilteredValid(items, Unselected(cartItemIds, userId));
      items := Keep(items, Unselected(cartItemIds, userId));
      r := true;
    }

    /** ClearCartAsync: deletes all the user's items; false when there are none. */
    method ClearCart(userId: string) returns (r: bool)
      requires Valid()
      modifies this
      ensures Valid()
      ensures assets == old(assets)
      ensures r <==> |Filter(old(items), InScopeOf(userId))| > 0
      ensures items == if r then Filter(old(items), NotOwnedBy(userId)) else old(items)
      ensures forall it | it in items && r :: it.userId != userId
    {
      var mine := Keep(items, InScopeOf(userId));
      if |mine| == 0 {
        return false;
      }
      FilteredValid(items, NotOwnedBy(userId));
      items := Keep(items, NotOwnedBy(userId));
      r := true;
    }
  }
}

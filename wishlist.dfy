/** The wishlist page: adding a wished-for product to the cart (merge into
    the existing cart row or insert a new one), removing an item, and the
    enablement of the add button. The `cart_items` table is a map from row id
    to row; whether each store call fails is an input. */
module Wishlist {
  import opened Seqs
  import opened Wrappers

  datatype CartRow = CartRow(userId: string, productId: string, quantity: int)

  type CartTable = map<nat, CartRow>

  /** The ids of the rows `.eq("user_id", user).eq("product_id", product)` selects. */
  function MatchingIds(table: CartTable, user: string, product: string): (ids: set<nat>)
    ensures forall id :: id in ids <==> id in table && table[id].userId == user && table[id].productId == product
  {
    set id | id in table && table[id].userId == user && table[id].productId == product
  }

  /** No two rows for the same customer and product. */
  ghost predicate OneRowPerProduct(table: CartTable) {
    forall a, b ::
      a in table && b in table && table[a].userId == table[b].userId && table[a].productId == table[b].productId
      ==> a == b
  }

  /** Which store call fails, if any. */
  datatype StoreFaults = StoreFaults(lookup: bool, update: bool, insert: bool)

  datatype AddOutcome = Added | LookupFailed | UpdateFailed | InsertFailed

  /** `addToCart(productId)`. The lookup uses `maybeSingle`, which reports an
      error when more than one row matches. A matching row gets one more;
      otherwise a row with quantity 1 is inserted under the id the store
      hands out. A failing call ends the attempt with the table as it was. */
  method AddToCart(table: CartTable, user: string, product: string, freshId: nat, faults: StoreFaults)
    returns (after: CartTable, outcome: AddOutcome)
    requires freshId !in table
    ensures var ids := MatchingIds(table, user, product);
      (faults.lookup || |ids| > 1) ==> outcome == LookupFailed && after == table
    ensures var ids := MatchingIds(table, user, product);
      !faults.lookup && |ids| == 1 ==>
        exists id :: id in ids &&
          if faults.update then outcome == UpdateFailed && after == table
          else outcome == Added && after == table[id := table[id].(quantity := table[id].quantity + 1)]
    ensures var ids := MatchingIds(table, user, product);
      !faults.lookup && ids == {} ==>
        if faults.insert then outcome == InsertFailed && after == table
        else outcome == Added && after == table[freshId := CartRow(user, product, 1)]
    ensures outcome != Added ==> after == table
    ensures OneRowPerProduct(table) ==> OneRowPerProduct(after)
  {
    var ids := MatchingIds(table, user, product);
    if faults.lookup || |ids| > 1 {
      return table, LookupFailed;
    }
    if |ids| == 1 {
      var id :| id in ids;
      if faults.update {
        return table, UpdateFailed;
      }
      after := table[id := table[id].(quantity := table[id].quantity + 1)];
      outcome := Added;
    } else {
      if faults.insert {
        return table, InsertFailed;
      }
      after := table[freshId := CartRow(user, product, 1)];
      outcome := Added;
    }
  }

  /** The quantity in the row for a customer and product, if there is one. */
  ghost function QuantityOf(table: CartTable, user: string, product: string): (q: int)
    ensures MatchingIds(table, user, product) == {} ==> q == 0
  {
    var ids := MatchingIds(table, user, product);
    if ids == {} then 0 else table[PickId(ids)].quantity
  }

  ghost function PickId(ids: set<nat>): (id: nat)
    requires ids != {}
    ensures id in ids
  {
    var id :| id in ids; id
  }

  /** Adding to the cart raises the product's quantity by exactly one, and
      the customer still has exactly one row for it. */
  lemma AddedRaisesQuantity(table: CartTable, after: CartTable, user: string, product: string, freshId: nat)
    requires freshId !in table && OneRowPerProduct(table)
    requires |MatchingIds(table, user, product)| <= 1
    requires || (MatchingIds(table, user, product) == {} && after == table[freshId := CartRow(user, product, 1)])
             || (exists id :: id in MatchingIds(table, user, product)
                   && after == table[id := table[id].(quantity := table[id].quantity + 1)])
    ensures |MatchingIds(after, user, product)| == 1
    ensures QuantityOf(after, user, product) == QuantityOf(table, user, product) + 1
  {
    var ids := MatchingIds(table, user, product);
    if ids == {} && after == table[freshId := CartRow(user, product, 1)] {
      assert MatchingIds(after, user, product) == {freshId};
    } else {
      var id :| id in ids && after == table[id := table[id].(quantity := table[id].quantity + 1)];
      assert ids == {id} by {
        forall x | x in ids ensures x == id { }
      }
      assert MatchingIds(after, user, product) == {id};
    }
  }

  /** The product fields the page reads. */
  datatype ProductInfo = ProductInfo(name: string, price: real, status: string, inventoryQuantity: int)

  datatype WishlistItem = WishlistItem(id: nat, productId: string, product: ProductInfo)

  /** The "In Stock" badge. */
  predicate InStock(p: ProductInfo) {
    p.inventoryQuantity > 0
  }

  /** The add button is enabled unless `inventory_quantity <= 0 || status !== "active"`. */
  function CanAddToCart(p: ProductInfo): (r: bool)
    ensures r ==> InStock(p)
    ensures p.status != "active" ==> !r
  {
    !(p.inventoryQuantity <= 0 || p.status != "active")
  }

  /** Only active products that show "In Stock" can be added. */
  lemma CanAddIffActiveInStock(p: ProductInfo)
    ensures CanAddToCart(p) <==> InStock(p) && p.status == "active"
  {
  }

  /** `wishlistItems.filter(item => item.id !== wishlistId)` */
  function WithoutItem(items: seq<WishlistItem>, wishlistId: nat): (r: seq<WishlistItem>)
    ensures |r| <= |items|
    ensures forall x :: x in r <==> x in items && x.id != wishlistId
  {
    Filter((item: WishlistItem) => item.id != wishlistId, items)
  }

  /** Removal drops every copy of the items with that id and keeps every copy of the others, in order. */
  lemma WithoutItemSpec(items: seq<WishlistItem>, wishlistId: nat)
    ensures var r := WithoutItem(items, wishlistId);
      && IsSubseq(r, items)
      && (forall x :: x in r <==> x in items && x.id != wishlistId)
      && (forall x :: multiset(r)[x] == if x.id != wishlistId then multiset(items)[x] else 0)
  {
    var p := (item: WishlistItem) => item.id != wishlistId;
    var r := WithoutItem(items, wishlistId);
    assert IsSubseq(r, items) by { FilterIsSubseq(p, items); }
    assert forall x: WishlistItem :: multiset(r)[x] == if x.id != wishlistId then multiset(items)[x] else 0 by {
      FilterCounts(p, items);
    }
    forall x | x in items && x.id != wishlistId
      ensures x in r
    {
      var i :| 0 <= i < |items| && items[i] == x;
    }
  }

  /** Removing an item that is not there changes nothing. */
  lemma WithoutAbsentItem(items: seq<WishlistItem>, wishlistId: nat)
    requires forall i :: 0 <= i < |items| ==> items[i].id != wishlistId
    ensures WithoutItem(items, wishlistId) == items
  {
    FilterAllPass((item: WishlistItem) => item.id != wishlistId, items);
  }

  /** The page's list of wished-for items. */
  class WishlistPage {
    var wishlistItems: seq<WishlistItem>

    /** `useState([])`: the list is empty until the fetch answers. */
    constructor ()
      ensures wishlistItems == []
    {
      wishlistItems := [];
    }

    /** The fetch on load: `setWishlistItems(data || [])` unless the store
        reported an error, which leaves the list as it was. */
    method LoadWishlist(failed: bool, data: Option<seq<WishlistItem>>)
      modifies this
      ensures failed ==> wishlistItems == old(wishlistItems)
      ensures !failed ==> wishlistItems == data.GetOr([])
    {
      if !failed {
        wishlistItems := data.GetOr([]);
      }
    }

    /** `removeFromWishlist(wishlistId)`: the local list changes only after
        the store's delete succeeded. */
    method RemoveFromWishlist(wishlistId: nat, deleteOk: bool)
      modifies this
      ensures deleteOk ==> wishlistItems == WithoutItem(old(wishlistItems), wishlistId)
      ensures !deleteOk ==> wishlistItems == old(wishlistItems)
    {
      if !deleteOk {
        return;
      }
      wishlistItems := WithoutItem(wishlistItems, wishlistId);
    }
  }
}

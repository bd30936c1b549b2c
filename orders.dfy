/** The order history page: the search and status filter over the signed-in
    customer's orders, and the status label each order shows. The orders
    are an input (the store's answer, newest first). */
module Orders {
  import opened Text
  import opened Seqs

  datatype OrderItem = OrderItem(name: string, quantity: int, price: real)

  datatype Order = Order(orderNumber: string, status: string, total: real, items: seq<OrderItem>)

  /** The query occurs, ignoring case, in the order number or in the name of
      one of the items; an order matches only then. */
  function MatchesSearch(o: Order, query: string): (r: bool)
    ensures query == "" ==> r
    ensures r <==>
      || (exists i :: OccursAt(ToLower(o.orderNumber), ToLower(query), i))
      || (exists k, i :: 0 <= k < |o.items| && OccursAt(ToLower(o.items[k].name), ToLower(query), i))
  {
    ContainsIff(ToLower(o.orderNumber), ToLower(query));
    ContainsEmpty(ToLower(o.orderNumber));
    ItemsOccur(o.items, query);
    || Contains(ToLower(o.orderNumber), ToLower(query))
    || exists i :: 0 <= i < |o.items| && Contains(ToLower(o.items[i].name), ToLower(query))
  }

  /** "all", or the same status ignoring case; a match other than "all" has
      the filter's length. */
  function MatchesStatus(o: Order, statusFilter: string): (r: bool)
    ensures statusFilter == "all" ==> r
    ensures ToLower(o.status) == ToLower(statusFilter) ==> r
    ensures r && statusFilter != "all" ==> |o.status| == |statusFilter|
  {
    statusFilter == "all" || ToLower(o.status) == ToLower(statusFilter)
  }

  /** An item's name holds the query, as `includes` finds it, exactly when
      the query occurs in it at some position. */
  lemma ItemsOccur(items: seq<OrderItem>, query: string)
    ensures forall k :: 0 <= k < |items| ==>
      (Contains(ToLower(items[k].name), ToLower(query)) <==> exists i :: OccursAt(ToLower(items[k].name), ToLower(query), i))
  {
    forall k | 0 <= k < |items| {
      ContainsIff(ToLower(items[k].name), ToLower(query));
    }
  }

  predicate Keep(o: Order, query: string, statusFilter: string) {
    MatchesSearch(o, query) && MatchesStatus(o, statusFilter)
  }

  /** `filteredOrders`: an order is shown exactly when it is in the list and
      passes both the search and the status filter. */
  function FilteredOrders(orders: seq<Order>, query: string, statusFilter: string): (r: seq<Order>)
    ensures |r| <= |orders|
    ensures forall o :: o in r <==> o in orders && MatchesSearch(o, query) && MatchesStatus(o, statusFilter)
  {
    Filter((o: Order) => Keep(o, query, statusFilter), orders)
  }

  /** The shown orders are the kept ones, in their original order. */
  lemma FilteredOrdersSpec(orders: seq<Order>, query: string, statusFilter: string)
    ensures var r := FilteredOrders(orders, query, statusFilter);
      && IsSubseq(r, orders)
      && (forall o :: o in r <==> o in orders && MatchesSearch(o, query) && MatchesStatus(o, statusFilter))
  {
    var r := FilteredOrders(orders, query, statusFilter);
    FilterIsSubseq((o: Order) => Keep(o, query, statusFilter), orders);
    forall o | o in orders && Keep(o, query, statusFilter)
      ensures o in r
    {
      var i :| 0 <= i < |orders| && orders[i] == o;
    }
  }

  /** An empty search and the "all" status show every order. */
  lemma NoFilterShowsAll(orders: seq<Order>)
    ensures FilteredOrders(orders, "", "all") == orders
  {
    forall o | o in orders
      ensures Keep(o, "", "all")
    {
      assert ToLower("") == "";
      ContainsEmpty(ToLower(o.orderNumber));
    }
    FilterAllPass((o: Order) => Keep(o, "", "all"), orders);
  }

  /** The search does not depend on the case of the query. */
  lemma SearchIgnoresCase(o: Order, query: string)
    ensures MatchesSearch(o, ToLower(query)) == MatchesSearch(o, query)
  {
    ToLowerIdempotent(query);
  }

  /** A non-"all" filter keeps exactly the orders whose status is the filter up to case. */
  lemma StatusFilterExact(o: Order, statusFilter: string)
    requires statusFilter != "all"
    ensures MatchesStatus(o, statusFilter) <==> ToLower(o.status) == ToLower(statusFilter)
    ensures MatchesStatus(o, statusFilter) ==> MatchesStatus(o, o.status)
  {
  }

  /** `status.charAt(0).toUpperCase() + status.slice(1)`; the empty status stays empty. */
  function StatusLabel(status: string): (r: string)
    ensures |r| == |status|
    ensures status != [] ==> r[0] == UpperChar(status[0])
    ensures status != [] ==> IsUpper(r[0]) || !IsLower(status[0])
    ensures forall i :: 1 <= i < |r| ==> r[i] == status[i]
  {
    if status == [] then [] else [UpperChar(status[0])] + status[1..]
  }

  /** The label differs from the status in the case of its first letter only. */
  lemma StatusLabelSameLetters(status: string)
    ensures ToLower(StatusLabel(status)) == ToLower(status)
  {
    var r := StatusLabel(status);
    forall i | 0 <= i < |r|
      ensures LowerChar(r[i]) == LowerChar(status[i])
    {
      if i == 0 {
        UpperThenLower(status[0]);
      }
    }
  }

  lemma UpperThenLower(c: char)
    ensures LowerChar(UpperChar(c)) == LowerChar(c)
  {
    if IsLower(c) {
      assert IsUpper(UpperChar(c));
    }
  }

  /** Labelling a label changes nothing. */
  lemma StatusLabelIdempotent(status: string)
    ensures StatusLabel(StatusLabel(status)) == StatusLabel(status)
  {
  }

  /** The stored lower-case statuses get their usual labels. */
  lemma StatusLabelExamples()
    ensures StatusLabel("delivered") == "Delivered"
    ensures StatusLabel("processing") == "Processing"
    ensures StatusLabel("") == ""
  {
  }
}

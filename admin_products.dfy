/** The admin product table: the sort-column toggle and the search /
    category / status filter followed by the sort on the chosen column.
    `localeCompare` is not modelled; the name sort takes it as a parameter. */
module AdminProducts {
  import opened Text
  import opened Seqs

  datatype AdminProduct = AdminProduct(
    id: int,
    name: string,
    price: real,
    category: string,
    stock: int,
    status: string,
    image: string)

  datatype Direction = Asc | Desc

  /** `sortField` and `sortDirection` */
  datatype SortState = SortState(field: string, direction: Direction)

  /** The state the page starts in: by name, ascending. */
  const InitialSort: SortState := SortState("name", Asc)

  /** `handleSort(field)` as a function of the current state: the clicked
      column becomes the sort column, its direction flipped if it already
      was, ascending otherwise. */
  function NextSort(s: SortState, field: string): (r: SortState)
    ensures r.field == field
    ensures s.field == field ==> r.direction != s.direction
    ensures s.field != field ==> r.direction == Asc
  {
    if s.field == field then s.(direction := if s.direction == Asc then Desc else Asc)
    else SortState(field, Asc)
  }

  /** Clicking the current column flips the direction, and clicking it twice
      restores it; clicking another column selects it ascending. */
  lemma NextSortSpec(s: SortState, field: string)
    ensures s.field == field ==> NextSort(s, field).field == field && NextSort(s, field).direction != s.direction
    ensures s.field == field ==> NextSort(NextSort(s, field), field) == s
    ensures s.field != field ==> NextSort(s, field) == SortState(field, Asc)
  {
  }

  /** The lower-cased name contains the lower-cased query: the query
      occurs, ignoring case, at some position of the name. */
  function MatchesSearch(p: AdminProduct, query: string): (r: bool)
    ensures r <==> exists i :: OccursAt(ToLower(p.name), ToLower(query), i)
    ensures query == "" ==> r
  {
    ContainsIff(ToLower(p.name), ToLower(query));
    ContainsEmpty(ToLower(p.name));
    Contains(ToLower(p.name), ToLower(query))
  }

  /** "all" keeps every product; any other value keeps that category only. */
  function MatchesCategory(p: AdminProduct, categoryFilter: string): (r: bool)
    ensures categoryFilter == "all" ==> r
    ensures categoryFilter != "all" ==> (r <==> p.category == categoryFilter)
  {
    categoryFilter == "all" || p.category == categoryFilter
  }

  /** "all", or the lower-cased status contains the lower-cased filter. */
  function MatchesStatus(p: AdminProduct, statusFilter: string): (r: bool)
    ensures statusFilter == "all" ==> r
    ensures statusFilter != "all" ==> (r <==> exists i :: OccursAt(ToLower(p.status), ToLower(statusFilter), i))
  {
    ContainsIff(ToLower(p.status), ToLower(statusFilter));
    statusFilter == "all" || Contains(ToLower(p.status), ToLower(statusFilter))
  }

  predicate Keep(p: AdminProduct, query: string, categoryFilter: string, statusFilter: string) {
    MatchesSearch(p, query) && MatchesCategory(p, categoryFilter) && MatchesStatus(p, statusFilter)
  }

  /** The comparator for the selected column and direction; an unknown column keeps the order. */
  function AdminComparator(s: SortState, localeCompare: Comparator<string>): (cmp: Comparator<AdminProduct>)
    ensures s == SortState("price", Asc) ==> forall a, b :: cmp(a, b) <= 0.0 <==> a.price <= b.price
    ensures s == SortState("price", Desc) ==> forall a, b :: cmp(a, b) <= 0.0 <==> a.price >= b.price
    ensures s == SortState("stock", Asc) ==> forall a, b :: cmp(a, b) <= 0.0 <==> a.stock <= b.stock
    ensures s == SortState("stock", Desc) ==> forall a, b :: cmp(a, b) <= 0.0 <==> a.stock >= b.stock
    ensures s == SortState("name", Asc) ==> forall a, b :: cmp(a, b) == localeCompare(a.name, b.name)
    ensures s == SortState("name", Desc) ==> forall a, b :: cmp(a, b) == localeCompare(b.name, a.name)
    ensures s.field !in {"name", "price", "stock"} ==> forall a, b :: cmp(a, b) == 0.0
  {
    if s.field == "name" then
      (if s.direction == Asc then (a: AdminProduct, b: AdminProduct) => localeCompare(a.name, b.name)
       else (a: AdminProduct, b: AdminProduct) => localeCompare(b.name, a.name))
    else if s.field == "price" then
      (if s.direction == Asc then (a: AdminProduct, b: AdminProduct) => a.price - b.price
       else (a: AdminProduct, b: AdminProduct) => b.price - a.price)
    else if s.field == "stock" then
      (if s.direction == Asc then (a: AdminProduct, b: AdminProduct) => (a.stock - b.stock) as real
       else (a: AdminProduct, b: AdminProduct) => (b.stock - a.stock) as real)
    else
      (a: AdminProduct, b: AdminProduct) => 0.0
  }

  /** The table's rows: filter, then sort; the rows are the kept products, rearranged. */
  function AdminView(
    products: seq<AdminProduct>, query: string, categoryFilter: string, statusFilter: string,
    s: SortState, localeCompare: Comparator<string>): (r: seq<AdminProduct>)
    ensures multiset(r) == multiset(Filter((p: AdminProduct) => Keep(p, query, categoryFilter, statusFilter), products))
  {
    SortByPermutation(Filter((p: AdminProduct) => Keep(p, query, categoryFilter, statusFilter), products),
                      AdminComparator(s, localeCompare));
    SortBy(Filter((p: AdminProduct) => Keep(p, query, categoryFilter, statusFilter), products),
           AdminComparator(s, localeCompare))
  }

  /** The rows are exactly the products that pass all three tests, as a
      permutation of the filtered list. */
  lemma AdminViewRows(
    products: seq<AdminProduct>, query: string, categoryFilter: string, statusFilter: string,
    s: SortState, localeCompare: Comparator<string>)
    ensures var kept := Filter((p: AdminProduct) => Keep(p, query, categoryFilter, statusFilter), products);
      var r := AdminView(products, query, categoryFilter, statusFilter, s, localeCompare);
      && multiset(r) == multiset(kept)
      && (forall i :: 0 <= i < |r| ==> r[i] in products && Keep(r[i], query, categoryFilter, statusFilter))
      && (forall i :: 0 <= i < |products| && Keep(products[i], query, categoryFilter, statusFilter) ==> products[i] in r)
  {
    var kept := Filter((p: AdminProduct) => Keep(p, query, categoryFilter, statusFilter), products);
    var r := SortBy(kept, AdminComparator(s, localeCompare));
    SortByPermutation(kept, AdminComparator(s, localeCompare));
    forall i | 0 <= i < |r| ensures r[i] in kept {
      assert r[i] in multiset(kept);
    }
    forall i | 0 <= i < |products| && Keep(products[i], query, categoryFilter, statusFilter)
      ensures products[i] in r
    {
      assert products[i] in multiset(kept);
    }
  }

  /** Sorting on price or stock orders the rows by that column in the selected direction. */
  lemma AdminViewNumericOrder(
    products: seq<AdminProduct>, query: string, categoryFilter: string, statusFilter: string,
    s: SortState, localeCompare: Comparator<string>)
    ensures var r := AdminView(products, query, categoryFilter, statusFilter, s, localeCompare);
      && (s == SortState("price", Asc) ==> forall i, j :: 0 <= i < j < |r| ==> r[i].price <= r[j].price)
      && (s == SortState("price", Desc) ==> forall i, j :: 0 <= i < j < |r| ==> r[i].price >= r[j].price)
      && (s == SortState("stock", Asc) ==> forall i, j :: 0 <= i < j < |r| ==> r[i].stock <= r[j].stock)
      && (s == SortState("stock", Desc) ==> forall i, j :: 0 <= i < j < |r| ==> r[i].stock >= r[j].stock)
  {
    var kept := Filter((p: AdminProduct) => Keep(p, query, categoryFilter, statusFilter), products);
    var cmp := AdminComparator(s, localeCompare);
    if s == SortState("price", Asc) {
      KeyComparatorConsistent((p: AdminProduct) => p.price, cmp);
      SortByOrdered(kept, cmp);
    } else if s == SortState("price", Desc) {
      KeyComparatorConsistent((p: AdminProduct) => -p.price, cmp);
      SortByOrdered(kept, cmp);
    } else if s == SortState("stock", Asc) {
      KeyComparatorConsistent((p: AdminProduct) => p.stock as real, cmp);
      SortByOrdered(kept, cmp);
    } else if s == SortState("stock", Desc) {
      KeyComparatorConsistent((p: AdminProduct) => -(p.stock as real), cmp);
      SortByOrdered(kept, cmp);
    }
  }

  /** Sorting on name, in either direction, orders the rows whenever
      `localeCompare` is a consistent order; an unknown column keeps the
      filtered order. */
  lemma AdminViewOtherOrder(
    products: seq<AdminProduct>, query: string, categoryFilter: string, statusFilter: string,
    s: SortState, localeCompare: Comparator<string>)
    ensures var kept := Filter((p: AdminProduct) => Keep(p, query, categoryFilter, statusFilter), products);
      var r := AdminView(products, query, categoryFilter, statusFilter, s, localeCompare);
      && (s.field == "name" && Consistent(localeCompare) ==> Ordered(r, AdminComparator(s, localeCompare)))
      && (s.field !in {"name", "price", "stock"} ==> r == kept)
  {
    var kept := Filter((p: AdminProduct) => Keep(p, query, categoryFilter, statusFilter), products);
    var cmp := AdminComparator(s, localeCompare);
    if s.field == "name" && Consistent(localeCompare) {
      ProjectedConsistent(localeCompare, (p: AdminProduct) => p.name, cmp, s.direction == Desc);
      SortByOrdered(kept, cmp);
    } else if s.field !in {"name", "price", "stock"} {
      SortByNeutral(kept, cmp);
    }
  }

  /** An empty search matches every name; a status filter matches inside the
      status ignoring case, so "low" finds "Low Stock" and "out" finds
      "Out of Stock". */
  lemma FilterExamples(p: AdminProduct)
    ensures MatchesSearch(p, "")
    ensures MatchesStatus(p.(status := "Low Stock"), "low")
    ensures MatchesStatus(p.(status := "Out of Stock"), "out")
    ensures !MatchesStatus(p.(status := "Active"), "low")
  {
    assert ToLower("") == "";
    assert ToLower("low") == "low";
    assert ToLower("Low Stock")[..3] == "low";
    assert ToLower("out") == "out";
    assert ToLower("Out of Stock")[..3] == "out";
    var active := ToLower("Active");
    assert active == "active";
    assert !Contains(active[6..], "low");
    assert !Contains(active[5..], "low") by { assert active[5..][1..] == active[6..]; }
    assert !Contains(active[4..], "low") by { assert active[4..][1..] == active[5..]; }
    assert !Contains(active[3..], "low") by {
      assert active[3..][1..] == active[4..] && active[3..][0] != 'l';
    }
    assert !Contains(active[2..], "low") by { assert active[2..][1..] == active[3..]; }
    assert !Contains(active[1..], "low") by { assert active[1..][1..] == active[2..]; }
  }

  /** The sort controls of the table. */
  class ProductTable {
    var sort: SortState

    constructor ()
      ensures sort == InitialSort
    {
      sort := InitialSort;
    }

    /** `handleSort(field)` */
    method HandleSort(field: string)
      modifies this
      ensures sort == NextSort(old(sort), field)
      ensures old(sort).field == field ==> sort.field == field && sort.direction != old(sort).direction
      ensures old(sort).field != field ==> sort == SortState(field, Asc)
    {
      if sort.field == field {
        sort := sort.(direction := if sort.direction == Asc then Desc else Asc);
      } else {
        sort := SortState(field, Asc);
      }
    }
  }
}

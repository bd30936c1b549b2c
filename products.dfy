/** The catalogue page: the active-filter record and its handlers, the
    filter over the products, the sort by the selected order, and the count
    shown on the filter badge. */
module ProductsPage {
  import opened Text
  import opened Seqs

  datatype Product = Product(
    id: int,
    name: string,
    price: real,
    colors: seq<string>,
    sizes: seq<string>,
    category: string,
    image: string,
    isNew: bool)

  /** `activeFilters`; `priceRange` is the pair (priceLo, priceHi). */
  datatype Filters = Filters(
    category: string,
    colors: seq<string>,
    sizes: seq<string>,
    priceLo: real,
    priceHi: real)

  /** The initial filters, which `clearFilters` restores. */
  const DefaultFilters: Filters := Filters("All", [], [], 0.0, 200.0)

  /** `list.includes(x) ? list.filter(c => c !== x) : [...list, x]`: the
      value is in the result exactly when it was not in the list, and the
      other values stay. */
  function Toggle(list: seq<string>, x: string): (r: seq<string>)
    ensures x in r <==> x !in list
    ensures forall i :: 0 <= i < |list| ==> list[i] in r || list[i] == x
    ensures forall i :: 0 <= i < |r| ==> r[i] in list || r[i] == x
  {
    if x in list then Filter((c: string) => c != x, list) else list + [x]
  }

  /** Toggling an absent value appends it; toggling a present one removes
      every occurrence and keeps the rest in order. */
  lemma ToggleSpec(list: seq<string>, x: string)
    ensures x !in list ==> Toggle(list, x) == list + [x]
    ensures x in list ==>
      && x !in Toggle(list, x)
      && (forall i :: 0 <= i < |list| && list[i] != x ==> list[i] in Toggle(list, x))
      && IsSubseq(Toggle(list, x), list)
      && |Toggle(list, x)| < |list|
  {
    if x in list {
      var r := Filter((c: string) => c != x, list);
      FilterIsSubseq((c: string) => c != x, list);
      var k :| 0 <= k < |list| && list[k] == x;
      FilterShorter((c: string) => c != x, list, k);
    }
  }

  /** Toggling an absent value twice restores the list. */
  lemma ToggleTwice(list: seq<string>, x: string)
    requires x !in list
    ensures Toggle(Toggle(list, x), x) == list
  {
    var p := (c: string) => c != x;
    assert x in list + [x];
    FilterAppend(p, list, [x]);
    FilterAllPass(p, list);
    assert Filter(p, [x]) == [];
  }

  predicate CategoryMatches(p: Product, f: Filters) {
    f.category == "All" || p.category == f.category
  }

  /** Some colour of the product contains some selected colour, ignoring case. */
  predicate ColorMatches(p: Product, f: Filters) {
    |f.colors| == 0 ||
    exists c, a :: c in p.colors && a in f.colors && Contains(ToLower(c), ToLower(a))
  }

  /** Some size of the product is selected. */
  predicate SizeMatches(p: Product, f: Filters) {
    |f.sizes| == 0 || exists s :: s in p.sizes && s in f.sizes
  }

  /** The price lies in the inclusive range. */
  predicate PriceMatches(p: Product, f: Filters) {
    !(p.price < f.priceLo || p.price > f.priceHi)
  }

  predicate Matches(p: Product, f: Filters) {
    CategoryMatches(p, f) && ColorMatches(p, f) && SizeMatches(p, f) && PriceMatches(p, f)
  }

  /** `filteredProducts`: the products that pass all four tests, and only those. */
  function FilteredProducts(products: seq<Product>, f: Filters): (r: seq<Product>)
    ensures forall i :: 0 <= i < |r| ==> r[i] in products && Matches(r[i], f)
    ensures forall i :: 0 <= i < |products| && Matches(products[i], f) ==> products[i] in r
  {
    Filter((p: Product) => Matches(p, f), products)
  }

  /** The filtered list is an order-preserving subsequence of the products and
      keeps exactly those that pass all four tests; "All" puts no constraint
      on the category, the price bounds are inclusive. */
  lemma FilteredProductsSpec(products: seq<Product>, f: Filters)
    ensures var r := FilteredProducts(products, f);
      && IsSubseq(r, products)
      && (forall i :: 0 <= i < |r| ==> r[i] in products && Matches(r[i], f))
      && (forall i :: 0 <= i < |products| && Matches(products[i], f) ==> products[i] in r)
    ensures forall p :: Matches(p, f) <==>
      && (f.category == "All" || p.category == f.category)
      && ColorMatches(p, f)
      && SizeMatches(p, f)
      && f.priceLo <= p.price <= f.priceHi
  {
    FilterIsSubseq((p: Product) => Matches(p, f), products);
  }

  /** The default filters let every product through whose price is within [0, 200]. */
  lemma DefaultFiltersKeep(products: seq<Product>)
    requires forall i :: 0 <= i < |products| ==> 0.0 <= products[i].price <= 200.0
    ensures FilteredProducts(products, DefaultFilters) == products
  {
    FilterAllPass((p: Product) => Matches(p, DefaultFilters), products);
  }

  /** The comparator for each sort option: cheaper first for "price-asc",
      dearer first for "price-desc", a tie between any two products for an
      unknown option. */
  function ProductComparator(sortBy: string): (cmp: Comparator<Product>)
    ensures sortBy == "price-asc" ==> forall a, b :: cmp(a, b) <= 0.0 <==> a.price <= b.price
    ensures sortBy == "price-desc" ==> forall a, b :: cmp(a, b) <= 0.0 <==> a.price >= b.price
    ensures sortBy !in {"newest", "price-asc", "price-desc"} ==> forall a, b :: cmp(a, b) == 0.0
  {
    if sortBy == "newest" then
      (a: Product, b: Product) => if a.isNew then -1.0 else if b.isNew then 1.0 else 0.0
    else if sortBy == "price-asc" then
      (a: Product, b: Product) => a.price - b.price
    else if sortBy == "price-desc" then
      (a: Product, b: Product) => b.price - a.price
    else
      (a: Product, b: Product) => 0.0
  }

  /** `sortedProducts`: a rearrangement of the filtered products. */
  function SortedProducts(products: seq<Product>, f: Filters, sortBy: string): (r: seq<Product>)
    ensures multiset(r) == multiset(FilteredProducts(products, f))
  {
    SortByPermutation(FilteredProducts(products, f), ProductComparator(sortBy));
    SortBy(FilteredProducts(products, f), ProductComparator(sortBy))
  }

  /** The sorted list is a permutation of the filtered one; it is ascending in
      price for "price-asc", descending for "price-desc", and unchanged for
      "featured" and every other unknown option. "newest" gets no order claim. */
  lemma SortedProductsSpec(products: seq<Product>, f: Filters, sortBy: string)
    ensures var r := SortedProducts(products, f, sortBy);
      && multiset(r) == multiset(FilteredProducts(products, f))
      && (sortBy == "price-asc" ==> forall i, j :: 0 <= i < j < |r| ==> r[i].price <= r[j].price)
      && (sortBy == "price-desc" ==> forall i, j :: 0 <= i < j < |r| ==> r[i].price >= r[j].price)
      && (sortBy !in {"newest", "price-asc", "price-desc"} ==> r == FilteredProducts(products, f))
  {
    var filtered := FilteredProducts(products, f);
    var cmp := ProductComparator(sortBy);
    SortByPermutation(filtered, cmp);
    if sortBy == "price-asc" {
      KeyComparatorConsistent((p: Product) => p.price, cmp);
      SortByOrdered(filtered, cmp);
    } else if sortBy == "price-desc" {
      KeyComparatorConsistent((p: Product) => -p.price, cmp);
      SortByOrdered(filtered, cmp);
    } else if sortBy != "newest" {
      SortByNeutral(filtered, cmp);
    }
  }

  /** `activeFilterCount`: one for a category, one per colour and size, and
      one when the price range is narrowed at either end. */
  function ActiveFilterCount(f: Filters): (n: nat)
    ensures |f.colors| + |f.sizes| <= n <= |f.colors| + |f.sizes| + 2
    ensures n == 0 <==>
      f.category == "All" && f.colors == [] && f.sizes == [] && f.priceLo <= 0.0 && f.priceHi >= 200.0
  {
    (if f.category != "All" then 1 else 0)
    + |f.colors|
    + |f.sizes|
    + (if f.priceLo > 0.0 || f.priceHi < 200.0 then 1 else 0)
  }

  /** The cleared filters show no badge, nor does a range widened beyond
      [0, 200]; lowering the upper bound counts as one filter, and a colour
      and a size add one each. */
  lemma ActiveFilterCountExamples()
    ensures ActiveFilterCount(DefaultFilters) == 0
    ensures ActiveFilterCount(DefaultFilters.(priceLo := -50.0, priceHi := 500.0)) == 0
    ensures ActiveFilterCount(DefaultFilters.(priceHi := 150.0)) == 1
    ensures ActiveFilterCount(DefaultFilters.(colors := ["Black"], sizes := ["M"])) == 2
    ensures ActiveFilterCount(DefaultFilters.(category := "Heritage", priceHi := 150.0)) == 2
  {
  }

  /** Each source of the badge count on its own: with no category and the
      full [0, 200] range only the colours and sizes count; choosing a
      category adds exactly one; narrowing the range at either end adds
      exactly one. */
  lemma ActiveFilterCountTerms(f: Filters)
    ensures f.category == "All" && f.priceLo <= 0.0 && f.priceHi >= 200.0 ==>
      ActiveFilterCount(f) == |f.colors| + |f.sizes|
    ensures ActiveFilterCount(f) ==
      ActiveFilterCount(f.(category := "All")) + (if f.category != "All" then 1 else 0)
    ensures ActiveFilterCount(f) ==
      ActiveFilterCount(f.(priceLo := 0.0, priceHi := 200.0)) + (if f.priceLo > 0.0 || f.priceHi < 200.0 then 1 else 0)
  {
  }

  /** The page's filter and sort state. */
  class Catalogue {
    var filters: Filters
    var sortBy: string

    constructor ()
      ensures filters == DefaultFilters && sortBy == "featured"
    {
      filters := DefaultFilters;
      sortBy := "featured";
    }

    method HandleCategoryChange(category: string)
      modifies this
      ensures filters == old(filters).(category := category) && sortBy == old(sortBy)
    {
      filters := filters.(category := category);
    }

    method HandleColorToggle(color: string)
      modifies this
      ensures filters == old(filters).(colors := Toggle(old(filters.colors), color))
      ensures sortBy == old(sortBy)
    {
      filters := filters.(colors := Toggle(filters.colors, color));
    }

    method HandleSizeToggle(size: string)
      modifies this
      ensures filters == old(filters).(sizes := Toggle(old(filters.sizes), size))
      ensures sortBy == old(sortBy)
    {
      filters := filters.(sizes := Toggle(filters.sizes, size));
    }

    method HandlePriceChange(lo: real, hi: real)
      modifies this
      ensures filters == old(filters).(priceLo := lo, priceHi := hi) && sortBy == old(sortBy)
    {
      filters := filters.(priceLo := lo, priceHi := hi);
    }

    /** `clearFilters`: back to the defaults, so the badge count is zero. */
    method ClearFilters()
      modifies this
      ensures filters == DefaultFilters && sortBy == old(sortBy)
      ensures ActiveFilterCount(filters) == 0
    {
      filters := DefaultFilters;
    }

    method SetSortBy(value: string)
      modifies this
      ensures filters == old(filters) && sortBy == value
    {
      sortBy := value;
    }

    /** The products the grid shows for the current state. */
    function Shown(products: seq<Product>): seq<Product>
      reads this
    {
      SortedProducts(products, filters, sortBy)
    }
  }
}

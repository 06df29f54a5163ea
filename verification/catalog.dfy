/** The catalog engine of the application component: the category list,
    the filtered product list, the current page of it and the page count.
    Each is recomputed from the loaded product list and the view state. */
module Catalog {
  import opened Types
  import opened Text
  import opened Filters

  /** Number of products on one page. */
  const ITEMS_PER_PAGE: nat := 9

  function Min(a: int, b: int): int { if a <= b then a else b }
  function Max(a: int, b: int): int { if a <= b then b else a }

  // ---------------------------------------------------------------------
  // Categories: the distinct categories, in order of first occurrence
  // ---------------------------------------------------------------------

  /** `Array.from(new Set(xs))`: elements are inserted left to right and a
      repeated element keeps the place of its first insertion. */
  function Distinct(xs: seq<string>): (r: seq<string>)
    ensures forall i, j :: 0 <= i < j < |r| ==> r[i] != r[j]
    ensures forall x :: x in r <==> x in xs
    ensures |r| <= |xs|
  {
    if |xs| == 0 then []
    else
      var d := Distinct(xs[..|xs| - 1]);
      assert forall x :: x in xs <==> x in xs[..|xs| - 1] || x == xs[|xs| - 1];
      if xs[|xs| - 1] in d then d else d + [xs[|xs| - 1]]
  }

  /** First-occurrence order: every element of `Distinct(xs)` has already
      been seen in `xs` before any occurrence of a later element. */
  lemma {:induction false} DistinctFirstOccurrenceOrder(xs: seq<string>)
    ensures forall i, j, k :: 0 <= i < j < |Distinct(xs)| && 0 <= k < |xs| && xs[k] == Distinct(xs)[j]
              ==> Distinct(xs)[i] in xs[..k]
  {
    if |xs| > 0 {
      var init := xs[..|xs| - 1];
      var last := xs[|xs| - 1];
      DistinctFirstOccurrenceOrder(init);
      var d := Distinct(init);
      var r := Distinct(xs);
      forall i, j, k | 0 <= i < j < |r| && 0 <= k < |xs| && xs[k] == r[j]
        ensures r[i] in xs[..k]
      {
        assert r[i] in d;
        if j < |d| {
          // r[j] was already in the list before `last` arrived
          assert r[j] == d[j];
          if k < |xs| - 1 {
            assert xs[..k] == init[..k];
            assert init[k] == d[j];
          } else {
            // r[j] occurs in init at some position m < k
            assert r[j] in init;
            var m :| 0 <= m < |init| && init[m] == r[j];
            assert init[..m] == xs[..m];
            assert r[i] in xs[..m];
            assert xs[..m] <= xs[..k];
          }
        } else {
          // r[j] is `last`, which did not occur in init
          assert r[j] == last && last !in d;
          assert last !in init;
          assert k == |xs| - 1;
          assert xs[..k] == init;
        }
      }
    }
  }

  /** `data.map(product => product.category)`. */
  function CategoryColumn(products: seq<Item>): (r: seq<string>)
    ensures |r| == |products|
    ensures forall i :: 0 <= i < |products| ==> r[i] == products[i].category
  {
    seq(|products|, i requires 0 <= i < |products| => products[i].category)
  }

  /** The category list offered by the filter panel. */
  function Categories(data: Option<seq<Item>>): (r: seq<string>)
    ensures data.None? ==> r == []
    ensures forall i, j :: 0 <= i < j < |r| ==> r[i] != r[j]
    ensures data.Some? ==> forall p :: p in data.value ==> p.category in r
    ensures data.Some? ==> forall c :: c in r ==> exists p :: p in data.value && p.category == c
  {
    match data
    case None => []
    case Some(products) =>
      var cats := CategoryColumn(products);
      forall p | p in products
        ensures p.category in cats
      {
        var i :| 0 <= i < |products| && products[i] == p;
        assert cats[i] == p.category;
      }
      var r := Distinct(cats);
      assert forall c :: c in r ==> exists i :: 0 <= i < |products| && products[i].category == c;
      r
  }

  /** The category list is in first-occurrence order: a category listed
      before another already belongs to a product placed before any product
      of the later one. */
  lemma {:induction false} CategoriesFirstOccurrenceOrder(products: seq<Item>)
    ensures var r := Categories(Some(products));
      forall i, j, k :: 0 <= i < j < |r| && 0 <= k < |products| && products[k].category == r[j] ==>
        exists m :: 0 <= m < k && products[m].category == r[i]
  {
    var cats := CategoryColumn(products);
    var r := Categories(Some(products));
    assert r == Distinct(cats);
    DistinctFirstOccurrenceOrder(cats);
    forall i, j, k | 0 <= i < j < |r| && 0 <= k < |products| && products[k].category == r[j]
      ensures exists m :: 0 <= m < k && products[m].category == r[i]
    {
      assert cats[k] == r[j];
      assert r[i] in cats[..k];
      var m :| 0 <= m < k && cats[..k][m] == r[i];
      assert products[m].category == r[i];
    }
  }

  // ---------------------------------------------------------------------
  // Filtering
  // ---------------------------------------------------------------------

  /** The search test: the lower-cased title contains the lower-cased query.
      The empty query admits every product, and a query longer than the
      title admits none. */
  function MatchesSearch(p: Item, query: string): (r: bool)
    ensures query == [] ==> r
    ensures r ==> |query| <= |p.title|
  {
    EmptyIncluded(ToLower(p.title));
    Includes(ToLower(p.title), ToLower(query))
  }

  /** The category test: `all` admits every category; any other value admits
      exactly the products of that category. */
  function MatchesCategory(p: Item, category: string): (r: bool)
    ensures category == ALL ==> r
    ensures category != ALL ==> (r <==> p.category == category)
  {
    category == ALL || p.category == category
  }

  /** The price test: the inclusive range. A reversed range admits nothing,
      and the default range admits exactly the prices the slider spans. */
  function MatchesPrice(p: Item, range: PriceRange): (r: bool)
    ensures r ==> range.lo <= range.hi
    ensures range == DefaultRange() ==> (r <==> PRICE_MIN <= p.price <= PRICE_MAX)
  {
    p.price >= range.lo && p.price <= range.hi
  }

  /** A product is shown exactly when all three tests pass. With no query and
      category `all`, only the price test is left. */
  function Matches(p: Item, s: ViewState): (r: bool)
    ensures r ==> s.priceRange.lo <= s.priceRange.hi && |s.searchQuery| <= |p.title|
    ensures s.searchQuery == [] && s.selectedCategory == ALL ==> (r <==> MatchesPrice(p, s.priceRange))
  {
    MatchesSearch(p, s.searchQuery) && MatchesCategory(p, s.selectedCategory) && MatchesPrice(p, s.priceRange)
  }

  /** Clearing the filters never hides a product whose price lies within
      the slider bounds: every product shown before is shown after. */
  lemma {:induction false} ClearWidensFilter(products: seq<Item>, s: ViewState)
    requires forall p :: p in products ==> PRICE_MIN <= p.price <= PRICE_MAX
    ensures forall p :: p in Filter(products, s) ==> p in Filter(products, ClearFilters(s))
  {
    forall p | p in Filter(products, s)
      ensures p in Filter(products, ClearFilters(s))
    {
      assert Matches(p, ClearFilters(s));
    }
  }

  /** Selecting a category offered by the panel, with no query and a range
      covering every price, always shows at least one product. */
  lemma {:induction false} ListedCategoryHasProducts(products: seq<Item>, s: ViewState)
    requires s.selectedCategory in Categories(Some(products))
    requires s.searchQuery == []
    requires forall p :: p in products ==> s.priceRange.lo <= p.price <= s.priceRange.hi
    ensures |Filter(products, s)| > 0
  {
    var p :| p in products && p.category == s.selectedCategory;
    assert Matches(p, s);
    assert p in Filter(products, s);
  }

  /** `products.filter(...)`: keep the matching products, in input order. */
  function Filter(products: seq<Item>, s: ViewState): (r: seq<Item>)
    ensures |r| <= |products|
    ensures forall p :: p in r <==> p in products && Matches(p, s)
  {
    if |products| == 0 then []
    else
      var init := products[..|products| - 1];
      var last := products[|products| - 1];
      assert products == init + [last];
      var f := Filter(init, s);
      if Matches(last, s) then f + [last] else f
  }

  /** The filtered product list; empty while the product list has not loaded. */
  function FilteredProducts(data: Option<seq<Item>>, s: ViewState): (r: seq<Item>)
    ensures data.None? ==> r == []
    ensures data.Some? ==> forall p :: p in r <==> p in data.value && Matches(p, s)
  {
    match data
    case None => []
    case Some(products) => Filter(products, s)
  }

  /** Each matching product is kept as many times as it occurs; every other
      product is dropped. */
  lemma {:induction false} FilterCount(products: seq<Item>, s: ViewState, p: Item)
    ensures multiset(Filter(products, s))[p] == if Matches(p, s) then multiset(products)[p] else 0
  {
    if |products| > 0 {
      var init := products[..|products| - 1];
      var last := products[|products| - 1];
      assert products == init + [last];
      FilterCount(init, s, p);
    }
  }

  /** The filter is stable: it distributes over concatenation, so matching
      products keep their relative order. */
  lemma {:induction false} FilterAppend(a: seq<Item>, b: seq<Item>, s: ViewState)
    ensures Filter(a + b, s) == Filter(a, s) + Filter(b, s)
  {
    if |b| > 0 {
      var b' := b[..|b| - 1];
      assert (a + b)[..|a + b| - 1] == a + b';
      assert b[..|b| - 1] == b';
      FilterAppend(a, b', s);
    } else {
      assert a + b == a;
    }
  }

  /** `sub` can be obtained from `xs` by deleting elements (greedy matching). */
  predicate IsSubsequence<T(==)>(sub: seq<T>, xs: seq<T>)
    decreases |xs|
  {
    |sub| == 0 || (|xs| > 0 &&
      if sub[0] == xs[0] then IsSubsequence(sub[1..], xs[1..]) else IsSubsequence(sub, xs[1..]))
  }

  /** Filtering a list with a known first element. */
  lemma {:induction false} FilterCons(head: Item, tail: seq<Item>, s: ViewState)
    ensures Filter([head] + tail, s) == (if Matches(head, s) then [head] else []) + Filter(tail, s)
  {
    FilterAppend([head], tail, s);
    assert [head][..0] == [];
  }

  /** The filtered list is a subsequence of the product list. */
  lemma {:induction false} FilterIsSubsequence(products: seq<Item>, s: ViewState)
    ensures IsSubsequence(Filter(products, s), products)
  {
    if |products| > 0 {
      var head := products[0];
      var tail := products[1..];
      assert products == [head] + tail;
      FilterCons(head, tail, s);
      FilterIsSubsequence(tail, s);
      var ft := Filter(tail, s);
      var r := Filter(products, s);
      assert products[1..] == tail;
      if Matches(head, s) {
        assert r == [head] + ft;
        assert r[0] == head && r[1..] == ft;
      } else {
        assert r == [] + ft == ft;
        if |ft| > 0 {
          assert ft[0] in ft;
          assert ft[0] != head;
        }
      }
    }
  }

  /** An empty query, the category `all` and a range covering every price
      impose no restriction: the whole list is shown, in order. */
  lemma {:induction false} UnrestrictedFilterKeepsAll(products: seq<Item>, s: ViewState)
    requires s.searchQuery == [] && s.selectedCategory == ALL
    requires forall p :: p in products ==> s.priceRange.lo <= p.price <= s.priceRange.hi
    ensures Filter(products, s) == products
  {
    if |products| > 0 {
      var init := products[..|products| - 1];
      var last := products[|products| - 1];
      UnrestrictedFilterKeepsAll(init, s);
      EmptyIncluded(ToLower(last.title));
      assert ToLower(s.searchQuery) == [];
      assert Matches(last, s);
      assert products == init + [last];
    }
  }

  /** With the filter panel inactive, only the search box restricts the list,
      as long as every price lies within the slider bounds. */
  lemma {:induction false} InactiveFiltersOnlySearch(products: seq<Item>, s: ViewState)
    requires !HasActiveFilters(s)
    requires forall p :: p in products ==> PRICE_MIN <= p.price <= PRICE_MAX
    ensures forall p :: p in Filter(products, s) <==> p in products && MatchesSearch(p, s.searchQuery)
  {
  }

  /** When no product passes the tests the page is blank. */
  lemma {:induction false} NoMatchShowsNothing(products: seq<Item>, s: ViewState)
    requires forall p :: p in products ==> !Matches(p, s)
    ensures Filter(products, s) == []
  {
    if |products| > 0 {
      NoMatchShowsNothing(products[..|products| - 1], s);
    }
  }

  /** A range with `lo > hi` admits nothing. */
  lemma {:induction false} EmptyRangeShowsNothing(products: seq<Item>, s: ViewState)
    requires s.priceRange.lo > s.priceRange.hi
    ensures Filter(products, s) == []
  {
    NoMatchShowsNothing(products, s);
  }

  // ---------------------------------------------------------------------
  // Pagination
  // ---------------------------------------------------------------------

  /** Resolve a `slice` index: a negative index counts from the end, and the
      result is clamped into `[0, len]`. */
  function SliceIndex(k: int, len: nat): (r: nat)
    ensures r <= len
    ensures 0 <= k <= len ==> r == k
  {
    if k < 0 then Max(len + k, 0) else Min(k, len)
  }

  /** `xs.slice(start, end)`. */
  function Slice<T>(xs: seq<T>, start: int, end: int): (r: seq<T>)
    ensures 0 <= start <= end ==> |r| == Max(0, Min(end, |xs|) - start)
    ensures 0 <= start <= end ==> forall i :: 0 <= i < |r| ==> r[i] == xs[start + i]
  {
    var from := SliceIndex(start, |xs|);
    var to := SliceIndex(end, |xs|);
    if from < to then xs[from..to] else []
  }

  /** The products shown on the current page. */
  function PaginatedProducts(filtered: seq<Item>, currentPage: int): (r: seq<Item>)
    ensures currentPage >= 1 ==> |r| == Min(ITEMS_PER_PAGE, Max(0, |filtered| - (currentPage - 1) * ITEMS_PER_PAGE))
    ensures currentPage >= 1 ==>
      forall i :: 0 <= i < |r| ==> r[i] == filtered[(currentPage - 1) * ITEMS_PER_PAGE + i]
  {
    var startIndex := (currentPage - 1) * ITEMS_PER_PAGE;
    Slice(filtered, startIndex, startIndex + ITEMS_PER_PAGE)
  }

  /** `Math.ceil(n / ITEMS_PER_PAGE)`: the fewest pages that hold `n` products. */
  function TotalPages(n: nat): (r: nat)
    ensures r * ITEMS_PER_PAGE >= n
    ensures r == 0 || (r - 1) * ITEMS_PER_PAGE < n
  {
    (n + ITEMS_PER_PAGE - 1) / ITEMS_PER_PAGE
  }

  /** A page is non-empty exactly when its number lies in `1..TotalPages`;
      a page past the last is empty (the page number is never clamped). */
  lemma {:induction false} PageNonEmptyIff(filtered: seq<Item>, page: int)
    requires page >= 1
    ensures |PaginatedProducts(filtered, page)| > 0 <==> page <= TotalPages(|filtered|)
  {
    var n := |filtered|;
    var t := TotalPages(n);
    if page <= t {
      assert (page - 1) * ITEMS_PER_PAGE <= (t - 1) * ITEMS_PER_PAGE;
    } else {
      assert (page - 1) * ITEMS_PER_PAGE >= t * ITEMS_PER_PAGE;
    }
  }

  /** Pages `1..k` laid end to end. */
  function Pages(filtered: seq<Item>, k: nat): seq<Item> {
    if k == 0 then [] else Pages(filtered, k - 1) + PaginatedProducts(filtered, k)
  }

  /** Page `k` is the slice of the filtered list between the `k-1`-th and
      the `k`-th multiple of the page size, clipped to its length. */
  lemma {:induction false} PageIsSlice(filtered: seq<Item>, k: nat)
    requires k >= 1
    ensures Min((k - 1) * ITEMS_PER_PAGE, |filtered|) <= Min(k * ITEMS_PER_PAGE, |filtered|)
    ensures PaginatedProducts(filtered, k) ==
      filtered[Min((k - 1) * ITEMS_PER_PAGE, |filtered|)..Min(k * ITEMS_PER_PAGE, |filtered|)]
  {
  }

  /** Pages `1..k` are the first `9k` products (or all of them). */
  lemma {:induction false} PagesArePrefix(filtered: seq<Item>, k: nat)
    ensures Pages(filtered, k) == filtered[..Min(k * ITEMS_PER_PAGE, |filtered|)]
  {
    if k > 0 {
      PagesArePrefix(filtered, k - 1);
      PageIsSlice(filtered, k);
      var lo := Min((k - 1) * ITEMS_PER_PAGE, |filtered|);
      var hi := Min(k * ITEMS_PER_PAGE, |filtered|);
      assert filtered[..lo] + filtered[lo..hi] == filtered[..hi];
    }
  }

  /** Reading every page in turn gives back the whole filtered list. */
  lemma {:induction false} AllPagesRebuildList(filtered: seq<Item>)
    ensures Pages(filtered, TotalPages(|filtered|)) == filtered
  {
    PagesArePrefix(filtered, TotalPages(|filtered|));
  }

  /** The pagination control is shown only when there is more than one page,
      that is, when the filtered list does not fit on a single page. */
  function ShowsPagination(filtered: seq<Item>): (r: bool)
    ensures r <==> |filtered| > ITEMS_PER_PAGE
  {
    TotalPages(|filtered|) > 1
  }

  /** An illustration on one concrete catalog; the general fact is
      `PageNonEmptyIff`. Narrowing a filter does not reset the page. Starting from 10 products,
      page 2 shows the tenth; once the category narrows the list to that one
      product, page 2 is empty and the pagination control is gone, so the
      view stays blank until the filter is widened again. */
  lemma {:induction false} NarrowingFilterCanStrandPage(products: seq<Item>, other: Item, target: Item)
    requires |products| == 10
    requires forall i :: 0 <= i < 9 ==> products[i] == other
    requires products[9] == target
    requires other.category == "a" && target.category == "b"
    requires other.title == "" && target.title == ""
    requires other.price == 1.0 && target.price == 1.0
    ensures
      var before := SetPage(Initial(), 2);
      var after := SetCategory(before, "b");
      && PaginatedProducts(FilteredProducts(Some(products), before), before.currentPage) == [target]
      && after.currentPage == 2
      && PaginatedProducts(FilteredProducts(Some(products), after), after.currentPage) == []
      && !ShowsPagination(FilteredProducts(Some(products), after))
  {
    var before := SetPage(Initial(), 2);
    var after := SetCategory(before, "b");
    EmptyIncluded("");
    UnrestrictedFilterKeepsAll(products, before);
    var narrowed := Filter(products, after);
    assert products == products[..9] + [target];
    FilterAppend(products[..9], [target], after);
    NoMatchShowsNothing(products[..9], after);
    assert Filter([target], after) == [target] by {
      assert [target][..0] == [];
    }
    assert narrowed == [target];
  }
}

/** The catalog view state held by the application component (search query,
    selected category, price range, current page), its setters, the
    "clear filters" action and the `hasActiveFilters` predicate of the filter
    panel. */
module Filters {

  /** The category value meaning "no category restriction". */
  const ALL: string := "all"

  /** Bounds of the price slider, which are also the default price range. */
  const PRICE_MIN: real := 0.0
  const PRICE_MAX: real := 1000.0

  /** An inclusive price interval `[lo, hi]`. */
  datatype PriceRange = PriceRange(lo: real, hi: real)

  datatype ViewState = ViewState(
    searchQuery: string,
    selectedCategory: string,
    priceRange: PriceRange,
    currentPage: int
  )

  /** The default price range. */
  function DefaultRange(): PriceRange {
    PriceRange(PRICE_MIN, PRICE_MAX)
  }

  /** The state the view starts in: no search, every category, the full
      price range, page 1. */
  function Initial(): (s: ViewState)
    ensures !HasActiveFilters(s)
    ensures s.searchQuery == [] && s.currentPage == 1
    ensures WithinSlider(s.priceRange)
  {
    ViewState("", ALL, DefaultRange(), 1)
  }

  /** The filter panel shows its "Clear" button exactly when this holds. The
      search query and the page take no part in it. */
  function HasActiveFilters(s: ViewState): (r: bool)
    ensures !r <==> s.(selectedCategory := ALL, priceRange := DefaultRange()) == s
    ensures !r ==> WithinSlider(s.priceRange)
  {
    s.selectedCategory != ALL || s.priceRange.lo != PRICE_MIN || s.priceRange.hi != PRICE_MAX
  }

  /** A range the slider can produce: both ends inside the slider bounds, in order. */
  predicate WithinSlider(r: PriceRange) {
    PRICE_MIN <= r.lo <= r.hi <= PRICE_MAX
  }

  /** Reset the category and the price range; the search query and the page
      are left as they are. */
  function ClearFilters(s: ViewState): (r: ViewState)
    ensures !HasActiveFilters(r)
    ensures WithinSlider(r.priceRange)
    ensures r.searchQuery == s.searchQuery && r.currentPage == s.currentPage
  {
    s.(selectedCategory := ALL, priceRange := DefaultRange())
  }

  /** Setters wired to the search box, the category select, the slider and
      the pagination control. None of them touches any other field: in
      particular changing a filter does not move the current page back. */
  function SetSearch(s: ViewState, q: string): (r: ViewState)
    ensures r.searchQuery == q
    ensures r.(searchQuery := s.searchQuery) == s
  {
    s.(searchQuery := q)
  }

  function SetCategory(s: ViewState, c: string): (r: ViewState)
    ensures r.selectedCategory == c
    ensures r.(selectedCategory := s.selectedCategory) == s
  {
    s.(selectedCategory := c)
  }

  function SetPriceRange(s: ViewState, range: PriceRange): (r: ViewState)
    ensures r.priceRange == range
    ensures r.(priceRange := s.priceRange) == s
  {
    s.(priceRange := range)
  }

  function SetPage(s: ViewState, page: int): (r: ViewState)
    ensures r.currentPage == page
    ensures r.(currentPage := s.currentPage) == s
  {
    s.(currentPage := page)
  }

  /** The filters are inactive exactly when clearing them changes nothing:
      the inactive states are the fixed points of "clear". */
  lemma InactiveIffClearIsIdentity(s: ViewState)
    ensures !HasActiveFilters(s) <==> ClearFilters(s) == s
  {
  }

  /** Clearing twice is the same as clearing once. */
  lemma ClearIdempotent(s: ViewState)
    ensures ClearFilters(ClearFilters(s)) == ClearFilters(s)
  {
    InactiveIffClearIsIdentity(ClearFilters(s));
  }

  /** Typing in the search box or turning the page never shows or hides
      the "Clear" button. */
  lemma ActiveIgnoresSearchAndPage(s: ViewState, q: string, page: int)
    ensures HasActiveFilters(SetSearch(s, q)) == HasActiveFilters(s)
    ensures HasActiveFilters(SetPage(s, page)) == HasActiveFilters(s)
  {
  }
}

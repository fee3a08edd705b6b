/**
 * `ProductFilterBar`: the five controls of the product list, their initial
 * values, single-control changes and the reset button, and the query the
 * products page builds from them.
 */
module FilterBar {
  import opened Wrappers
  import opened Schema
  import opened Seqs
  import opened Runtime
  import opened ProductQuery

  /** The state of the bar: every control holds a string. */
  datatype FilterState = FilterState(
    category: string,
    priceRange: string,
    rating: string,
    search: string,
    sortBy: string)

  datatype FilterKey = Category | PriceRange | Rating | Search | SortBy

  /** What the bar shows with nothing chosen, and what the reset button restores. */
  const Defaults: FilterState := FilterState("all", "all", "all", "", "name-asc")

  /** The values the select menus offer. */
  const CategoryOptions: seq<string> := ["all", "electronics", "clothing", "home", "books", "toys"]
  const PriceOptions: seq<string> := ["all", "0-50", "50-100", "100-500", "500+"]
  const RatingOptions: seq<string> := ["all", "4", "3", "2", "1"]
  const SortOptions: seq<string> := ["name-asc", "name-desc", "price-asc", "price-desc", "rating-desc"]

  /** `v || fallback` on an optional string: an absent or empty value gives the fallback. */
  function OrElse(v: Option<string>, fallback: string): (r: string)
    ensures Truthy(v) ==> r == v.value
    ensures !Truthy(v) ==> r == fallback
  {
    if v.Some? && v.value != "" then v.value else fallback
  }

  /** The initial state: each given, non-empty member of `initial`, else its default. */
  function Initial(initial: Option<ProductFilter>): (s: FilterState)
    ensures initial.None? ==> s == Defaults
    ensures initial.Some? ==>
      && s.category == OrElse(initial.value.category, Defaults.category)
      && s.priceRange == OrElse(initial.value.priceRange, Defaults.priceRange)
      && s.rating == OrElse(initial.value.rating, Defaults.rating)
      && s.search == OrElse(initial.value.search, Defaults.search)
      && s.sortBy == OrElse(initial.value.sortBy, Defaults.sortBy)
  {
    match initial
    case None => Defaults
    case Some(f) =>
      FilterState(OrElse(f.category, "all"), OrElse(f.priceRange, "all"), OrElse(f.rating, "all"),
                  OrElse(f.search, ""), OrElse(f.sortBy, "name-asc"))
  }

  function Get(s: FilterState, key: FilterKey): string {
    match key
    case Category => s.category
    case PriceRange => s.priceRange
    case Rating => s.rating
    case Search => s.search
    case SortBy => s.sortBy
  }

  /** `handleFilterChange`: the named control takes the value; every other control keeps its own. */
  function HandleFilterChange(s: FilterState, key: FilterKey, value: string): (r: FilterState)
    ensures Get(r, key) == value
    ensures forall k :: k != key ==> Get(r, k) == Get(s, k)
  {
    match key
    case Category => s.(category := value)
    case PriceRange => s.(priceRange := value)
    case Rating => s.(rating := value)
    case Search => s.(search := value)
    case SortBy => s.(sortBy := value)
  }

  /** `resetFilters`: whatever the state, the bar returns to what it shows with no initial filter. */
  function ResetFilters(s: FilterState): (r: FilterState)
    ensures r == Initial(None)
  {
    Defaults
  }

  /** Resetting forgets the state it starts from, so a second reset changes nothing. */
  lemma ResetForgets(s: FilterState, t: FilterState)
    ensures ResetFilters(s) == ResetFilters(t)
    ensures ResetFilters(ResetFilters(s)) == ResetFilters(s)
  {
  }

  /** Two changes of different controls commute. */
  lemma ChangesCommute(s: FilterState, k1: FilterKey, v1: string, k2: FilterKey, v2: string)
    requires k1 != k2
    ensures HandleFilterChange(HandleFilterChange(s, k1, v1), k2, v2)
         == HandleFilterChange(HandleFilterChange(s, k2, v2), k1, v1)
  {
  }

  /** Setting a control to the value it holds changes nothing. */
  lemma ChangeToSameValue(s: FilterState, key: FilterKey)
    ensures HandleFilterChange(s, key, Get(s, key)) == s
  {
  }

  // ---------------------------------------------------------------------------
  // The query the products page sends

  /** A non-empty value, or nothing: the products page appends only truthy values to the URL. */
  function Member(value: string): (m: Option<string>)
    ensures m.Some? <==> value != ""
    ensures m.Some? ==> m.value == value
  {
    if value != "" then Some(value) else None
  }

  /** The member of a query that a control sets. */
  function Query(f: ProductFilter, key: FilterKey): Option<string> {
    match key
    case Category => f.category
    case PriceRange => f.priceRange
    case Rating => f.rating
    case Search => f.search
    case SortBy => f.sortBy
  }

  /** The filter the bar reports, as the server receives it: each non-empty control as a parameter. */
  function Sent(s: FilterState): (f: ProductFilter)
    ensures forall k :: Query(f, k).Some? <==> Get(s, k) != ""
    ensures forall k :: Query(f, k).Some? ==> Query(f, k).value == Get(s, k)
  {
    ProductFilter(Member(s.category), Member(s.priceRange), Member(s.rating), Member(s.search), Member(s.sortBy))
  }

  /**
   * A bar opened with the filter it last reported shows the same state, when the
   * four menus are set. An empty search box is sent as nothing and opens empty again.
   */
  lemma SentThenInitial(s: FilterState)
    requires s.category != "" && s.priceRange != "" && s.rating != "" && s.sortBy != ""
    ensures Initial(Some(Sent(s))) == s
  {
  }

  /** Two filters the listing cannot tell apart: each member is truthy in both or neither, and equal when truthy. */
  predicate SameEffect(a: Option<string>, b: Option<string>) {
    Truthy(a) == Truthy(b) && (Truthy(a) ==> a.value == b.value)
  }

  predicate Equivalent(f: ProductFilter, g: ProductFilter) {
    && SameEffect(f.category, g.category) && SameEffect(f.priceRange, g.priceRange)
    && SameEffect(f.rating, g.rating) && SameEffect(f.search, g.search) && SameEffect(f.sortBy, g.sortBy)
  }

  /** The listing depends only on the truthy members of the filter. */
  lemma EquivalentFiltersListAlike(f: ProductFilter, g: ProductFilter, products: seq<Product>, env: Builtins)
    requires Equivalent(f, g)
    ensures ApplyProductFilters(f, products, env) == ApplyProductFilters(g, products, env)
  {
    StagesSelect(f, products, env);
    StagesSelect(g, products, env);
    FilterSameTest(products, Criteria(f, env), Criteria(g, env));
    ListingIsSortedStages(f, products, env);
    ListingIsSortedStages(g, products, env);
  }

  /** Dropping the empty members, as the products page does, does not change what the server lists. */
  lemma DroppingEmptyMembersIsHarmless(s: FilterState, products: seq<Product>, env: Builtins)
    ensures var all := ProductFilter(Some(s.category), Some(s.priceRange), Some(s.rating), Some(s.search), Some(s.sortBy));
      ApplyProductFilters(Sent(s), products, env) == ApplyProductFilters(all, products, env)
  {
    var all := ProductFilter(Some(s.category), Some(s.priceRange), Some(s.rating), Some(s.search), Some(s.sortBy));
    EquivalentFiltersListAlike(Sent(s), all, products, env);
  }

  /** The bar's defaults list every product, ordered by name. */
  lemma DefaultsListAllByName(products: seq<Product>, env: Builtins)
    ensures var r := ApplyProductFilters(Sent(Defaults), products, env);
      && multiset(r) == multiset(products)
      && forall i, j :: 0 <= i < j < |r| ==> env.localeCompare(r[i].name, r[j].name) <= 0
  {
    var f := Sent(Defaults);
    SortOrders(f, products, env);
    assert forall i :: 0 <= i < |products| ==> Criteria(f, env)(products[i]);
  }

  /** Every sort the menu offers is one the listing recognises. */
  lemma SortOptionsRecognised()
    ensures forall i :: 0 <= i < |SortOptions| ==> SortOptions[i] in SortKeys
  {
  }

  /**
   * The "$500+" option reaches the price filter as a lower bound that `Number`
   * cannot read, so it lists nothing, however the other controls are set.
   */
  lemma FiveHundredPlusListsNothing(s: FilterState, products: seq<Product>, env: Builtins)
    requires s.priceRange == PriceOptions[4]
    requires env.toNumber("500+") == Numbers.NaN
    ensures ApplyProductFilters(Sent(s), products, env) == []
  {
    Text.SplitWithoutSeparator("500+", '-');
    UnparsableMinimumExcludesAll(Sent(s), products, env);
  }
}

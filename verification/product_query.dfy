/**
 * `applyProductFilters`: narrows a user's products by a free-text search, a
 * category, a price range and a minimum rating, each applied only when its query
 * member is set, and then sorts by one of five orders.
 */
module ProductQuery {
  import opened Wrappers
  import opened Text
  import opened Numbers
  import opened Seqs
  import opened Sorting
  import opened Schema
  import opened Runtime

  /** A query member JavaScript treats as true: present and non-empty. */
  predicate Truthy(v: Option<string>) {
    v.Some? && v.value != ""
  }

  /** A member that narrows the listing: truthy and not the sentinel "all". */
  predicate Restricts(v: Option<string>) {
    Truthy(v) && v.value != "all"
  }

  // ---------------------------------------------------------------------------
  // The four filter stages, in the order the source applies them

  /** The lower-cased term occurs in the lower-cased name or description. */
  predicate MatchesSearch(p: Product, term: string) {
    Contains(Lower(p.name), term) || Contains(Lower(p.description), term)
  }

  function SearchTest(term: string): Product -> bool {
    (p: Product) => MatchesSearch(p, term)
  }

  function ApplySearch(f: ProductFilter, ps: seq<Product>): seq<Product> {
    if Truthy(f.search) then Filter(ps, SearchTest(Lower(f.search.value))) else ps
  }

  function CategoryTest(category: string): Product -> bool {
    (p: Product) => p.category == category
  }

  function ApplyCategory(f: ProductFilter, ps: seq<Product>): seq<Product> {
    if Restricts(f.category) then Filter(ps, CategoryTest(f.category.value)) else ps
  }

  /** `const [min, max] = range.split('-')`: the first part, and the second if there is one. */
  function PriceBounds(range: string): (string, Option<string>) {
    var parts := Split(range, '-');
    (parts[0], if |parts| > 1 then Some(parts[1]) else None)
  }

  function BetweenTest(min: Num, max: Num): Product -> bool {
    (p: Product) => AtLeast(p.price, min) && AtMost(p.price, max)
  }

  function FromTest(min: Num): Product -> bool {
    (p: Product) => AtLeast(p.price, min)
  }

  /** Both bounds when both parts are non-empty, a lower bound when only the first is, nothing otherwise. */
  function ApplyPriceRange(f: ProductFilter, ps: seq<Product>, env: Builtins): seq<Product> {
    if Restricts(f.priceRange) then
      var (min, max) := PriceBounds(f.priceRange.value);
      if min != "" && max.Some? && max.value != "" then
        Filter(ps, BetweenTest(env.toNumber(min), env.toNumber(max.value)))
      else if min != "" then Filter(ps, FromTest(env.toNumber(min)))
      else ps
    else ps
  }

  /** `parseFloat(rating.replace('+', ''))`. */
  function RatingThreshold(rating: string, env: Builtins): Num {
    env.parseFloat(RemoveFirst(rating, '+'))
  }

  function RatingTest(threshold: Num): Product -> bool {
    (p: Product) => AtLeast(p.rating, threshold)
  }

  function ApplyRating(f: ProductFilter, ps: seq<Product>, env: Builtins): seq<Product> {
    if Restricts(f.rating) then Filter(ps, RatingTest(RatingThreshold(f.rating.value, env))) else ps
  }

  // ---------------------------------------------------------------------------
  // Sorting

  const SortKeys: set<string> := {"name-asc", "name-desc", "price-asc", "price-desc", "rating-desc"}

  /** The comparator of the `switch`; an unknown key compares everything as equal. */
  function Compare(sortBy: string, collate: Collator): Comparator<Product> {
    if sortBy == "name-asc" then (a: Product, b: Product) => collate(a.name, b.name) as real
    else if sortBy == "name-desc" then (a: Product, b: Product) => collate(b.name, a.name) as real
    else if sortBy == "price-asc" then (a: Product, b: Product) => a.price - b.price
    else if sortBy == "price-desc" then (a: Product, b: Product) => b.price - a.price
    else if sortBy == "rating-desc" then (a: Product, b: Product) => b.rating - a.rating
    else (a: Product, b: Product) => 0.0
  }

  /** Every comparator of the listing is consistent, so the sort is well defined. */
  lemma CompareIsConsistent(sortBy: string, collate: Collator)
    ensures SignConsistent(Compare(sortBy, collate))
    ensures Transitive(Compare(sortBy, collate))
  {
    var cmp := Compare(sortBy, collate);
    assert IsCollation(collate);
    if sortBy == "name-asc" {
      forall a: Product, b: Product | cmp(a, b) > 0.0 ensures cmp(b, a) < 0.0 {
        assert collate(a.name, b.name) > 0;
      }
      forall a: Product, b: Product, c: Product | cmp(a, b) <= 0.0 && cmp(b, c) <= 0.0
        ensures cmp(a, c) <= 0.0
      {
        assert collate(a.name, b.name) <= 0 && collate(b.name, c.name) <= 0;
      }
    } else if sortBy == "name-desc" {
      forall a: Product, b: Product | cmp(a, b) > 0.0 ensures cmp(b, a) < 0.0 {
        assert collate(b.name, a.name) > 0;
      }
      forall a: Product, b: Product, c: Product | cmp(a, b) <= 0.0 && cmp(b, c) <= 0.0
        ensures cmp(a, c) <= 0.0
      {
        assert collate(c.name, b.name) <= 0 && collate(b.name, a.name) <= 0;
      }
    }
  }

  function ApplySort(f: ProductFilter, ps: seq<Product>, env: Builtins): (r: seq<Product>)
    ensures multiset(r) == multiset(ps)
  {
    if Truthy(f.sortBy) then Sort(ps, Compare(f.sortBy.value, env.localeCompare)) else ps
  }

  // ---------------------------------------------------------------------------
  // The criteria a listed product meets

  predicate SearchAccepts(f: ProductFilter, p: Product) {
    !Truthy(f.search) || MatchesSearch(p, Lower(f.search.value))
  }

  predicate CategoryAccepts(f: ProductFilter, p: Product) {
    !Restricts(f.category) || p.category == f.category.value
  }

  /** `price` lies in the range the text describes, as the source reads it. */
  predicate InPriceRange(price: real, range: string, env: Builtins) {
    var (min, max) := PriceBounds(range);
    if min != "" && max.Some? && max.value != "" then
      AtLeast(price, env.toNumber(min)) && AtMost(price, env.toNumber(max.value))
    else if min != "" then AtLeast(price, env.toNumber(min))
    else true
  }

  /**
   * The range with a trailing '+' dropped: the "$500+" option, like the rating
   * filter's "4+", marks an open range by that sign, and the lower-bound-only
   * branch of the price filter exists for such a range.
   */
  function DropTrailingPlus(range: string): (r: string)
    ensures |range| > 0 && range[|range| - 1] == '+' ==> range == r + "+"
    ensures (|range| == 0 || range[|range| - 1] != '+') ==> r == range
  {
    if |range| > 0 && range[|range| - 1] == '+' then range[..|range| - 1] else range
  }

  /** The price test as evidently intended: the range is read after dropping a trailing '+'. */
  predicate InPriceRangeIntended(price: real, range: string, env: Builtins) {
    InPriceRange(price, DropTrailingPlus(range), env)
  }

  predicate PriceAccepts(f: ProductFilter, env: Builtins, p: Product) {
    !Restricts(f.priceRange) || InPriceRange(p.price, f.priceRange.value, env)
  }

  predicate RatingAccepts(f: ProductFilter, env: Builtins, p: Product) {
    !Restricts(f.rating) || AtLeast(p.rating, RatingThreshold(f.rating.value, env))
  }

  /** A product meets every active criterion of the query. */
  predicate Selected(f: ProductFilter, env: Builtins, p: Product) {
    SearchAccepts(f, p) && CategoryAccepts(f, p) && PriceAccepts(f, env, p) && RatingAccepts(f, env, p)
  }

  function Criteria(f: ProductFilter, env: Builtins): Product -> bool {
    (p: Product) => Selected(f, env, p)
  }

  function SearchCriterion(f: ProductFilter): Product -> bool {
    (p: Product) => SearchAccepts(f, p)
  }

  function CategoryCriterion(f: ProductFilter): Product -> bool {
    (p: Product) => CategoryAccepts(f, p)
  }

  function PriceCriterion(f: ProductFilter, env: Builtins): Product -> bool {
    (p: Product) => PriceAccepts(f, env, p)
  }

  function RatingCriterion(f: ProductFilter, env: Builtins): Product -> bool {
    (p: Product) => RatingAccepts(f, env, p)
  }

  function SearchAndCategory(f: ProductFilter): Product -> bool {
    (p: Product) => SearchAccepts(f, p) && CategoryAccepts(f, p)
  }

  function SearchCategoryPrice(f: ProductFilter, env: Builtins): Product -> bool {
    (p: Product) => SearchAccepts(f, p) && CategoryAccepts(f, p) && PriceAccepts(f, env, p)
  }

  lemma SearchStage(f: ProductFilter, ps: seq<Product>)
    ensures ApplySearch(f, ps) == Filter(ps, SearchCriterion(f))
  {
    if Truthy(f.search) {
      FilterSameTest(ps, SearchTest(Lower(f.search.value)), SearchCriterion(f));
    }
  }

  lemma CategoryStage(f: ProductFilter, ps: seq<Product>)
    ensures ApplyCategory(f, ps) == Filter(ps, CategoryCriterion(f))
  {
    if Restricts(f.category) {
      FilterSameTest(ps, CategoryTest(f.category.value), CategoryCriterion(f));
    }
  }

  lemma PriceStage(f: ProductFilter, ps: seq<Product>, env: Builtins)
    ensures ApplyPriceRange(f, ps, env) == Filter(ps, PriceCriterion(f, env))
  {
    if Restricts(f.priceRange) {
      var (min, max) := PriceBounds(f.priceRange.value);
      if min != "" && max.Some? && max.value != "" {
        FilterSameTest(ps, BetweenTest(env.toNumber(min), env.toNumber(max.value)), PriceCriterion(f, env));
      } else if min != "" {
        FilterSameTest(ps, FromTest(env.toNumber(min)), PriceCriterion(f, env));
      }
    }
  }

  lemma RatingStage(f: ProductFilter, ps: seq<Product>, env: Builtins)
    ensures ApplyRating(f, ps, env) == Filter(ps, RatingCriterion(f, env))
  {
    if Restricts(f.rating) {
      FilterSameTest(ps, RatingTest(RatingThreshold(f.rating.value, env)), RatingCriterion(f, env));
    }
  }

  /** The four filter stages, in source order. */
  function Stages(f: ProductFilter, ps: seq<Product>, env: Builtins): seq<Product> {
    ApplyRating(f, ApplyPriceRange(f, ApplyCategory(f, ApplySearch(f, ps)), env), env)
  }

  /** The four stages in a row select exactly the products meeting every criterion, in input order. */
  lemma StagesSelect(f: ProductFilter, ps: seq<Product>, env: Builtins)
    ensures Stages(f, ps, env) == Filter(ps, Criteria(f, env))
  {
    var s1 := ApplySearch(f, ps);
    var s2 := ApplyCategory(f, s1);
    var s3 := ApplyPriceRange(f, s2, env);
    SearchStage(f, ps);
    CategoryStage(f, s1);
    PriceStage(f, s2, env);
    RatingStage(f, s3, env);
    FilterTwice(ps, SearchCriterion(f), CategoryCriterion(f), SearchAndCategory(f));
    FilterTwice(ps, SearchAndCategory(f), PriceCriterion(f, env), SearchCategoryPrice(f, env));
    FilterTwice(ps, SearchCategoryPrice(f, env), RatingCriterion(f, env), Criteria(f, env));
  }

  /** Two sequences with the same multiset have the same members. */
  lemma SameMembers(a: seq<Product>, b: seq<Product>)
    requires multiset(a) == multiset(b)
    ensures forall x :: x in a <==> x in b
  {
    forall x ensures x in a <==> x in b {
      assert x in a <==> x in multiset(a);
      assert x in b <==> x in multiset(b);
    }
  }

  /**
   * `applyProductFilters`: only input products, exactly those meeting every active
   * criterion, each as often as in the input (a permutation of the filtered input).
   */
  function ApplyProductFilters(f: ProductFilter, products: seq<Product>, env: Builtins): (r: seq<Product>)
    ensures forall p :: p in r <==> p in products && Selected(f, env, p)
    ensures multiset(r) == multiset(Filter(products, Criteria(f, env)))
    ensures multiset(r) <= multiset(products)
  {
    var filtered := Stages(f, products, env);
    StagesSelect(f, products, env);
    var r := ApplySort(f, filtered, env);
    SameMembers(r, filtered);
    r
  }

  // ---------------------------------------------------------------------------
  // Properties

  /** The listing is the sorted output of the four stages. */
  lemma ListingIsSortedStages(f: ProductFilter, products: seq<Product>, env: Builtins)
    ensures ApplyProductFilters(f, products, env) == ApplySort(f, Stages(f, products, env), env)
  {
  }

  /** The sort stage leaves the order alone unless the key is one of the five. */
  lemma UnknownKeyKeepsOrder(f: ProductFilter, ps: seq<Product>, env: Builtins)
    requires !Truthy(f.sortBy) || f.sortBy.value !in SortKeys
    ensures ApplySort(f, ps, env) == ps
  {
    if Truthy(f.sortBy) {
      SortNeutral(ps, Compare(f.sortBy.value, env.localeCompare));
    }
  }

  /**
   * Products the sort key rates equal keep their input order: for any `x`, the
   * listed products tied with `x` are the selected ones tied with it, in input order.
   */
  lemma ListingKeepsTieOrder(f: ProductFilter, products: seq<Product>, env: Builtins, x: Product)
    requires Truthy(f.sortBy)
    ensures var ties := TiesWith(x, Compare(f.sortBy.value, env.localeCompare));
      Filter(ApplyProductFilters(f, products, env), ties) == Filter(Filter(products, Criteria(f, env)), ties)
  {
    var cmp := Compare(f.sortBy.value, env.localeCompare);
    CompareIsConsistent(f.sortBy.value, env.localeCompare);
    StagesSelect(f, products, env);
    ListingIsSortedStages(f, products, env);
    SortStable(Stages(f, products, env), x, cmp);
  }

  /** Without a recognised sort key the filtered products keep their input order. */
  lemma UnsortedKeepsOrder(f: ProductFilter, products: seq<Product>, env: Builtins)
    requires !Truthy(f.sortBy) || f.sortBy.value !in SortKeys
    ensures ApplyProductFilters(f, products, env) == Filter(products, Criteria(f, env))
  {
    StagesSelect(f, products, env);
    ListingIsSortedStages(f, products, env);
    UnknownKeyKeepsOrder(f, Stages(f, products, env), env);
  }

  /** A query with no active criterion and no sort key lists the products exactly as given. */
  lemma NoCriteriaKeepsEverything(f: ProductFilter, products: seq<Product>, env: Builtins)
    requires !Truthy(f.search) && !Restricts(f.category) && !Restricts(f.priceRange) && !Restricts(f.rating)
    requires !Truthy(f.sortBy)
    ensures ApplyProductFilters(f, products, env) == products
  {
    UnsortedKeepsOrder(f, products, env);
  }

  /** The search keeps a product exactly when the lower-cased term occurs in its lower-cased name or description. */
  lemma SearchIsCaseInsensitiveSubstring(f: ProductFilter, p: Product)
    requires Truthy(f.search)
    ensures SearchAccepts(f, p) <==>
      (exists i :: OccursAt(Lower(p.name), Lower(f.search.value), i))
      || (exists i :: OccursAt(Lower(p.description), Lower(f.search.value), i))
  {
    ContainsIff(Lower(p.name), Lower(f.search.value));
    ContainsIff(Lower(p.description), Lower(f.search.value));
  }

  /** A category that is absent, empty or "all" removes nothing. */
  lemma AllCategoriesRemoveNothing(f: ProductFilter, products: seq<Product>, env: Builtins)
    requires !Restricts(f.category)
    ensures ApplyProductFilters(f, products, env) == ApplyProductFilters(f.(category := None), products, env)
  {
    var g := f.(category := None);
    StagesSelect(f, products, env);
    StagesSelect(g, products, env);
    FilterSameTest(products, Criteria(f, env), Criteria(g, env));
  }

  /** A restricting category keeps only products of exactly that category. */
  lemma CategoryIsExact(f: ProductFilter, products: seq<Product>, env: Builtins, p: Product)
    requires Restricts(f.category)
    ensures p in ApplyProductFilters(f, products, env) <==>
      p in products && p.category == f.category.value && SearchAccepts(f, p) && PriceAccepts(f, env, p) && RatingAccepts(f, env, p)
  {
  }

  /** "a-b" keeps prices from `Number(a)` to `Number(b)`, both ends included. */
  lemma ClosedPriceRange(a: string, b: string, price: real, env: Builtins)
    requires a != "" && b != "" && '-' !in a && '-' !in b
    ensures InPriceRange(price, a + "-" + b, env) <==> AtLeast(price, env.toNumber(a)) && AtMost(price, env.toNumber(b))
    ensures env.toNumber(a).Finite? && env.toNumber(b).Finite? ==>
      (InPriceRange(price, a + "-" + b, env) <==> env.toNumber(a).value <= price <= env.toNumber(b).value)
  {
    SplitAtFirstSeparator(a, '-', b);
    SplitWithoutSeparator(b, '-');
  }

  /** A range without '-' keeps prices of at least `Number(range)`. */
  lemma OpenPriceRange(range: string, price: real, env: Builtins)
    requires range != "" && '-' !in range
    ensures InPriceRange(price, range, env) <==> AtLeast(price, env.toNumber(range))
  {
    SplitWithoutSeparator(range, '-');
  }

  /** A range with an empty first part, such as "-50", applies no price filter. */
  lemma EmptyMinimumAppliesNoFilter(rest: string, price: real, env: Builtins)
    ensures InPriceRange(price, "-" + rest, env)
  {
    SplitAtFirstSeparator("", '-', rest);
    assert "" + ['-'] + rest == "-" + rest;
  }

  /** A first part that `Number` cannot parse, as in "500+", empties the listing. */
  lemma UnparsableMinimumExcludesAll(f: ProductFilter, products: seq<Product>, env: Builtins)
    requires Restricts(f.priceRange)
    requires PriceBounds(f.priceRange.value).0 != "" && env.toNumber(PriceBounds(f.priceRange.value).0) == NaN
    ensures ApplyProductFilters(f, products, env) == []
  {
    var r := ApplyProductFilters(f, products, env);
    var filtered := Filter(products, Criteria(f, env));
    assert forall i :: 0 <= i < |products| ==> !Criteria(f, env)(products[i]);
    assert filtered == [];
    assert |multiset(r)| == 0;
  }

  /** As written, "500+" is one part that `Number` reads as NaN, so no price is in range. */
  lemma FiveHundredPlusAsWritten(price: real, env: Builtins)
    requires env.toNumber("500+") == NaN
    ensures !InPriceRange(price, "500+", env)
  {
    SplitWithoutSeparator("500+", '-');
  }

  /** Under the intended reading, "500+" keeps exactly the prices of at least 500. */
  lemma FiveHundredPlusIntended(price: real, env: Builtins)
    requires env.toNumber("500") == Finite(500.0)
    ensures InPriceRangeIntended(price, "500+", env) <==> price >= 500.0
  {
    assert DropTrailingPlus("500+") == "500";
    OpenPriceRange("500", price, env);
  }

  /** A range that does not end in '+', such as "100-200", reads the same both ways. */
  lemma IntendedAgreesWithoutPlus(price: real, range: string, env: Builtins)
    requires |range| == 0 || range[|range| - 1] != '+'
    ensures InPriceRangeIntended(price, range, env) <==> InPriceRange(price, range, env)
  {
  }

  /** A trailing '+' on the rating, as in "4+", is ignored. */
  lemma RatingPlusIgnored(digits: string, env: Builtins)
    requires '+' !in digits
    ensures RatingThreshold(digits + "+", env) == RatingThreshold(digits, env)
  {
    var s := digits + "+";
    assert s[..|digits|] == digits && s[|digits|] == '+' && s[|digits| + 1..] == [];
    RemoveFirstAt(s, '+', |digits|);
    assert RemoveFirst(s, '+') == digits;
    assert RemoveFirst(digits, '+') == digits;
  }

  /** A sorted listing is in comparator order pairwise. */
  lemma ListingOrdered(f: ProductFilter, products: seq<Product>, env: Builtins)
    requires Truthy(f.sortBy)
    ensures PairwiseOrdered(ApplyProductFilters(f, products, env), Compare(f.sortBy.value, env.localeCompare))
  {
    var cmp := Compare(f.sortBy.value, env.localeCompare);
    CompareIsConsistent(f.sortBy.value, env.localeCompare);
    SortOrdered(Stages(f, products, env), cmp);
    OrderedIsPairwise(Sort(Stages(f, products, env), cmp), cmp);
  }

  /** What comparator order means for each of the five keys. */
  lemma KeyOrder(r: seq<Product>, sortBy: string, collate: Collator)
    requires PairwiseOrdered(r, Compare(sortBy, collate))
    ensures sortBy == "price-asc" ==> forall i, j :: 0 <= i < j < |r| ==> r[i].price <= r[j].price
    ensures sortBy == "price-desc" ==> forall i, j :: 0 <= i < j < |r| ==> r[i].price >= r[j].price
    ensures sortBy == "rating-desc" ==> forall i, j :: 0 <= i < j < |r| ==> r[i].rating >= r[j].rating
    ensures sortBy == "name-asc" ==> forall i, j :: 0 <= i < j < |r| ==> collate(r[i].name, r[j].name) <= 0
    ensures sortBy == "name-desc" ==> forall i, j :: 0 <= i < j < |r| ==> collate(r[j].name, r[i].name) <= 0
  {
    var cmp := Compare(sortBy, collate);
    forall i, j | 0 <= i < j < |r| ensures cmp(r[i], r[j]) <= 0.0 {
    }
  }

  /** Each sort key orders the whole listing, not only neighbours. */
  lemma SortOrders(f: ProductFilter, products: seq<Product>, env: Builtins)
    requires Truthy(f.sortBy)
    ensures var r := ApplyProductFilters(f, products, env);
      && (f.sortBy.value == "price-asc" ==> forall i, j :: 0 <= i < j < |r| ==> r[i].price <= r[j].price)
      && (f.sortBy.value == "price-desc" ==> forall i, j :: 0 <= i < j < |r| ==> r[i].price >= r[j].price)
      && (f.sortBy.value == "rating-desc" ==> forall i, j :: 0 <= i < j < |r| ==> r[i].rating >= r[j].rating)
      && (f.sortBy.value == "name-asc" ==>
            forall i, j :: 0 <= i < j < |r| ==> env.localeCompare(r[i].name, r[j].name) <= 0)
      && (f.sortBy.value == "name-desc" ==>
            forall i, j :: 0 <= i < j < |r| ==> env.localeCompare(r[j].name, r[i].name) <= 0)
  {
    ListingOrdered(f, products, env);
    KeyOrder(ApplyProductFilters(f, products, env), f.sortBy.value, env.localeCompare);
  }
}

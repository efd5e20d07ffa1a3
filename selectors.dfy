/**
 * The store's selectors: field accessors, the derived product view
 * (search, then category, then price sort) and the two look-ups by id.
 */
module Selectors {
  import opened Wrappers
  import opened Catalog
  import opened Seqs
  import opened Text
  import opened PriceSort
  import opened FiltersSlice
  import opened ProductsSlice
  import opened FavoritesSlice

  /** The combined store state the selectors read. */
  datatype RootState = RootState(products: ProductsState, filters: FiltersState, favorites: FavoritesState)

  function SelectAllProducts(state: RootState): seq<Product> { state.products.items }
  function SelectSearchQuery(state: RootState): string { state.filters.searchQuery }
  function SelectSelectedCategory(state: RootState): string { state.filters.selectedCategory }
  function SelectSortBy(state: RootState): string { state.filters.sortBy }
  function SelectFavorites(state: RootState): seq<Product> { state.favorites.items }
  function SelectSelectedProduct(state: RootState): Option<Product> { state.products.selectedProduct }

  /** The title contains the query, both lower-cased. */
  function MatchesQuery(p: Product, query: string): (b: bool)
    ensures b <==> exists i :: OccursAt(Lower(p.title), Lower(query), i)
  {
    Includes(Lower(p.title), Lower(query))
  }

  /** Stage one: keep the products whose title contains the query, ignoring case. */
  function SearchStage(products: seq<Product>, searchQuery: string): (r: seq<Product>)
    ensures |r| <= |products|
    ensures forall i :: 0 <= i < |r| ==> MatchesQuery(r[i], searchQuery)
  {
    var query := Lower(searchQuery);
    Filter(products, (p: Product) => Includes(Lower(p.title), query))
  }

  /** Stage two: keep the products of exactly that category. */
  function CategoryStage(products: seq<Product>, selectedCategory: string): (r: seq<Product>)
    ensures |r| <= |products|
    ensures forall i :: 0 <= i < |r| ==> r[i].category == selectedCategory
  {
    Filter(products, (p: Product) => p.category == selectedCategory)
  }

  /** Stages one and two; an empty query or category leaves the list as it is. */
  function FilterStages(products: seq<Product>, searchQuery: string, selectedCategory: string): (r: seq<Product>)
    ensures |r| <= |products|
    ensures forall i :: 0 <= i < |r| ==> r[i] in products && Selected(r[i], searchQuery, selectedCategory)
  {
    var searched := if searchQuery != "" then SearchStage(products, searchQuery) else products;
    FilterWithin(products, (p: Product) => Includes(Lower(p.title), Lower(searchQuery)));
    FilterWithin(searched, (p: Product) => p.category == selectedCategory);
    if selectedCategory != "" then CategoryStage(searched, selectedCategory) else searched
  }

  /** Stage three: any sort mode other than the two price orders keeps the order. */
  function SortStage(products: seq<Product>, sortBy: string): (r: seq<Product>)
    ensures multiset(r) == multiset(products)
  {
    if sortBy == "price-asc" then
      SortByPricePermutes(Ascending, products);
      SortByPrice(Ascending, products)
    else if sortBy == "price-desc" then
      SortByPricePermutes(Descending, products);
      SortByPrice(Descending, products)
    else products
  }

  /** The displayed list, as a function of the catalog and the filter configuration. */
  function FilteredProducts(products: seq<Product>, searchQuery: string, selectedCategory: string, sortBy: string): (r: seq<Product>)
    ensures multiset(r) == multiset(FilterStages(products, searchQuery, selectedCategory))
  {
    SortStage(FilterStages(products, searchQuery, selectedCategory), sortBy)
  }

  /** A product survives the two filter stages. */
  predicate Selected(p: Product, searchQuery: string, selectedCategory: string)
  {
    (searchQuery == "" || MatchesQuery(p, searchQuery)) &&
    (selectedCategory == "" || p.category == selectedCategory)
  }

  /**
   * `selectFilteredProducts`: copies the catalog, narrows the copy by search
   * and category, and sorts it in place when a price order is selected. The
   * catalog in `state` is a value, and the sort works on a fresh array.
   */
  method SelectFilteredProducts(state: RootState) returns (filtered: seq<Product>)
    ensures filtered == FilteredProducts(SelectAllProducts(state), SelectSearchQuery(state),
                                         SelectSelectedCategory(state), SelectSortBy(state))
  {
    var products := SelectAllProducts(state);
    var searchQuery := SelectSearchQuery(state);
    var selectedCategory := SelectSelectedCategory(state);
    var sortBy := SelectSortBy(state);
    filtered := products;
    if searchQuery != "" {
      filtered := SearchStage(filtered, searchQuery);
    }
    if selectedCategory != "" {
      filtered := CategoryStage(filtered, selectedCategory);
    }
    if sortBy == "price-asc" || sortBy == "price-desc" {
      var direction := if sortBy == "price-asc" then Ascending else Descending;
      var stage := filtered;
      var a := new Product[|stage|](i requires 0 <= i < |stage| => stage[i]);
      assert a[..] == stage;
      InsertionSort(direction, a);
      filtered := a[..];
    }
  }

  /** `selectProductById`: the first catalog entry with that id, if there is one. */
  function SelectProductById(state: RootState, productId: int): (r: Option<Product>)
    ensures r.None? <==> forall i :: 0 <= i < |state.products.items| ==> state.products.items[i].id != productId
    ensures r.Some? ==> r.value.id == productId
    ensures r.Some? ==>
      exists i :: 0 <= i < |state.products.items| && state.products.items[i] == r.value &&
        (forall j :: 0 <= j < i ==> state.products.items[j].id != productId)
  {
    FindById(SelectAllProducts(state), productId)
  }

  /** `selectIsFavorite`: some favorite has that id. */
  function SelectIsFavorite(state: RootState, productId: int): (b: bool)
    ensures b <==> exists i :: 0 <= i < |state.favorites.items| && state.favorites.items[i].id == productId
  {
    HasId(SelectFavorites(state), productId)
  }

  lemma SearchStageCount(products: seq<Product>, searchQuery: string)
    ensures forall x :: (multiset(SearchStage(products, searchQuery))[x] ==
                         if MatchesQuery(x, searchQuery) then multiset(products)[x] else 0)
  {
    var query := Lower(searchQuery);
    FilterCount(products, (p: Product) => Includes(Lower(p.title), query));
  }

  lemma CategoryStageCount(products: seq<Product>, selectedCategory: string)
    ensures forall x :: (multiset(CategoryStage(products, selectedCategory))[x] ==
                         if x.category == selectedCategory then multiset(products)[x] else 0)
  {
    FilterCount(products, (p: Product) => p.category == selectedCategory);
  }

  /** The two filter stages keep a subsequence of the catalog. */
  lemma FilterStagesInOrder(products: seq<Product>, searchQuery: string, selectedCategory: string)
    ensures IsSubsequence(FilterStages(products, searchQuery, selectedCategory), products)
  {
    var query := Lower(searchQuery);
    var searched := if searchQuery != "" then SearchStage(products, searchQuery) else products;
    if searchQuery != "" {
      FilterIsSubsequence(products, (p: Product) => Includes(Lower(p.title), query));
    } else {
      SubsequenceReflexive(products);
    }
    if selectedCategory != "" {
      FilterIsSubsequence(searched, (p: Product) => p.category == selectedCategory);
      SubsequenceTransitive(CategoryStage(searched, selectedCategory), searched, products);
    }
  }

  /**
   * What the view contains: each product that passes the search and the
   * category filter, exactly as often as it occurs in the catalog, and
   * nothing else, whatever the sort mode.
   */
  lemma ViewContents(products: seq<Product>, searchQuery: string, selectedCategory: string, sortBy: string)
    ensures forall x :: (multiset(FilteredProducts(products, searchQuery, selectedCategory, sortBy))[x] ==
                         if Selected(x, searchQuery, selectedCategory) then multiset(products)[x] else 0)
  {
    var searched := if searchQuery != "" then SearchStage(products, searchQuery) else products;
    var stages := FilterStages(products, searchQuery, selectedCategory);
    var view := FilteredProducts(products, searchQuery, selectedCategory, sortBy);
    ViewOrder(products, searchQuery, selectedCategory, sortBy);
    assert multiset(view) == multiset(stages);
    if searchQuery != "" { SearchStageCount(products, searchQuery); }
    if selectedCategory != "" { CategoryStageCount(searched, selectedCategory); }
    forall x ensures multiset(view)[x] == if Selected(x, searchQuery, selectedCategory) then multiset(products)[x] else 0 {
      assert multiset(searched)[x] == if searchQuery == "" || MatchesQuery(x, searchQuery) then multiset(products)[x] else 0;
    }
  }

  /**
   * The view's order: without a price sort it is a subsequence of the
   * catalog; with one it is a permutation of that subsequence.
   */
  lemma ViewOrder(products: seq<Product>, searchQuery: string, selectedCategory: string, sortBy: string)
    ensures var stages := FilterStages(products, searchQuery, selectedCategory);
      var view := FilteredProducts(products, searchQuery, selectedCategory, sortBy);
      IsSubsequence(stages, products) && multiset(view) == multiset(stages) &&
      (sortBy != "price-asc" && sortBy != "price-desc" ==> view == stages)
  {
    var stages := FilterStages(products, searchQuery, selectedCategory);
    FilterStagesInOrder(products, searchQuery, selectedCategory);
    SortByPricePermutes(Ascending, stages);
    SortByPricePermutes(Descending, stages);
  }

  /** With the default configuration the view is the catalog, in its order. */
  lemma ViewDefaults(products: seq<Product>, sortBy: string)
    requires sortBy != "price-asc" && sortBy != "price-desc"
    ensures FilteredProducts(products, "", "", sortBy) == products
  {
  }

  /**
   * With a price sort the view is ordered by price, and products of equal
   * price keep the order in which they survived the filters.
   */
  lemma ViewSorted(products: seq<Product>, searchQuery: string, selectedCategory: string, sortBy: string)
    ensures var view := FilteredProducts(products, searchQuery, selectedCategory, sortBy);
      (sortBy == "price-asc" ==> forall i, j :: 0 <= i < j < |view| ==> view[i].price <= view[j].price) &&
      (sortBy == "price-desc" ==> forall i, j :: 0 <= i < j < |view| ==> view[i].price >= view[j].price)
  {
    var stages := FilterStages(products, searchQuery, selectedCategory);
    SortByPriceSorted(Ascending, stages);
    SortByPriceSorted(Descending, stages);
  }

  lemma ViewStable(products: seq<Product>, searchQuery: string, selectedCategory: string, sortBy: string)
    ensures var stages := FilterStages(products, searchQuery, selectedCategory);
      forall p :: PriceGroup(FilteredProducts(products, searchQuery, selectedCategory, sortBy), p) == PriceGroup(stages, p)
  {
    var stages := FilterStages(products, searchQuery, selectedCategory);
    SortByPriceStable(Ascending, stages);
    SortByPriceStable(Descending, stages);
  }

  /**
   * The sorted view is the only arrangement of the filtered products that is
   * ordered by price and keeps equal prices in their filtered order.
   */
  lemma ViewSortUnique(products: seq<Product>, searchQuery: string, selectedCategory: string, d: Direction, other: seq<Product>)
    requires Sorted(d, other)
    requires forall p :: PriceGroup(other, p) == PriceGroup(FilterStages(products, searchQuery, selectedCategory), p)
    ensures other == FilteredProducts(products, searchQuery, selectedCategory, if d == Ascending then "price-asc" else "price-desc")
  {
    var stages := FilterStages(products, searchQuery, selectedCategory);
    SortByPriceSorted(d, stages);
    SortByPriceStable(d, stages);
    SortedGroupsDetermine(d, other, SortByPrice(d, stages));
  }

  /** Search ignores case in the query as well as in the titles. */
  lemma SearchIgnoresCase(products: seq<Product>, q1: string, q2: string, selectedCategory: string, sortBy: string)
    requires q1 != "" && q2 != "" && Lower(q1) == Lower(q2)
    ensures FilteredProducts(products, q1, selectedCategory, sortBy) == FilteredProducts(products, q2, selectedCategory, sortBy)
  {
  }

  /** The three-product catalog of the selector tests; prices in cents. */
  function TestCatalog(): seq<Product>
  {
    [Product(1, "Laptop", 99999, "electronics", "", "", None),
     Product(2, "T-Shirt", 1999, "clothing", "", "", None),
     Product(3, "Phone", 59999, "electronics", "", "", None)]
  }

  lemma LowerPhone()
    ensures Lower("Phone") == "phone"
  {
    var r := Lower("Phone");
    assert LowerChar('P') == 'p' && r[0] == 'p';
  }

  lemma LowerLaptop()
    ensures Lower("Laptop") == "laptop"
  {
    var r := Lower("Laptop");
    assert LowerChar('L') == 'l' && r[0] == 'l';
  }

  lemma LowerShirt()
    ensures Lower("T-Shirt") == "t-shirt"
  {
    var r := Lower("T-Shirt");
    assert LowerChar('T') == 't' && LowerChar('S') == 's' && r[0] == 't' && r[2] == 's';
  }

  /** A title starting with "Laptop" contains "laptop" once lower-cased. */
  lemma TitleMatchesLaptop(t: string)
    requires |t| >= 6 && t[0] == 'L' && t[1] == 'a' && t[2] == 'p' && t[3] == 't' && t[4] == 'o' && t[5] == 'p'
    ensures Includes(Lower(t), "laptop")
  {
    var r := Lower(t);
    assert LowerChar('L') == 'l';
    assert r[0] == 'l' && r[1] == 'a' && r[2] == 'p' && r[3] == 't' && r[4] == 'o' && r[5] == 'p';
    assert r[0..6] == "laptop";
    assert OccursAt(r, "laptop", 0);
  }

  lemma LowerQueryLaptop()
    ensures Lower("laptop") == "laptop"
  {
    var r := Lower("laptop");
    assert r[0] == 'l';
  }

  lemma LowerTestTitles()
    ensures Lower("Phone") == "phone" && Lower("Laptop") == "laptop" && Lower("T-Shirt") == "t-shirt"
  {
    LowerPhone();
    LowerLaptop();
    LowerShirt();
  }

  lemma PhoneInTestTitles()
    ensures !Includes("laptop", "phone") && !Includes("t-shirt", "phone") && Includes("phone", "phone")
  {
    assert !Includes("laptop", "phone") by {
      forall i ensures !OccursAt("laptop", "phone", i) {
        if 0 <= i <= 1 { assert "laptop"[i..i + 5][0] != 'p'; }
      }
    }
    assert !Includes("t-shirt", "phone") by {
      forall i ensures !OccursAt("t-shirt", "phone", i) {
        if 0 <= i <= 2 { assert "t-shirt"[i..i + 5][0] != 'p'; }
      }
    }
    assert Includes("phone", "phone") by { assert OccursAt("phone", "phone", 0); }
  }

  lemma SearchPhoneOnTestCatalog()
    ensures SearchStage(TestCatalog(), "Phone") == [TestCatalog()[2]]
  {
    var c := TestCatalog();
    LowerTestTitles();
    PhoneInTestTitles();
    var f := (p: Product) => Includes(Lower(p.title), "phone");
    assert !f(c[0]) && !f(c[1]) && f(c[2]);
    assert c[1..][1..] == [c[2]];
    assert Filter([c[2]], f) == [c[2]];
    assert Filter(c[1..], f) == [c[2]];
  }

  /** Search "Phone", category "electronics", ascending price: only the phone remains. */
  lemma CombinedFiltersExample()
    ensures FilteredProducts(TestCatalog(), "Phone", "electronics", "price-asc") == [TestCatalog()[2]]
  {
    var c := TestCatalog();
    SearchPhoneOnTestCatalog();
    assert CategoryStage([c[2]], "electronics") == [c[2]];
    assert SortByPrice(Ascending, [c[2]]) == [c[2]];
  }

  /** Category "electronics", ascending price: the phone, then the laptop. */
  lemma CategorySortExample()
    ensures FilteredProducts(TestCatalog(), "", "electronics", "price-asc") == [TestCatalog()[2], TestCatalog()[0]]
  {
    var c := TestCatalog();
    assert CategoryStage(c, "electronics") == [c[0], c[2]];
    assert SortByPrice(Ascending, [c[0]]) == [c[0]];
    assert [c[0], c[2]][..1] == [c[0]];
    assert Insert(Ascending, [c[0]], c[2]) == [c[2], c[0]];
  }

  /**
   * The integration test's search: typing "laptop" finds the product titled
   * "Laptop Computer", whatever its other fields.
   */
  lemma LaptopFound(p: Product, query: string)
    requires p.title == "Laptop Computer" && query == "laptop"
    ensures SearchStage([p], query) == [p]
  {
    assert Includes(Lower(p.title), "laptop") by { TitleMatchesLaptop(p.title); }
    assert Lower(query) == "laptop" by { LowerQueryLaptop(); }
    var f := (x: Product) => Includes(Lower(x.title), Lower(query));
    assert f(p);
  }

  lemma CaseInsensitiveExample(p: Product, query: string)
    requires p.title == "Laptop Computer" && query == "laptop"
    ensures FilteredProducts([p], query, "", "none") == [p]
  {
    LaptopFound(p, query);
    assert FilterStages([p], query, "") == [p];
  }
}

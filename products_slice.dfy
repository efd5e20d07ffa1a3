/**
 * The products slice: the catalog, the category names, the product shown on
 * the detail page, two loading flags and the last error message. The three
 * fetches are modelled only by the events their outcomes dispatch; each
 * reducer case is a method that updates the fields in place.
 */
module ProductsSlice {
  import opened Wrappers
  import opened Catalog

  /** A snapshot of the slice; `None` stands for `null`. */
  datatype ProductsState = ProductsState(
    items: seq<Product>,
    categories: seq<string>,
    selectedProduct: Option<Product>,
    loading: bool,
    categoriesLoading: bool,
    error: Option<string>)

  const InitialState := ProductsState([], [], None, false, false, None)

  /**
   * The actions the slice handles. A rejected product fetch carries the value
   * given to `rejectWithValue`, an error message that may be absent; the
   * reducer ignores the payload of a rejected category fetch, so it has none.
   */
  datatype Event =
    | ClearSelectedProduct
    | ProductsPending
    | ProductsFulfilled(products: seq<Product>)
    | ProductsRejected(message: Option<string>)
    | ProductByIdPending
    | ProductByIdFulfilled(product: Product)
    | ProductByIdRejected(message: Option<string>)
    | CategoriesPending
    | CategoriesFulfilled(names: seq<string>)
    | CategoriesRejected

  /** The reducer, one case per event, as a function on snapshots. */
  function Reduce(s: ProductsState, e: Event): (t: ProductsState)
    ensures !IsCategoryEvent(e) ==> t.categories == s.categories && t.categoriesLoading == s.categoriesLoading
    ensures IsCategoryEvent(e) ==>
      t.items == s.items && t.selectedProduct == s.selectedProduct && t.loading == s.loading && t.error == s.error
    ensures !e.ProductsFulfilled? ==> t.items == s.items
  {
    match e
    case ClearSelectedProduct => s.(selectedProduct := None)
    case ProductsPending => s.(loading := true, error := None)
    case ProductsFulfilled(products) => s.(loading := false, items := products, error := None)
    case ProductsRejected(message) => s.(loading := false, error := message)
    case ProductByIdPending => s.(loading := true, error := None)
    case ProductByIdFulfilled(product) => s.(loading := false, selectedProduct := Some(product), error := None)
    case ProductByIdRejected(message) => s.(loading := false, error := message)
    case CategoriesPending => s.(categoriesLoading := true)
    case CategoriesFulfilled(names) => s.(categoriesLoading := false, categories := names)
    case CategoriesRejected => s.(categoriesLoading := false)
  }

  /** The state after dispatching `events` in order, starting from `s`. */
  function ReduceAll(s: ProductsState, events: seq<Event>): ProductsState
  {
    if events == [] then s
    else Reduce(ReduceAll(s, events[..|events| - 1]), events[|events| - 1])
  }

  /** An error message is never shown while a product fetch is in flight. */
  ghost predicate Consistent(s: ProductsState)
  {
    s.error.Some? ==> !s.loading
  }

  predicate IsCategoryEvent(e: Event)
  {
    e.CategoriesPending? || e.CategoriesFulfilled? || e.CategoriesRejected?
  }

  predicate IsSettled(e: Event)
  {
    e.ProductsFulfilled? || e.ProductsRejected? || e.ProductByIdFulfilled? || e.ProductByIdRejected?
  }

  predicate IsRequest(e: Event)
  {
    e.ProductsPending? || e.ProductByIdPending?
  }

  /**
   * What `loading` should be after `events`: true when the last request or
   * settlement among them was a request, false when it was a settlement, and
   * `initial` when there was neither.
   */
  function LoadingAfter(initial: bool, events: seq<Event>): bool
  {
    if events == [] then initial
    else
      var e := events[|events| - 1];
      if IsRequest(e) then true
      else if IsSettled(e) then false
      else LoadingAfter(initial, events[..|events| - 1])
  }

  /** The catalog after `events`: the payload of the last products fulfilment, if any. */
  function ItemsAfter(initial: seq<Product>, events: seq<Event>): seq<Product>
  {
    if events == [] then initial
    else
      var e := events[|events| - 1];
      if e.ProductsFulfilled? then e.products else ItemsAfter(initial, events[..|events| - 1])
  }

  /** Every event keeps an error out of an in-flight fetch. */
  lemma ReducePreservesConsistent(s: ProductsState, e: Event)
    requires Consistent(s)
    ensures Consistent(Reduce(s, e))
  {
  }

  lemma {:induction false} ReduceAllPreservesConsistent(s: ProductsState, events: seq<Event>)
    requires Consistent(s)
    ensures Consistent(ReduceAll(s, events))
  {
    if events != [] {
      ReduceAllPreservesConsistent(s, events[..|events| - 1]);
    }
  }

  /** Category events touch only `categories` and `categoriesLoading`. */
  lemma {:induction false} CategoryEventsIsolated(s: ProductsState, events: seq<Event>)
    requires forall i :: 0 <= i < |events| ==> IsCategoryEvent(events[i])
    ensures var t := ReduceAll(s, events);
      t.items == s.items && t.selectedProduct == s.selectedProduct &&
      t.loading == s.loading && t.error == s.error
  {
    if events != [] {
      CategoryEventsIsolated(s, events[..|events| - 1]);
    }
  }

  /**
   * `loading` is true exactly when the last product or product-by-id event
   * that is a request or a settlement was a request. The two fetches share
   * the flag, so a settlement of either clears it even while the other fetch
   * is still pending.
   */
  lemma {:induction false} LoadingTracksRequests(s: ProductsState, events: seq<Event>)
    ensures ReduceAll(s, events).loading == LoadingAfter(s.loading, events)
  {
    if events != [] {
      LoadingTracksRequests(s, events[..|events| - 1]);
    }
  }

  /** Only a products fulfilment replaces the catalog, and the latest one wins. */
  lemma {:induction false} ItemsFromLastFulfilment(s: ProductsState, events: seq<Event>)
    ensures ReduceAll(s, events).items == ItemsAfter(s.items, events)
  {
    if events != [] {
      ItemsFromLastFulfilment(s, events[..|events| - 1]);
    }
  }

  class Products {
    var items: seq<Product>
    var categories: seq<string>
    var selectedProduct: Option<Product>
    var loading: bool
    var categoriesLoading: bool
    var error: Option<string>

    function State(): ProductsState
      reads this
    {
      ProductsState(items, categories, selectedProduct, loading, categoriesLoading, error)
    }

    constructor ()
      ensures State() == InitialState && Consistent(State())
    {
      items, categories, selectedProduct := [], [], None;
      loading, categoriesLoading, error := false, false, None;
    }

    method ClearSelectedProduct()
      modifies this
      ensures State() == old(State()).(selectedProduct := None)
      ensures old(Consistent(State())) ==> Consistent(State())
    {
      selectedProduct := None;
    }

    method FetchProductsPending()
      modifies this
      ensures State() == old(State()).(loading := true, error := None)
      ensures Consistent(State())
    {
      loading := true;
      error := None;
    }

    method FetchProductsFulfilled(payload: seq<Product>)
      modifies this
      ensures State() == old(State()).(loading := false, items := payload, error := None)
      ensures Consistent(State())
    {
      loading := false;
      items := payload;
      error := None;
    }

    method FetchProductsRejected(payload: Option<string>)
      modifies this
      ensures State() == old(State()).(loading := false, error := payload)
      ensures Consistent(State())
    {
      loading := false;
      error := payload;
    }

    method FetchProductByIdPending()
      modifies this
      ensures State() == old(State()).(loading := true, error := None)
      ensures Consistent(State())
    {
      loading := true;
      error := None;
    }

    method FetchProductByIdFulfilled(payload: Product)
      modifies this
      ensures State() == old(State()).(loading := false, selectedProduct := Some(payload), error := None)
      ensures Consistent(State())
    {
      loading := false;
      selectedProduct := Some(payload);
      error := None;
    }

    method FetchProductByIdRejected(payload: Option<string>)
      modifies this
      ensures State() == old(State()).(loading := false, error := payload)
      ensures Consistent(State())
    {
      loading := false;
      error := payload;
    }

    method FetchCategoriesPending()
      modifies this
      ensures State() == old(State()).(categoriesLoading := true)
      ensures old(Consistent(State())) ==> Consistent(State())
    {
      categoriesLoading := true;
    }

    method FetchCategoriesFulfilled(payload: seq<string>)
      modifies this
      ensures State() == old(State()).(categoriesLoading := false, categories := payload)
      ensures old(Consistent(State())) ==> Consistent(State())
    {
      categoriesLoading := false;
      categories := payload;
    }

    method FetchCategoriesRejected()
      modifies this
      ensures State() == old(State()).(categoriesLoading := false)
      ensures old(Consistent(State())) ==> Consistent(State())
    {
      categoriesLoading := false;
    }

    /** The slice reducer: routes an action to its case. */
    method Dispatch(e: Event)
      modifies this
      ensures State() == Reduce(old(State()), e)
    {
      match e
      case ClearSelectedProduct => ClearSelectedProduct();
      case ProductsPending => FetchProductsPending();
      case ProductsFulfilled(products) => FetchProductsFulfilled(products);
      case ProductsRejected(message) => FetchProductsRejected(message);
      case ProductByIdPending => FetchProductByIdPending();
      case ProductByIdFulfilled(product) => FetchProductByIdFulfilled(product);
      case ProductByIdRejected(message) => FetchProductByIdRejected(message);
      case CategoriesPending => FetchCategoriesPending();
      case CategoriesFulfilled(names) => FetchCategoriesFulfilled(names);
      case CategoriesRejected => FetchCategoriesRejected();
    }
  }
}

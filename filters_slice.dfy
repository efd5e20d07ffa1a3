/**
 * The filter configuration slice: the search text, the selected category
 * and the sort mode, mutated in place by single-field setters and reset to
 * the defaults. `sortBy` is kept as the string the store holds; the view only
 * recognises "price-asc" and "price-desc".
 */
module FiltersSlice {

  /** A snapshot of the slice, as the selectors read it. */
  datatype FiltersState = FiltersState(searchQuery: string, selectedCategory: string, sortBy: string)

  /** Empty search, every category, no sort. */
  const InitialState := FiltersState("", "", "none")

  class Filters {
    var searchQuery: string
    var selectedCategory: string
    var sortBy: string

    function State(): FiltersState
      reads this
    {
      FiltersState(searchQuery, selectedCategory, sortBy)
    }

    constructor ()
      ensures State() == InitialState
    {
      searchQuery, selectedCategory, sortBy := "", "", "none";
    }

    method SetSearchQuery(query: string)
      modifies this
      ensures searchQuery == query
      ensures selectedCategory == old(selectedCategory) && sortBy == old(sortBy)
    {
      searchQuery := query;
    }

    method SetSelectedCategory(category: string)
      modifies this
      ensures selectedCategory == category
      ensures searchQuery == old(searchQuery) && sortBy == old(sortBy)
    {
      selectedCategory := category;
    }

    method SetSortBy(mode: string)
      modifies this
      ensures sortBy == mode
      ensures searchQuery == old(searchQuery) && selectedCategory == old(selectedCategory)
    {
      sortBy := mode;
    }

    /** Restores all three defaults, whatever the fields held before. */
    method ResetFilters()
      modifies this
      ensures State() == InitialState
    {
      searchQuery := "";
      selectedCategory := "";
      sortBy := "none";
    }
  }

  /**
   * A fresh slice with every field set, reset once and then again: the first
   * reset restores the defaults and the second changes nothing.
   */
  method ResetTwice() returns (before: FiltersState, once: FiltersState, twice: FiltersState)
    ensures before == FiltersState("test", "electronics", "price-asc")
    ensures once == InitialState
    ensures twice == once
  {
    var f := new Filters();
    f.SetSearchQuery("test");
    f.SetSelectedCategory("electronics");
    f.SetSortBy("price-asc");
    before := f.State();
    f.ResetFilters();
    once := f.State();
    f.ResetFilters();
    twice := f.State();
  }
}

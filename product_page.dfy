/**
 * The `ProductPage` component: four pieces of state and the three change
 * handlers. Each handler stores its new parameter and then re-filters or
 * re-sorts the list currently shown, reading `filterOptions` and `sortBy`
 * as they were before the event: a React state update becomes visible only
 * on the next render, not inside the handler that requested it.
 */
module ProductPageComponent {
  import opened Sequences
  import opened Catalog
  import opened Filtering
  import opened Sorting

  class ProductPage {
    var products: seq<Product>
    var searchTerm: string
    var sortBy: string
    var filterOptions: FilterOptions

    /** The list the catalogue service delivered, the only source of entries. */
    ghost var loaded: seq<Product>

    /** The shown list only ever holds entries of the delivered one. */
    ghost predicate Valid()
      reads this
    {
      multiset(products) <= multiset(loaded)
    }

    /** The initial state of the four `useState` hooks. */
    constructor ()
      ensures Valid()
      ensures products == [] && loaded == []
      ensures searchTerm == "" && sortBy == "" && filterOptions == NO_FILTERS
    {
      products := [];
      searchTerm := "";
      sortBy := "";
      filterOptions := NO_FILTERS;
      loaded := [];
    }

    /** `setProducts(data)` once the fetch has delivered `data`. */
    method Load(data: seq<Product>)
      modifies this
      ensures Valid()
      ensures products == data && loaded == data
      ensures searchTerm == old(searchTerm) && sortBy == old(sortBy) && filterOptions == old(filterOptions)
    {
      products := data;
      loaded := data;
    }

    /**
     * `handleSearchChange`: stores the text and re-filters the shown list.
     * The new list depends on the old list and the flags only; the search
     * text is never read.
     */
    method HandleSearchChange(value: string)
      requires Valid()
      modifies this
      ensures Valid() && loaded == old(loaded)
      ensures searchTerm == value
      ensures sortBy == old(sortBy) && filterOptions == old(filterOptions)
      ensures products == Filtered(old(products), old(filterOptions))
    {
      var current, opts := products, filterOptions;
      searchTerm := value;
      var filtered := FilterProducts(current, opts);
      products := filtered;
    }

    /**
     * `handleSortChange`: stores the key and re-sorts the shown list by the
     * key that was selected before this event.
     */
    method HandleSortChange(value: string)
      requires Valid()
      modifies this
      ensures Valid() && loaded == old(loaded)
      ensures sortBy == value
      ensures searchTerm == old(searchTerm) && filterOptions == old(filterOptions)
      ensures products == SortedFor(old(products), old(sortBy))
      ensures multiset(products) == multiset(old(products))
    {
      var current, key := products, sortBy;
      sortBy := value;
      var sorted := SortProducts(current, key);
      products := sorted;
    }

    /**
     * `handleFilterChange`: sets the flag the check box `name` stands for and
     * re-filters the shown list with the flags as they were before this event.
     */
    method HandleFilterChange(name: string, checked: bool)
      requires Valid()
      modifies this
      ensures Valid() && loaded == old(loaded)
      ensures filterOptions == SetFlag(old(filterOptions), name, checked)
      ensures searchTerm == old(searchTerm) && sortBy == old(sortBy)
      ensures products == Filtered(old(products), old(filterOptions))
    {
      var current, opts := products, filterOptions;
      filterOptions := SetFlag(opts, name, checked);
      var filtered := FilterProducts(current, opts);
      products := filtered;
    }
  }

  /**
   * A scenario method (no contract; its asserts are what is checked): on a
   * two-entry catalogue, ticking "New" leaves the list as it
   * was, because the filter runs with the flags from before the tick; the
   * next event, clearing the box again, applies the new-filter; and the old
   * entry does not come back.
   */
  method StaleFilterSession(older: Product, newer: Product)
    requires IsOld(older) && IsNew(newer)
  {
    NeverNewAndOld(older);
    var page := new ProductPage();
    page.Load([older, newer]);
    page.HandleFilterChange("new", true);
    assert page.filterOptions == FilterOptions(true, false);
    assert page.products == [older, newer];
    page.HandleFilterChange("new", false);
    assert page.filterOptions == NO_FILTERS;
    assert Filter([older, newer], IsNew) == [newer] by {
      FilterConcat([older], [newer], IsNew);
      assert [older] + [newer] == [older, newer];
    }
    assert page.products == [newer];
    page.HandleSearchChange("anything");
    assert page.products == [newer];
  }
}

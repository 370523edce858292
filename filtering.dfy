/**
 * `filterProducts`: the date filters behind the "New" and "Old" check boxes.
 * The two filters run one after the other on the list the page currently
 * shows, so their effects compound.
 */
module Filtering {
  import opened Sequences
  import opened Catalog

  /**
   * The page's `filterOptions` record `{ new, old }`. The fields are renamed
   * because `new` and `old` are Dafny keywords.
   */
  datatype FilterOptions = FilterOptions(showNew: bool, showOld: bool)

  /** The initial `filterOptions`: both boxes unchecked. */
  const NO_FILTERS: FilterOptions := FilterOptions(false, false)

  /**
   * `{ ...filterOptions, [name]: checked }`. A `name` other than the two
   * check boxes' names adds a property that nothing reads, so the two flags
   * stay as they were.
   */
  function SetFlag(opts: FilterOptions, name: string, checked: bool): (r: FilterOptions)
    ensures r.showNew == (if name == "new" then checked else opts.showNew)
    ensures r.showOld == (if name == "old" then checked else opts.showOld)
  {
    if name == "new" then opts.(showNew := checked)
    else if name == "old" then opts.(showOld := checked)
    else opts
  }

  /** `p` passes every date check that `opts` switches on. */
  predicate Admits(opts: FilterOptions, p: Product) {
    (opts.showNew ==> IsNew(p)) && (opts.showOld ==> IsOld(p))
  }

  /** `Admits(opts, _)` as a value that `Filter` can take. */
  function AdmittedBy(opts: FilterOptions): Product -> bool {
    p => Admits(opts, p)
  }

  /** The list `filterProducts` stores: the new-filter, then the old-filter. */
  function Filtered(products: seq<Product>, opts: FilterOptions): seq<Product> {
    var afterNew := if opts.showNew then Filter(products, IsNew) else products;
    if opts.showOld then Filter(afterNew, IsOld) else afterNew
  }

  /** The flags of both `a` and `b`: the options one filter pass with both would use. */
  function Join(a: FilterOptions, b: FilterOptions): FilterOptions {
    FilterOptions(a.showNew || b.showNew, a.showOld || b.showOld)
  }

  /**
   * `filterProducts` (without the final `setProducts`): copies the list and
   * narrows the local copy once per checked box.
   */
  method FilterProducts(products: seq<Product>, opts: FilterOptions) returns (filtered: seq<Product>)
    ensures filtered == Filtered(products, opts)
    ensures IsSubsequence(filtered, products)
    ensures multiset(filtered) <= multiset(products)
    ensures forall p :: p in filtered <==> p in products && Admits(opts, p)
    ensures !opts.showNew && !opts.showOld ==> filtered == products
    ensures opts.showNew && opts.showOld ==> filtered == []
  {
    filtered := products;
    if opts.showNew {
      filtered := Filter(filtered, IsNew);
    }
    if opts.showOld {
      filtered := Filter(filtered, IsOld);
    }
    FilteredIsOnePass(products, opts);
    FilterIsSubsequence(products, AdmittedBy(opts));
    if opts.showNew && opts.showOld {
      FilteredBothFlagsEmpty(products);
    }
  }

  /** With both boxes checked nothing survives: no date is after and before the cutoff. */
  lemma FilteredBothFlagsEmpty(products: seq<Product>)
    ensures Filtered(products, FilterOptions(true, true)) == []
  {
    var r := Filtered(products, FilterOptions(true, true));
    if r != [] {
      assert r[0] in r;
      NeverNewAndOld(r[0]);
    }
  }

  /** The two passes in sequence equal one pass with the conjunction of the active checks. */
  lemma {:induction false} FilteredIsOnePass(products: seq<Product>, opts: FilterOptions)
    ensures Filtered(products, opts) == Filter(products, AdmittedBy(opts))
  {
    var keep := AdmittedBy(opts);
    if opts.showNew && opts.showOld {
      FilteredBothFlagsEmpty(products);
      var r := Filter(products, keep);
      if r != [] {
        assert r[0] in r;
        NeverNewAndOld(r[0]);
      }
    } else if opts.showNew {
      FilterCongruent(products, IsNew, keep);
    } else if opts.showOld {
      FilterCongruent(products, IsOld, keep);
    } else {
      FilterKeepsAll(products, keep);
    }
  }

  /**
   * Filtering the already filtered list, as every later handler does,
   * compounds: the result is the original list filtered once with every flag
   * that either pass had set. Clearing a box never brings entries back.
   */
  lemma FilteredTwice(products: seq<Product>, first: FilterOptions, second: FilterOptions)
    ensures Filtered(Filtered(products, first), second) == Filtered(products, Join(first, second))
  {
    FilteredIsOnePass(products, first);
    FilteredIsOnePass(Filtered(products, first), second);
    FilteredIsOnePass(products, Join(first, second));
    FilterFuse(products, AdmittedBy(first), AdmittedBy(second), AdmittedBy(Join(first, second)));
  }

  /** Filtering twice with the same options is filtering once. */
  lemma FilteredIdempotent(products: seq<Product>, opts: FilterOptions)
    ensures Filtered(Filtered(products, opts), opts) == Filtered(products, opts)
  {
    FilteredTwice(products, opts, opts);
    assert Join(opts, opts) == opts;
  }
}

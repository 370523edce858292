/**
 * The product record and the date comparison the product list uses.
 * `creationAt` is an ISO 8601 text, and the page compares it with the
 * cutoff day by JavaScript's string `<` and `>`.
 */
module Catalog {

  /**
   * A catalogue entry. It keeps the fields the list logic reads, plus `id`
   * and `title`, which identify an entry; `price` is an integer here (the
   * source's number is a double).
   */
  datatype Product = Product(id: int, title: string, price: int, creationAt: string)

  /** The fixed day that separates new products from old ones. */
  const CUTOFF: string := "2021-01-01"

  /**
   * JavaScript's `a < b` on two strings: the first differing character
   * decides, and a proper prefix is smaller. (Dafny's own `<` on sequences
   * means "proper prefix", which is only half of this.)
   */
  predicate StrLess(a: string, b: string)
    decreases |a|
  {
    if |b| == 0 then false
    else if |a| == 0 then true
    else if a[0] != b[0] then a[0] < b[0]
    else StrLess(a[1..], b[1..])
  }

  /** `product.creationAt > '2021-01-01'` */
  predicate IsNew(p: Product) {
    StrLess(CUTOFF, p.creationAt)
  }

  /** `product.creationAt < '2021-01-01'` */
  predicate IsOld(p: Product) {
    StrLess(p.creationAt, CUTOFF)
  }

  lemma {:induction false} StrLessIrreflexive(a: string)
    ensures !StrLess(a, a)
  {
    if |a| > 0 {
      StrLessIrreflexive(a[1..]);
    }
  }

  lemma {:induction false} StrLessAsymmetric(a: string, b: string)
    ensures StrLess(a, b) ==> !StrLess(b, a)
  {
    if |a| > 0 && |b| > 0 && a[0] == b[0] {
      StrLessAsymmetric(a[1..], b[1..]);
    }
  }

  /** Two different strings are always ordered one way or the other. */
  lemma {:induction false} StrLessTotal(a: string, b: string)
    ensures a == b || StrLess(a, b) || StrLess(b, a)
  {
    if |a| > 0 && |b| > 0 && a[0] == b[0] {
      StrLessTotal(a[1..], b[1..]);
      assert a == [a[0]] + a[1..] && b == [b[0]] + b[1..];
    }
  }

  lemma {:induction false} StrLessTransitive(a: string, b: string, c: string)
    requires StrLess(a, b) && StrLess(b, c)
    ensures StrLess(a, c)
  {
    if |a| > 0 && a[0] == b[0] && b[0] == c[0] {
      StrLessTransitive(a[1..], b[1..], c[1..]);
    }
  }

  /** A string is smaller than every proper extension of it. */
  lemma {:induction false} StrLessProperPrefix(a: string, t: string)
    requires |t| > 0
    ensures StrLess(a, a + t)
  {
    if |a| > 0 {
      assert (a + t)[0] == a[0];
      assert (a + t)[1..] == a[1..] + t;
      StrLessProperPrefix(a[1..], t);
    }
  }

  /** No product is both new and old. */
  lemma NeverNewAndOld(p: Product)
    ensures !(IsNew(p) && IsOld(p))
  {
    StrLessAsymmetric(CUTOFF, p.creationAt);
  }

  /** A product is new or old exactly when its date is not the cutoff text itself. */
  lemma NewOrOldUnlessCutoff(p: Product)
    ensures IsNew(p) || IsOld(p) <==> p.creationAt != CUTOFF
  {
    StrLessTotal(CUTOFF, p.creationAt);
    StrLessIrreflexive(CUTOFF);
  }

  /**
   * A full timestamp on the cutoff day (`2021-01-01T10:00:00.000Z`) extends
   * the cutoff text, so such a product counts as new.
   */
  lemma CutoffDayIsNew(p: Product, time: string)
    requires p.creationAt == CUTOFF + time && |time| > 0
    ensures IsNew(p) && !IsOld(p)
  {
    StrLessProperPrefix(CUTOFF, time);
    NeverNewAndOld(p);
  }
}

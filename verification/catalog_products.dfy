/**
 * Products of the catalog page: category matching, the category filter and the
 * slug and id normalisation `init` applies to every loaded product.
 */
module CatalogProducts {
  import opened Wrappers
  import opened Text
  import opened CatalogText

  /** `product.category`: missing (or any falsy value), one string, or an array of strings. */
  datatype Category = Uncategorised | Named(name: string) | Listed(names: seq<string>)

  /**
   * The fields of a product the catalog logic reads. A missing `id`, `slug` or `title`
   * is the empty string; `price` is in cents, `None` when missing.
   */
  datatype Product = Product(id: string, slug: string, title: string, price: Option<int>, category: Category)

  /** A selection that keeps every product: empty (falsy) or exactly `all`. */
  predicate SelectsAll(category: string) {
    category == "" || category == "all"
  }

  /** `prodCat.map(normalizeCategory)`. */
  function NormalizeAll(names: seq<string>): (r: seq<string>)
    ensures |r| == |names|
    ensures forall i :: 0 <= i < |names| ==> r[i] == NormalizeCategory(names[i])
  {
    seq(|names|, i requires 0 <= i < |names| => NormalizeCategory(names[i]))
  }

  /** `productMatchesCategory(product, category)`. */
  function ProductMatchesCategory(p: Product, category: string): bool {
    if SelectsAll(category) then true
    else
      var c := NormalizeCategory(category);
      match p.category
      case Uncategorised => false
      case Named(name) => name != "" && NormalizeCategory(name) == c
      case Listed(names) => c in NormalizeAll(names)
  }

  /**
   * What a match means, case by case: every product passes an empty or `all` selection;
   * otherwise a product without a category never matches, a list category matches iff
   * one of its normalised entries is the normalised selection, and a string category
   * iff the two normalised values agree.
   */
  lemma MatchCases(p: Product, category: string)
    ensures SelectsAll(category) ==> ProductMatchesCategory(p, category)
    ensures !SelectsAll(category) && (p.category.Uncategorised? || p.category == Named("")) ==>
              !ProductMatchesCategory(p, category)
    ensures !SelectsAll(category) && p.category.Listed? ==>
              (ProductMatchesCategory(p, category) <==>
                 exists i :: 0 <= i < |p.category.names| &&
                   NormalizeCategory(p.category.names[i]) == NormalizeCategory(category))
    ensures !SelectsAll(category) && p.category.Named? && p.category.name != "" ==>
              (ProductMatchesCategory(p, category) <==>
                 NormalizeCategory(p.category.name) == NormalizeCategory(category))
  {
    if !SelectsAll(category) && p.category.Listed? {
      var names := p.category.names;
      var c := NormalizeCategory(category);
      if ProductMatchesCategory(p, category) {
        var i :| 0 <= i < |names| && NormalizeAll(names)[i] == c;
        assert NormalizeCategory(names[i]) == c;
      }
    }
  }

  /**
   * Only the normalised selection counts: padding the selection with whitespace or
   * changing its letter case selects the same products, as long as the selection
   * keeps away from the empty and the `all` selection.
   */
  lemma MatchIgnoresCaseAndPadding(p: Product, a: string, b: string, pre: string, post: string)
    requires AllWhitespace(pre) && AllWhitespace(post) && SameUpToCase(a, b)
    requires !SelectsAll(pre + a + post) && !SelectsAll(b)
    ensures ProductMatchesCategory(p, pre + a + post) == ProductMatchesCategory(p, b)
  {
    NormalizeCategoryIgnoresPadding(pre, a, post);
    NormalizeCategoryIgnoresCase(a, b);
  }

  /** `PRODUCTS.filter(p => productMatchesCategory(p, category))`. */
  function Filter(products: seq<Product>, category: string): (r: seq<Product>)
    ensures |r| <= |products|
    ensures forall x :: x in r ==> x in products && ProductMatchesCategory(x, category)
  {
    if products == [] then []
    else
      (if ProductMatchesCategory(products[0], category) then [products[0]] else [])
        + Filter(products[1..], category)
  }

  /** Filtering a concatenation filters each part and keeps them in order. */
  lemma {:induction false} FilterAppend(a: seq<Product>, b: seq<Product>, category: string)
    ensures Filter(a + b, category) == Filter(a, category) + Filter(b, category)
  {
    if a != [] {
      assert (a + b)[1..] == a[1..] + b;
      FilterAppend(a[1..], b, category);
    } else {
      assert a + b == b;
    }
  }

  /** A product is kept iff it is in the list and matches. */
  lemma {:induction false} FilterMembership(products: seq<Product>, category: string, x: Product)
    ensures x in Filter(products, category) <==> x in products && ProductMatchesCategory(x, category)
  {
    if products != [] {
      FilterMembership(products[1..], category, x);
      assert products == [products[0]] + products[1..];
    }
  }

  /** An empty or `all` selection keeps the whole list, in order. */
  lemma {:induction false} FilterSelectsAll(products: seq<Product>, category: string)
    requires SelectsAll(category)
    ensures Filter(products, category) == products
  {
    if products != [] {
      FilterSelectsAll(products[1..], category);
      assert products == [products[0]] + products[1..];
    }
  }

  /** Filtering twice with the same selection is filtering once. */
  lemma {:induction false} FilterIdempotent(products: seq<Product>, category: string)
    ensures Filter(Filter(products, category), category) == Filter(products, category)
  {
    if products != [] {
      var head := if ProductMatchesCategory(products[0], category) then [products[0]] else [];
      FilterIdempotent(products[1..], category);
      FilterAppend(head, Filter(products[1..], category), category);
      assert Filter(head, category) == head by {
        if head != [] {
          assert head[1..] == [];
        }
      }
    }
  }

  /**
   * The per-product step of `init`: a missing slug is derived from a present title, then
   * a missing id becomes the slug, or the random fallback id when there is still no slug.
   */
  function NormalizeProduct(p: Product, randomId: string): (q: Product)
    ensures q.title == p.title && q.price == p.price && q.category == p.category
  {
    var slug := if p.slug == "" && p.title != "" then Slugify(p.title) else p.slug;
    var id := if p.id != "" then p.id else if slug != "" then slug else randomId;
    p.(slug := slug, id := id)
  }

  /**
   * What normalisation promises: present fields are kept; a derived slug has no
   * whitespace and no upper-case letter; a product with a slug or a title ends with a
   * non-empty id; and normalising again changes nothing, whatever the random id.
   */
  lemma NormalizeProductSound(p: Product, randomId: string, other: string)
    ensures var q := NormalizeProduct(p, randomId);
            (p.slug != "" ==> q.slug == p.slug)
            && (p.id != "" ==> q.id == p.id)
            && (q.slug != "" <==> p.slug != "" || p.title != "")
            && (p.slug == "" ==> forall i :: 0 <= i < |q.slug| ==> !IsWhitespace(q.slug[i]) && !IsUpper(q.slug[i]))
            && (p.id == "" && q.slug != "" ==> q.id == q.slug)
            && (p.slug != "" || p.title != "" || p.id != "" ==> q.id != "")
            && (q.id != "" ==> NormalizeProduct(q, other) == q)
  {
  }

  /** `PRODUCTS.forEach(...)` in `init`, one random fallback id per product. */
  method InitProducts(a: array<Product>, randomIds: seq<string>)
    requires |randomIds| == a.Length
    modifies a
    ensures forall i :: 0 <= i < a.Length ==> a[i] == NormalizeProduct(old(a[i]), randomIds[i])
  {
    var i := 0;
    while i < a.Length
      invariant 0 <= i <= a.Length
      invariant forall k :: 0 <= k < i ==> a[k] == NormalizeProduct(old(a[k]), randomIds[k])
      invariant forall k :: i <= k < a.Length ==> a[k] == old(a[k])
    {
      a[i] := NormalizeProduct(a[i], randomIds[i]);
      i := i + 1;
    }
  }
}

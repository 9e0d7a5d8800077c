/**
 * The category menu of the catalog page: the categories gathered from the products,
 * deduplicated and sorted, the option labels, and the value the menu shows afterwards.
 */
module CatalogMenu {
  import opened Wrappers
  import opened Text
  import opened CatalogText
  import opened CatalogProducts

  /** The normalised categories one product adds to the set: none for a falsy category. */
  function ProductCategories(p: Product): seq<string> {
    match p.category
    case Uncategorised => []
    case Named(name) => if name == "" then [] else [NormalizeCategory(name)]
    case Listed(names) => NormalizeAll(names)
  }

  /** The categories of all the products, product by product, duplicates included. */
  function CatalogCategories(products: seq<Product>): seq<string> {
    if products == [] then []
    else CatalogCategories(products[..|products| - 1]) + ProductCategories(products[|products| - 1])
  }

  predicate StrictlySorted(s: seq<string>) {
    forall i, j :: 0 <= i < j < |s| ==> StrLess(s[i], s[j])
  }

  predicate Distinct(s: seq<string>) {
    forall i, j :: 0 <= i < j < |s| ==> s[i] != s[j]
  }

  /** `set.add(x)` on a JavaScript `Set`, kept in insertion order. */
  function AddToSet(s: seq<string>, x: string): (r: seq<string>)
    ensures Distinct(s) ==> Distinct(r)
    ensures Elements(r) == Elements(s) + {x}
  {
    if x in s then s else s + [x]
  }

  /** Inserts `x` into a strictly sorted list, keeping it strictly sorted. */
  function InsertSorted(s: seq<string>, x: string): (r: seq<string>)
    ensures forall y :: y in r <==> y in s || y == x
  {
    if s == [] then [x]
    else if x == s[0] then s
    else if StrLess(x, s[0]) then [x] + s
    else [s[0]] + InsertSorted(s[1..], x)
  }

  lemma {:induction false} InsertSortedSorted(s: seq<string>, x: string)
    requires StrictlySorted(s)
    ensures StrictlySorted(InsertSorted(s, x))
  {
    if s != [] && x != s[0] {
      if StrLess(x, s[0]) {
        forall j | 0 <= j < |s| ensures StrLess(x, s[j]) {
          if j > 0 { StrLessTransitive(x, s[0], s[j]); }
        }
      } else {
        StrLessTotal(x, s[0]);
        InsertSortedSorted(s[1..], x);
        var r := InsertSorted(s[1..], x);
        forall j | 0 <= j < |r| ensures StrLess(s[0], r[j]) {
          if r[j] != x {
            assert r[j] in r;
            var k :| 0 <= k < |s[1..]| && s[1..][k] == r[j];
            assert s[k + 1] == r[j];
          }
        }
      }
    }
  }

  /** `Array.from(set).sort()`. */
  function SortStrings(s: seq<string>): (r: seq<string>)
    ensures forall y :: y in r <==> y in s
  {
    if s == [] then []
    else
      assert s == s[..|s| - 1] + [s[|s| - 1]];
      InsertSorted(SortStrings(s[..|s| - 1]), s[|s| - 1])
  }

  lemma {:induction false} SortStringsSorted(s: seq<string>)
    ensures StrictlySorted(SortStrings(s))
  {
    if s != [] {
      SortStringsSorted(s[..|s| - 1]);
      InsertSortedSorted(SortStrings(s[..|s| - 1]), s[|s| - 1]);
    }
  }

  lemma StrictlySortedDistinct(s: seq<string>)
    requires StrictlySorted(s)
    ensures Distinct(s)
  {
    forall i, j | 0 <= i < j < |s| ensures s[i] != s[j] {
      StrLessIrreflexive(s[i]);
    }
  }

  /** Past the common first element, two strictly sorted lists with the same elements agree on the rest. */
  lemma TailMembers(a: seq<string>, b: seq<string>, y: string)
    requires StrictlySorted(a) && StrictlySorted(b) && a != [] && b != [] && a[0] == b[0]
    requires Elements(a) == Elements(b)
    requires y in a[1..]
    ensures y in b[1..]
  {
    var k :| 0 <= k < |a[1..]| && a[1..][k] == y;
    assert StrLess(a[0], a[k + 1]);
    StrLessIrreflexive(y);
    assert y in Elements(a);
    var m :| 0 <= m < |b| && b[m] == y;
    assert m != 0;
    assert b[1..][m - 1] == y;
  }

  /** A strictly sorted list is determined by its elements. */
  lemma {:induction false} StrictlySortedUnique(a: seq<string>, b: seq<string>)
    requires StrictlySorted(a) && StrictlySorted(b)
    requires Elements(a) == Elements(b)
    ensures a == b
  {
    assert a != [] ==> a[0] in Elements(b);
    assert b != [] ==> b[0] in Elements(a);
    if a != [] && b != [] {
      if a[0] != b[0] {
        var i :| 0 <= i < |b| && b[i] == a[0];
        var j :| 0 <= j < |a| && a[j] == b[0];
        StrLessAsymmetric(b[0], a[0]);
        assert false;
      }
      forall y ensures y in a[1..] <==> y in b[1..] {
        if y in a[1..] {
          TailMembers(a, b, y);
        }
        if y in b[1..] {
          TailMembers(b, a, y);
        }
      }
      assert Elements(a[1..]) == Elements(b[1..]);
      StrictlySortedUnique(a[1..], b[1..]);
    }
  }

  /**
   * The category gathering of `populateMenuOptions`: every product's categories are added
   * to a set, which is then sorted. The result is strictly sorted (so duplicate-free) and
   * holds exactly the categories of the products.
   */
  method GatherCategories(products: seq<Product>) returns (categories: seq<string>)
    ensures StrictlySorted(categories) && Distinct(categories)
    ensures Elements(categories) == Elements(CatalogCategories(products))
    ensures categories == MenuCategories(products)
  {
    var added: seq<string> := [];
    var i := 0;
    while i < |products|
      invariant 0 <= i <= |products|
      invariant Distinct(added)
      invariant Elements(added) == Elements(CatalogCategories(products[..i]))
    {
      var cs := ProductCategories(products[i]);
      var j := 0;
      while j < |cs|
        invariant 0 <= j <= |cs|
        invariant Distinct(added)
        invariant Elements(added) == Elements(CatalogCategories(products[..i]) + cs[..j])
      {
        ElementsSnoc(CatalogCategories(products[..i]), cs, j);
        added := AddToSet(added, cs[j]);
        j := j + 1;
      }
      assert cs[..j] == cs;
      CatalogCategoriesExtend(products, i);
      i := i + 1;
    }
    assert products[..i] == products;
    categories := SortStrings(added);
    assert Elements(categories) == Elements(added);
    SortStringsSorted(added);
    StrictlySortedDistinct(categories);
    MenuCategoriesSound(products);
    StrictlySortedUnique(categories, MenuCategories(products));
  }

  /** The menu's category list as a function of the products. */
  function MenuCategories(products: seq<Product>): seq<string> {
    SortStrings(CatalogCategories(products))
  }

  /** It is sorted, duplicate-free and holds exactly the products' normalised categories. */
  lemma MenuCategoriesSound(products: seq<Product>)
    ensures StrictlySorted(MenuCategories(products)) && Distinct(MenuCategories(products))
    ensures Elements(MenuCategories(products)) == Elements(CatalogCategories(products))
    ensures forall c :: c in MenuCategories(products) ==> NormalizeCategory(c) == c
  {
    SortStringsSorted(CatalogCategories(products));
    StrictlySortedDistinct(MenuCategories(products));
    CatalogCategoriesNormalized(products);
  }

  /** The set of elements of a list. */
  function Elements(s: seq<string>): set<string> {
    set x | x in s
  }

  lemma ElementsSnoc(prefix: seq<string>, cs: seq<string>, j: nat)
    requires j < |cs|
    ensures Elements(prefix + cs[..j + 1]) == Elements(prefix + cs[..j]) + {cs[j]}
  {
    assert prefix + cs[..j + 1] == (prefix + cs[..j]) + [cs[j]];
  }

  lemma CatalogCategoriesExtend(products: seq<Product>, i: nat)
    requires i < |products|
    ensures CatalogCategories(products[..i + 1]) == CatalogCategories(products[..i]) + ProductCategories(products[i])
  {
    assert products[..i + 1][..i] == products[..i];
  }

  /** Every gathered category is already normalised. */
  lemma {:induction false} CatalogCategoriesNormalized(products: seq<Product>)
    ensures forall c :: c in CatalogCategories(products) ==> NormalizeCategory(c) == c
  {
    if products != [] {
      CatalogCategoriesNormalized(products[..|products| - 1]);
      var p := products[|products| - 1];
      forall c | c in ProductCategories(p) ensures NormalizeCategory(c) == c {
        match p.category
        case Uncategorised =>
        case Named(name) =>
          NormalizeCategoryIdempotent(name);
        case Listed(names) =>
          var k :| 0 <= k < |names| && NormalizeAll(names)[k] == c;
          NormalizeCategoryIdempotent(names[k]);
      }
    }
  }

  /** An `<option>` of the menu. */
  datatype MenuOption = MenuOption(value: string, caption: string)

  /** The fixed `All` option followed by one option per category, labelled. */
  function MenuOptions(categories: seq<string>): (options: seq<MenuOption>)
    ensures |options| == |categories| + 1
    ensures options[0] == MenuOption("all", "All")
    ensures forall i :: 0 <= i < |categories| ==> options[i + 1] == MenuOption(categories[i], Label(categories[i]))
  {
    [MenuOption("all", "All")]
      + seq(|categories|, i requires 0 <= i < |categories| => MenuOption(categories[i], Label(categories[i])))
  }

  predicate IsOptionValue(options: seq<MenuOption>, v: string) {
    exists i :: 0 <= i < |options| && options[i].value == v
  }

  /** Assigning `select.value = v`: selects the option with that value, or none, reading back as "". */
  function SelectValue(options: seq<MenuOption>, v: string): (r: string)
    ensures r == v || r == ""
  {
    if IsOptionValue(options, v) then v else ""
  }

  /**
   * The value the menu shows at the end of `populateMenuOptions`. A non-empty URL category
   * is selected, normalised, when some option matches it and `all` is selected otherwise;
   * without one, the previous value (`all` when it was empty) is assigned again.
   */
  function MenuValue(options: seq<MenuOption>, urlCategory: Option<string>, previous: string): string {
    var currentVal := if previous == "" then "all" else previous;
    if urlCategory.Some? && urlCategory.value != "" then
      var normalized := NormalizeCategory(urlCategory.value);
      if exists i :: 0 <= i < |options| && NormalizeCategory(options[i].value) == normalized
      then SelectValue(options, normalized)
      else SelectValue(options, "all")
    else SelectValue(options, currentVal)
  }

  /** `all` is already normalised. */
  lemma NormalizedAllSelection()
    ensures NormalizeCategory("all") == "all"
  {
    assert LeadingSpace("all") == 0;
    assert "all"[0..] == "all";
    assert TrailingSpace("all") == 0;
    assert "all"[..3] == "all";
  }

  /** The option values are `all` and the categories. */
  lemma OptionValues(categories: seq<string>, v: string)
    ensures IsOptionValue(MenuOptions(categories), v) <==> v == "all" || v in categories
  {
    var options := MenuOptions(categories);
    if v in categories {
      var k :| 0 <= k < |categories| && categories[k] == v;
      assert options[k + 1].value == v;
    }
    if v == "all" {
      assert options[0].value == v;
    }
    if IsOptionValue(options, v) {
      var k :| 0 <= k < |options| && options[k].value == v;
      if k > 0 {
        assert options[k].value == categories[k - 1];
      }
    }
  }

  /** When the categories are normalised, an option matches a normalised URL category iff it equals it. */
  lemma NormalizedOptionMatch(categories: seq<string>, n: string)
    requires forall i :: 0 <= i < |categories| ==> NormalizeCategory(categories[i]) == categories[i]
    ensures (exists i :: 0 <= i < |MenuOptions(categories)| && NormalizeCategory(MenuOptions(categories)[i].value) == n)
            <==> n == "all" || n in categories
  {
    var options := MenuOptions(categories);
    NormalizedAllSelection();
    forall k | 0 <= k < |options| ensures NormalizeCategory(options[k].value) == options[k].value {
      if k > 0 {
        assert options[k].value == categories[k - 1];
      }
    }
    OptionValues(categories, n);
  }

  /**
   * With the options built from normalised categories: a URL category is honoured exactly
   * when its normalised form is `all` or a category, `all` is shown otherwise, and without
   * a URL category a previous value survives only if it is still an option.
   */
  lemma MenuValueSound(categories: seq<string>, urlCategory: Option<string>, previous: string)
    requires forall i :: 0 <= i < |categories| ==> NormalizeCategory(categories[i]) == categories[i]
    ensures var v := MenuValue(MenuOptions(categories), urlCategory, previous);
            (urlCategory.Some? && urlCategory.value != "" ==>
               var n := NormalizeCategory(urlCategory.value);
               v == if n == "all" || n in categories then n else "all")
            && (urlCategory.None? || urlCategory.value == "" ==>
               v == if previous == "" then "all"
                    else if previous == "all" || previous in categories then previous
                    else "")
  {
    OptionValues(categories, "all");
    OptionValues(categories, previous);
    if urlCategory.Some? && urlCategory.value != "" {
      var n := NormalizeCategory(urlCategory.value);
      NormalizedOptionMatch(categories, n);
      OptionValues(categories, n);
    }
  }

  /** Sorting order and deduplication of the gathered list fix it completely. */
  lemma GatheredCategoriesUnique(products: seq<Product>, a: seq<string>, b: seq<string>)
    requires StrictlySorted(a) && Elements(a) == Elements(CatalogCategories(products))
    requires StrictlySorted(b) && Elements(b) == Elements(CatalogCategories(products))
    ensures a == b
  {
    StrictlySortedUnique(a, b);
  }
}

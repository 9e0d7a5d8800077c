/**
 * The state of the catalog script: the loaded products, the last filtered list, the page's
 * query string and the two selects, with the operations that update them.
 */
module Catalog {
  import opened Wrappers
  import opened CatalogProducts
  import opened CatalogSort
  import opened CatalogUrl
  import opened CatalogMenu

  /** The category `<select>`: its options and the value it reads back. */
  datatype Menu = Menu(options: seq<MenuOption>, value: string)

  /** Names the catalog writes into the query string. */
  const ParamNames: seq<string> := ["category", "sort"]

  /** `readQueryParam(name) || fallback`: a present, non-empty value, else the fallback. */
  function ParamOr(query: Query, name: string, fallback: string): (r: string)
    ensures Get(query, name).Some? && Get(query, name).value != "" ==> r == Get(query, name).value
    ensures Get(query, name).None? || Get(query, name) == Some("") ==> r == fallback
    ensures fallback != "" ==> r != ""
  {
    match Get(query, name)
    case Some(v) => if v == "" then fallback else v
    case None => fallback
  }

  /** The copy `applyFiltersAndRender` makes of the filtered list, sorted when the sort is in the table. */
  method SortedCopy(items: seq<Product>, sort: string, rank: string -> int) returns (r: seq<Product>)
    ensures r == Arrange(items, sort, rank)
  {
    r := items;
    var sorter := SorterFor(sort);
    if sorter.Some? {
      var a := new Product[|items|](i requires 0 <= i < |items| => items[i]);
      assert a[..] == items;
      SortInPlace(a, p => Key(sorter.value, rank, p));
      r := a[..];
    }
  }

  /** The category a page selects: the menu's value, or the URL's (`all` when absent or empty). */
  function CategoryIn(menu: Option<Menu>, query: Query): string {
    match menu
    case Some(m) => m.value
    case None => ParamOr(query, "category", "all")
  }

  /** The sort a page selects: the select's value, or the URL's (`featured` when absent or empty). */
  function SortIn(sortValue: Option<string>, query: Query): string {
    match sortValue
    case Some(v) => v
    case None => ParamOr(query, "sort", "featured")
  }

  /**
   * A render's URL selects the list it rendered: once `category` and `sort` are rewritten
   * as a render writes them, the page selects the same category, and a sort that arranges
   * the products as before.
   */
  lemma RenderedUrlReselects(products: seq<Product>, menu: Option<Menu>, sortValue: Option<string>,
                             before: Query, after: Query, rank: string -> int)
    requires var params := RenderParams(CategoryIn(menu, before), SortIn(sortValue, before));
             Get(after, "category") == Effective(params[0].1) && Get(after, "sort") == Effective(params[1].1)
    ensures CategoryIn(menu, after) == CategoryIn(menu, before)
    ensures Arrange(Filter(products, CategoryIn(menu, after)), SortIn(sortValue, after), rank)
            == Arrange(Filter(products, CategoryIn(menu, before)), SortIn(sortValue, before), rank)
  {
    var category, sort := CategoryIn(menu, before), SortIn(sortValue, before);
    RenderParamsEffect(category, sort);
    var items := Filter(products, category);
    if SortIn(sortValue, after) != sort {
      ArrangeSound(items, sort, rank);
      ArrangeSound(items, SortIn(sortValue, after), rank);
    }
  }

  class CatalogPage {
    /** `PRODUCTS`: None until `products.json` has loaded. */
    var products: Option<seq<Product>>
    /** `FILTERED`: the last rendered list. */
    var filtered: Option<seq<Product>>
    /** The query string of the page URL. */
    var query: Query
    /** The `#menu-selector` element, when the page has one. */
    var menu: Option<Menu>
    /** The value of the `#sort-by` element, when the page has one. */
    var sortValue: Option<string>

    constructor(query: Query, menu: Option<Menu>, sortValue: Option<string>)
      ensures this.products == None && this.filtered == None
      ensures this.query == query && this.menu == menu && this.sortValue == sortValue
    {
      this.products := None;
      this.filtered := None;
      this.query := query;
      this.menu := menu;
      this.sortValue := sortValue;
    }

    /** The category in force. */
    function SelectedCategory(): string
      reads this
    {
      CategoryIn(menu, query)
    }

    /** The sort in force. */
    function SelectedSort(): string
      reads this
    {
      SortIn(sortValue, query)
    }

    /**
     * `applyFiltersAndRender`: nothing happens before the products load. Otherwise the
     * filtered list is the matching products, sorted on a copy when the sort is in the
     * table, and the URL then carries the category and sort unless they are the defaults;
     * every other query parameter is kept in order and the products are not touched.
     */
    method ApplyFiltersAndRender(rank: string -> int)
      modifies this
      ensures old(products).None? ==>
                products == old(products) && filtered == old(filtered) && query == old(query)
      ensures menu == old(menu) && sortValue == old(sortValue) && products == old(products)
      ensures old(products).Some? ==>
                var category, sort := old(SelectedCategory()), old(SelectedSort());
                filtered == Some(Arrange(Filter(products.value, category), sort, rank))
                && Get(query, "category") == Effective(RenderParams(category, sort)[0].1)
                && Get(query, "sort") == Effective(RenderParams(category, sort)[1].1)
                && Keep(query, ParamNames) == Keep(old(query), ParamNames)
    {
      if products.None? {
        return;
      }
      var category := SelectedCategory();
      var sort := SelectedSort();
      var items := Filter(products.value, category);
      items := SortedCopy(items, sort, rank);
      filtered := Some(items);
      var params := RenderParams(category, sort);
      assert Names(params) == ParamNames;
      query := UpdateUrlParams(query, params);
    }

    /**
     * `populateMenuOptions`: with a menu and loaded products, the options become `all`
     * followed by the sorted categories, and the value is chosen from the URL category or
     * the previous value.
     */
    method PopulateMenuOptions()
      modifies this
      ensures products == old(products) && filtered == old(filtered) && query == old(query)
      ensures sortValue == old(sortValue)
      ensures old(menu).None? || old(products).None? ==> menu == old(menu)
      ensures old(menu).Some? && old(products).Some? ==>
                var options := MenuOptions(MenuCategories(products.value));
                menu == Some(Menu(options, MenuValue(options, Get(query, "category"), old(menu).value.value)))
    {
      if menu.None? || products.None? {
        return;
      }
      var categories := GatherCategories(products.value);
      var options := MenuOptions(categories);
      menu := Some(Menu(options, MenuValue(options, Get(query, "category"), menu.value.value)));
    }

    /**
     * `init` once the grid exists: a failed load leaves the products unloaded; otherwise
     * every product is normalised (one random fallback id each), the menu is populated,
     * a valid URL sort is copied into the sort select, and the first render shows the
     * arranged matches of the category and sort then in force (which the rewritten URL
     * selects again).
     */
    method Init(loaded: Option<seq<Product>>, randomIds: seq<string>, rank: string -> int)
      requires loaded.Some? ==> |randomIds| == |loaded.value|
      modifies this
      ensures loaded.None? ==>
                && products == old(products) && filtered == old(filtered) && menu == old(menu)
                && query == old(query) && sortValue == old(sortValue)
      ensures loaded.Some? ==>
                && products.Some? && |products.value| == |loaded.value|
                && (forall i :: 0 <= i < |loaded.value| ==>
                      products.value[i] == NormalizeProduct(loaded.value[i], randomIds[i]))
                && filtered == Some(Arrange(Filter(products.value, SelectedCategory()), SelectedSort(), rank))
    {
      if loaded.None? {
        return;
      }
      var s := loaded.value;
      var a := new Product[|s|](i requires 0 <= i < |s| => s[i]);
      InitProducts(a, randomIds);
      var normalized := a[..];
      assert forall i :: 0 <= i < |s| ==> normalized[i] == NormalizeProduct(s[i], randomIds[i]);
      products := Some(normalized);
      PopulateMenuOptions();
      var urlSort := Get(query, "sort");
      if sortValue.Some? && urlSort.Some? && urlSort.value != "" && SorterFor(urlSort.value).Some? {
        sortValue := urlSort;
      }
      ghost var before := query;
      ApplyFiltersAndRender(rank);
      assert products == Some(normalized);
      RenderedUrlReselects(normalized, menu, sortValue, before, query, rank);
    }
  }

  /**
   * What a render shows: a permutation of exactly the matching products; with the
   * `featured` sort (or one outside the table) they keep their catalog order.
   */
  lemma RenderedListSound(products: seq<Product>, category: string, sort: string, rank: string -> int, x: Product)
    ensures var shown := Arrange(Filter(products, category), sort, rank);
            multiset(shown) == multiset(Filter(products, category))
            && (x in shown <==> x in products && ProductMatchesCategory(x, category))
            && (sort == "featured" || SorterFor(sort).None? ==> shown == Filter(products, category))
  {
    var items := Filter(products, category);
    ArrangeSound(items, sort, rank);
    FilterMembership(products, category, x);
    assert x in Arrange(items, sort, rank) <==> x in multiset(Arrange(items, sort, rank));
  }
}

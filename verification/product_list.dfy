/** The product list view: search, sortable columns, pages of ten, and the per-row
    quantity buttons that call the shell's quantity handler. */
module ProductList {
  import opened Wrappers
  import opened Types
  import opened Text
  import opened Lists
  import opened Sorting
  import opened Inventory
  import opened Notifications
  import opened Paging

  const ItemsPerPage: nat := 10

  datatype SortField = Name | Category | Quantity | CostPrice | Location | LastUpdated
  datatype SortOrder = Asc | Desc

  /** The view's local state; `currentPage` is an integer because the "next" button can
      drive it to 0. */
  datatype View = View(searchTerm: string, currentPage: int, sortKey: SortField, sortOrder: SortOrder)

  const InitialView: View := View("", 1, Name, Asc)

  // ---------------------------------------------------------------- search

  /** The search term occurs, ignoring case, in the name, the category or the location. */
  predicate Matches(p: Product, term: string) {
    Contains(Lower(p.name), Lower(term))
    || Contains(Lower(p.category), Lower(term))
    || Contains(Lower(p.location), Lower(term))
  }

  function SearchFilter(products: seq<Product>, term: string): seq<Product> {
    Filter(products, (p: Product) => Matches(p, term))
  }

  /** An empty search shows every product, in stored order. */
  lemma EmptySearchKeepsAll(products: seq<Product>)
    ensures SearchFilter(products, "") == products
  {
    forall p: Product ensures Matches(p, "") {
      ContainsEmpty(Lower(p.name));
    }
    FilterKeepsAll(products, (p: Product) => Matches(p, ""));
  }

  /** The search ignores the case of the term. */
  lemma SearchIgnoresTermCase(products: seq<Product>, term: string)
    ensures SearchFilter(products, Lower(term)) == SearchFilter(products, term)
  {
    LowerIdempotent(term);
    FilterSameTest(products, (p: Product) => Matches(p, Lower(term)), (p: Product) => Matches(p, term));
  }

  /** A product is listed exactly when it matches: the filter keeps every match and
      nothing else. */
  lemma SearchIsExact(products: seq<Product>, term: string)
    ensures forall i :: 0 <= i < |products| && Matches(products[i], term) ==> products[i] in SearchFilter(products, term)
    ensures forall p :: p in SearchFilter(products, term) ==> p in products && Matches(p, term)
  {
    var r := SearchFilter(products, term);
    forall p | p in r ensures p in products && Matches(p, term) {
      var i :| 0 <= i < |r| && r[i] == p;
    }
  }

  // ---------------------------------------------------------------- sorting

  /** The column value a product is compared by; the last-update instant compares as a
      number, standing for the ISO text the source compares. */
  function SortKeyOf(p: Product, field: SortField): Key {
    match field
    case Name => Str(p.name)
    case Category => Str(p.category)
    case Quantity => Key.Num(p.quantity)
    case CostPrice => Key.Num(p.costPrice)
    case Location => Str(p.location)
    case LastUpdated => Key.Num(p.lastUpdated)
  }

  /** The comparator sort: a stable rearrangement in which every product may come before
      every later one in the chosen direction. */
  function SortProducts(products: seq<Product>, field: SortField, order: SortOrder): (r: seq<Product>)
    ensures multiset(r) == multiset(products)
    ensures forall i, j :: 0 <= i < j < |r| ==>
      if order == Asc then KeyLe(SortKeyOf(r[i], field), SortKeyOf(r[j], field))
      else KeyLe(SortKeyOf(r[j], field), SortKeyOf(r[i], field))
  {
    var r := SortBy(products, (p: Product) => SortKeyOf(p, field), order == Desc);
    assert forall i, j :: 0 <= i < j < |r| ==> Before(SortKeyOf(r[i], field), SortKeyOf(r[j], field), order == Desc);
    r
  }

  /** A header click: the current column flips direction, another column starts ascending. */
  function HandleSort(v: View, field: SortField): (r: View)
    ensures r.searchTerm == v.searchTerm && r.currentPage == v.currentPage && r.sortKey == field
    ensures v.sortKey == field ==> r.sortOrder != v.sortOrder
    ensures v.sortKey != field ==> r.sortOrder == Asc
  {
    if v.sortKey == field then v.(sortOrder := if v.sortOrder == Asc then Desc else Asc)
    else v.(sortKey := field, sortOrder := Asc)
  }

  /** Two clicks on the same header restore the view; two clicks on a new header leave it
      sorted descending by that column. */
  lemma HandleSortTwice(v: View, field: SortField)
    ensures v.sortKey == field ==> HandleSort(HandleSort(v, field), field) == v
    ensures v.sortKey != field ==> HandleSort(HandleSort(v, field), field) == v.(sortKey := field, sortOrder := Desc)
  {
  }

  // ---------------------------------------------------------------- pages

  /** What the table shows: the current page of the sorted search result. */
  function Visible(products: seq<Product>, v: View): (r: seq<Product>)
    ensures |r| <= ItemsPerPage
    ensures forall p :: p in r ==> p in products && Matches(p, v.searchTerm)
  {
    var found := SearchFilter(products, v.searchTerm);
    var sorted := SortProducts(found, v.sortKey, v.sortOrder);
    var r := Paginate(sorted, v.currentPage, ItemsPerPage);
    SearchIsExact(products, v.searchTerm);
    assert forall p :: p in sorted ==> p in multiset(found);
    r
  }

  // ---------------------------------------------------------------- navigation

  /** Typing in the search box replaces the term and goes back to the first page. */
  function SearchChange(v: View, term: string): (r: View)
    ensures r.searchTerm == term && r.currentPage == 1
    ensures r.sortKey == v.sortKey && r.sortOrder == v.sortOrder
  {
    v.(searchTerm := term, currentPage := 1)
  }

  /** The "previous" button: one page back, but never below page 1. */
  function PrevClick(v: View): (r: View)
    ensures r == v.(currentPage := r.currentPage)
    ensures r.currentPage >= 1
    ensures v.currentPage > 1 ==> r.currentPage == v.currentPage - 1
    ensures v.currentPage <= 1 ==> r.currentPage == 1
  {
    v.(currentPage := PrevPage(v.currentPage))
  }

  /** The "next" button: one page on, but never past the last page of the matching
      products (which is page 0 when nothing matches). */
  function NextClick(v: View, products: seq<Product>): (r: View)
    ensures r == v.(currentPage := r.currentPage)
    ensures var pages := TotalPages(|SearchFilter(products, v.searchTerm)|, ItemsPerPage);
      && r.currentPage <= pages
      && (v.currentPage < pages ==> r.currentPage == v.currentPage + 1)
      && (v.currentPage >= pages ==> r.currentPage == pages)
  {
    var pages := TotalPages(|SearchFilter(products, v.searchTerm)|, ItemsPerPage);
    v.(currentPage := NextPage(v.currentPage, pages))
  }

  /** Within the pages, "next" then "previous" returns to the page it started from. */
  lemma NextThenPrevReturns(v: View, products: seq<Product>)
    requires 1 <= v.currentPage < TotalPages(|SearchFilter(products, v.searchTerm)|, ItemsPerPage)
    ensures PrevClick(NextClick(v, products)) == v
  {
  }

  /** With no matching product there are no pages, yet "next" is enabled on page 1 and
      moves to page 0, where nothing is shown even once products match again. */
  lemma NextWithoutResultsReachesPageZero(v: View, products: seq<Product>, later: seq<Product>)
    requires v.currentPage == 1 && SearchFilter(products, v.searchTerm) == []
    ensures NextClick(v, products).currentPage == 0
    ensures Visible(later, NextClick(v, products)) == []
  {
  }

  // ---------------------------------------------------------------- quantity buttons

  /** A quantity change proposed by a row button: product id, new and old quantity. */
  datatype QuantityRequest = QuantityRequest(productId: string, newQuantity: int, oldQuantity: int)

  /** The "-" button, disabled at zero or below. */
  function MinusClick(p: Product): (r: Option<QuantityRequest>)
    ensures r.Some? <==> p.quantity > 0
    ensures r.Some? ==> r.value.productId == p.id && r.value.oldQuantity == p.quantity
                        && r.value.newQuantity == p.quantity - 1 && r.value.newQuantity >= 0
  {
    if p.quantity <= 0 then None else Some(QuantityRequest(p.id, p.quantity - 1, p.quantity))
  }

  /** The "+" button, always enabled. */
  function PlusClick(p: Product): (r: QuantityRequest)
    ensures r.productId == p.id && r.oldQuantity == p.quantity && r.newQuantity == p.quantity + 1
  {
    QuantityRequest(p.id, p.quantity + 1, p.quantity)
  }

  function ApplyRequest(s: State, q: QuantityRequest, now: int): State {
    HandleUpdateQuantity(s, q.productId, q.newQuantity, q.oldQuantity, now)
  }

  /** A row button's request is always carried out for the row's product: "+" adds one
      unit and an enabled "-" removes one; no other product changes. */
  lemma ButtonsAreApplied(s: State, k: nat, now: int)
    requires k < |s.products| && s.products[k].quantity >= 0
    requires FindProduct(s.products, s.products[k].id) == Some(s.products[k])
    ensures ApplyRequest(s, PlusClick(s.products[k]), now).products[k].quantity == s.products[k].quantity + 1
    ensures MinusClick(s.products[k]).Some? ==>
      ApplyRequest(s, MinusClick(s.products[k]).value, now).products[k].quantity == s.products[k].quantity - 1
  {
  }

  /** A "-" click on a product with ten units at threshold ten raises no notification,
      while the click that takes eleven units to ten raises one: the alert fires on the
      crossing, not on every low value. */
  lemma MinusNotifiesOnCrossingOnly(s: State, k: nat, now: int)
    requires k < |s.products| && s.lowStockThreshold == 10
    requires FindProduct(s.products, s.products[k].id) == Some(s.products[k])
    ensures s.products[k].quantity == 10 ==>
      ApplyRequest(s, MinusClick(s.products[k]).value, now).notifications == s.notifications
    ensures s.products[k].quantity == 11 && !HasUnreadFor(s.notifications, s.products[k].id) ==>
      |ApplyRequest(s, MinusClick(s.products[k]).value, now).notifications| == |s.notifications| + 1
  {
  }
}

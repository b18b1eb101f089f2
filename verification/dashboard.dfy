/** The dashboard: stock value and item count per category, the five products holding the
    most stock value, and the list of products at or below the low-stock threshold.
    Money is in integer cents, so the value totals are exact. */
module Dashboard {
  import opened Wrappers
  import opened Types
  import opened Text
  import opened Lists
  import opened Sorting
  import opened Grouping
  import opened Inventory

  // ---------------------------------------------------------------- low stock

  predicate IsLow(p: Product, threshold: int) {
    p.quantity <= threshold
  }

  /** The products at or below the threshold, in stored order. */
  function LowStockProducts(products: seq<Product>, threshold: int): (r: seq<Product>)
    ensures forall i :: 0 <= i < |r| ==> r[i] in products && r[i].quantity <= threshold
    ensures forall i :: 0 <= i < |products| && products[i].quantity <= threshold ==> products[i] in r
  {
    Filter(products, (p: Product) => IsLow(p, threshold))
  }

  /** The list keeps the stored order: the low products of a concatenation are those of
      the front followed by those of the back, and a list with no low product shows
      nothing. */
  lemma LowStockKeepsOrder(front: seq<Product>, back: seq<Product>, threshold: int)
    ensures LowStockProducts(front + back, threshold) == LowStockProducts(front, threshold) + LowStockProducts(back, threshold)
    ensures (forall i :: 0 <= i < |front| ==> front[i].quantity > threshold) ==> LowStockProducts(front, threshold) == []
  {
    FilterConcat(front, back, (p: Product) => IsLow(p, threshold));
    if forall i :: 0 <= i < |front| ==> front[i].quantity > threshold {
      FilterKeepsNone(front, (p: Product) => IsLow(p, threshold));
    }
  }

  /** Whenever the quantity buttons raise a low-stock notification, the product it names
      is on the dashboard's low-stock list afterwards. */
  lemma NotifiedProductIsListed(s: State, productId: string, newQuantity: int, oldQuantity: int, now: int)
    requires FindProduct(s.products, productId).Some? && newQuantity >= 0
    requires CrossesThreshold(oldQuantity, newQuantity, s.lowStockThreshold)
    ensures var r := HandleUpdateQuantity(s, productId, newQuantity, oldQuantity, now);
      forall i :: 0 <= i < |r.products| && r.products[i].id == productId ==>
        r.products[i] in LowStockProducts(r.products, r.lowStockThreshold)
  {
  }

  // ---------------------------------------------------------------- per category

  /** The stock value of a product: unit cost times units held. */
  function StockValue(p: Product): int {
    p.costPrice * p.quantity
  }

  function One(p: Product): int {
    1
  }

  function CategoryOf(p: Product): string {
    p.category
  }

  /** The data of the "value by category" doughnut: one entry per category, in order of
      first appearance. */
  function ValueByCategory(products: seq<Product>): (r: seq<Group>)
    ensures DistinctKeys(r)
    ensures forall i :: 0 <= i < |products| ==> HasKey(r, products[i].category)
    ensures forall k :: HasKey(r, k) ==> exists i :: 0 <= i < |products| && products[i].category == k
    ensures Sum(r, GroupTotal) == Sum(products, StockValue)
  {
    GroupTotals(products, CategoryOf, StockValue)
  }

  /** The value charted for a category is the stock value of exactly its products. */
  lemma CategoryValueIsItsProducts(products: seq<Product>, category: string)
    ensures TotalFor(ValueByCategory(products), category)
         == Sum(Filter(products, KeyIs(CategoryOf, category)), StockValue)
  {
    GroupTotalIsSum(products, CategoryOf, StockValue, category);
  }

  /** The data of the "category representation" pie: the number of products per category. */
  function CountByCategory(products: seq<Product>): (r: seq<Group>)
    ensures DistinctKeys(r)
    ensures forall i :: 0 <= i < |products| ==> HasKey(r, products[i].category)
    ensures forall k :: HasKey(r, k) ==> exists i :: 0 <= i < |products| && products[i].category == k
    ensures Sum(r, GroupTotal) == |products|
  {
    SumOfOnes(products, One);
    GroupTotals(products, CategoryOf, One)
  }

  /** Each category's count is the number of products in that category. */
  lemma CategoryCountIsItsProducts(products: seq<Product>, category: string)
    ensures TotalFor(CountByCategory(products), category)
         == Count(products, KeyIs(CategoryOf, category))
  {
    var f := KeyIs(CategoryOf, category);
    GroupTotalIsSum(products, CategoryOf, One, category);
    SumOfOnes(Filter(products, f), One);
  }

  // ---------------------------------------------------------------- top products

  const TopCount: nat := 5

  function ValueKey(p: Product): Key {
    Key.Num(StockValue(p))
  }

  /** The "top 5 by stock value" bars: a stable sort by stock value, largest first, cut to
      five entries. */
  function TopProducts(products: seq<Product>): (r: seq<Product>)
    ensures |r| == if |products| < TopCount then |products| else TopCount
    ensures multiset(r) <= multiset(products)
    ensures forall i, j :: 0 <= i < j < |r| ==> StockValue(r[i]) >= StockValue(r[j])
    ensures forall i, j :: 0 <= i < |r| && 0 <= j < |products| && products[j] !in r ==>
      StockValue(r[i]) >= StockValue(products[j])
  {
    var sorted := SortBy(products, ValueKey, true);
    var m := if |products| < TopCount then |products| else TopCount;
    TopIsPrefix(products, sorted, m);
    sorted[..m]
  }

  lemma TopIsPrefix(products: seq<Product>, sorted: seq<Product>, m: nat)
    requires multiset(sorted) == multiset(products) && |sorted| == |products|
    requires SortedBy(sorted, ValueKey, true)
    requires m <= |sorted| && (m < |sorted| ==> m == TopCount)
    ensures multiset(sorted[..m]) <= multiset(products)
    ensures forall i, j :: 0 <= i < j < m ==> StockValue(sorted[i]) >= StockValue(sorted[j])
    ensures forall i, j :: 0 <= i < m && 0 <= j < |products| && products[j] !in sorted[..m] ==>
      StockValue(sorted[i]) >= StockValue(products[j])
  {
    assert sorted == sorted[..m] + sorted[m..];
    assert forall i, j :: 0 <= i < j < |sorted| ==> Before(ValueKey(sorted[i]), ValueKey(sorted[j]), true);
    forall i, j | 0 <= i < m && 0 <= j < |products| && products[j] !in sorted[..m]
      ensures StockValue(sorted[i]) >= StockValue(products[j])
    {
      assert products[j] in multiset(sorted);
      var k :| 0 <= k < |sorted| && sorted[k] == products[j];
      assert Before(ValueKey(sorted[i]), ValueKey(sorted[k]), true);
    }
  }

  /** The label width, in UTF-16 code units as JavaScript's `substring` and `length`
      count them. */
  const LabelLength: nat := 20

  /** A bar label: the name itself when it is at most twenty code units long; otherwise
      its first twenty code units followed by "...". When the twentieth unit would split a
      surrogate pair the label keeps the nineteen before it. */
  function BarLabel(name: string): (r: string)
    ensures Utf16Length(name) <= LabelLength ==> r == name
    ensures Utf16Length(name) > LabelLength ==> |r| > 3 && r[|r| - 3..] == "..."
    ensures Utf16Length(name) > LabelLength ==>
      var head := r[..|r| - 3];
      head < name && Utf16(head) <= Utf16(name)
      && (Utf16Length(head) == LabelLength
          || (Utf16Length(head) == LabelLength - 1 && |Utf16Units(name[|head|])| == 2))
  {
    if Utf16Length(name) <= LabelLength then name
    else
      var head := UnitPrefix(name, LabelLength);
      assert name == head + name[|head|..];
      Utf16Concat(head, name[|head|..]);
      var r := head + "...";
      assert r[..|r| - 3] == head;
      r
  }

  /** Labels keep names apart up to their nineteenth code unit: two names whose labels
      agree start with the same nineteen code units, and short names are never confused. */
  lemma LabelsDistinguishShortNames(a: string, b: string)
    requires BarLabel(a) == BarLabel(b)
    ensures Utf16Length(a) <= LabelLength && Utf16Length(b) <= LabelLength ==> a == b
    ensures Utf16Length(a) > LabelLength <==> Utf16Length(b) > LabelLength
    ensures Utf16Length(a) > LabelLength ==> Utf16(a)[..LabelLength - 1] == Utf16(b)[..LabelLength - 1]
  {
    if Utf16Length(a) > LabelLength {
      LongLabel(a);
    }
    if Utf16Length(b) > LabelLength {
      LongLabel(b);
    }
  }

  /** A long name's label is at least twenty-two code units long and starts with the
      name's first nineteen code units. */
  lemma LongLabel(name: string)
    requires Utf16Length(name) > LabelLength
    ensures Utf16Length(BarLabel(name)) > LabelLength + 1
    ensures Utf16(BarLabel(name))[..LabelLength - 1] == Utf16(name)[..LabelLength - 1]
  {
    var l := BarLabel(name);
    var head := l[..|l| - 3];
    assert l == head + "...";
    Utf16Concat(head, "...");
    assert Utf16Length("...") == 3;
  }
}

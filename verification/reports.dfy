/** The reports page: the general report's category filter and per-category count, and the
    stock-movement reconciliation, which reads quantity changes and deletions back from the
    activity log and derives entries, exits, balance and a newest-first movement list. */
module Reports {
  import opened Wrappers
  import opened Types
  import opened Text
  import opened Numbers
  import opened Lists
  import opened Sorting
  import opened Grouping
  import opened Inventory
  import opened Dashboard

  /** The category selector's value that stands for every category. */
  const AllCategories: string := "all"

  /** The category a movement resolves to when its product is not found. */
  const UnknownCategory: string := "N/A"

  // ---------------------------------------------------------------- general report

  predicate InSelection(p: Product, selected: string) {
    selected == AllCategories || p.category == selected
  }

  function Selects(selected: string): Product -> bool {
    (p: Product) => InSelection(p, selected)
  }

  /** The products of the selected category, in stored order; every product for "all". */
  function FilterByCategory(products: seq<Product>, selected: string): (r: seq<Product>)
    ensures selected == AllCategories ==> r == products
    ensures forall i :: 0 <= i < |r| ==> r[i] in products && (selected == AllCategories || r[i].category == selected)
    ensures forall i :: 0 <= i < |products| && products[i].category == selected ==> products[i] in r
  {
    if selected == AllCategories then
      FilterKeepsAll(products, Selects(selected));
      Filter(products, Selects(selected))
    else Filter(products, Selects(selected))
  }

  /** Filtering by category keeps the stored order: it distributes over concatenation. */
  lemma FilterByCategoryKeepsOrder(front: seq<Product>, back: seq<Product>, selected: string)
    ensures FilterByCategory(front + back, selected) == FilterByCategory(front, selected) + FilterByCategory(back, selected)
  {
    FilterConcat(front, back, Selects(selected));
    if selected == AllCategories {
      FilterKeepsAll(front + back, Selects(selected));
    }
  }

  /** The report's per-category count, over the filtered products. The counts add up to
      the number of products listed, and with one category selected there is at most one
      entry, the selected category's. */
  function CategoryCount(products: seq<Product>, selected: string): (r: seq<Group>)
    ensures DistinctKeys(r)
    ensures Sum(r, GroupTotal) == |FilterByCategory(products, selected)|
    ensures selected != AllCategories ==> |r| <= 1 && forall i :: 0 <= i < |r| ==> r[i].key == selected
  {
    var kept := FilterByCategory(products, selected);
    var r := CountByCategory(kept);
    if selected != AllCategories then
      OnlySelectedKey(r, kept, selected);
      r
    else r
  }

  lemma OnlySelectedKey(r: seq<Group>, kept: seq<Product>, selected: string)
    requires DistinctKeys(r)
    requires forall i :: 0 <= i < |kept| ==> kept[i].category == selected
    requires forall k :: HasKey(r, k) ==> exists i :: 0 <= i < |kept| && kept[i].category == k
    ensures |r| <= 1 && forall i :: 0 <= i < |r| ==> r[i].key == selected
  {
    assert forall i :: 0 <= i < |r| ==> HasKey(r, r[i].key);
    assert |r| >= 2 ==> r[0].key != r[1].key;
  }

  // ---------------------------------------------------------------- reading the log

  /** `Number(value) || 0`: a number is itself, numeric text is its value, and anything
      else (absent, non-numeric) is 0. */
  function Coerce(v: Option<LogValue>): (r: int)
    ensures v.None? ==> r == 0
    ensures v.Some? && v.value.Num? ==> r == v.value.n
    ensures v.Some? && v.value.Text? && IsBlank(v.value.s) ==> r == 0
  {
    match v
    case None => 0
    case Some(Num(n)) => n
    case Some(Text(t)) => NumberOfText(t)
  }

  /** A value reads back the same whether it was logged as a number or as its decimal
      text, and an absent value reads as 0. */
  lemma CoerceReadsNumbersBack(n: int)
    ensures Coerce(Some(LogValue.Num(n))) == n
    ensures Coerce(Some(Text(IntToString(n)))) == n
    ensures Coerce(None) == 0
  {
    NumberOfIntToString(n);
  }

  predicate IsMovementAction(a: Action) {
    a == UpdateProductQuantity || a == DeleteProduct
  }

  /** Inclusive bounds, each optional; a missing bound does not constrain. */
  predicate InWindow(t: int, start: Option<int>, end: Option<int>) {
    (start.None? || t >= start.value) && (end.None? || t <= end.value)
  }

  predicate IsRelevant(log: ActivityLog, start: Option<int>, end: Option<int>) {
    InWindow(log.timestamp, start, end) && IsMovementAction(log.action)
  }

  function RelevantTest(start: Option<int>, end: Option<int>): ActivityLog -> bool {
    (log: ActivityLog) => IsRelevant(log, start, end)
  }

  /** The quantity changes and deletions inside the window, in log order. */
  function Relevant(logs: seq<ActivityLog>, start: Option<int>, end: Option<int>): (r: seq<ActivityLog>)
    ensures forall i :: 0 <= i < |r| ==> r[i] in logs && IsRelevant(r[i], start, end)
    ensures forall i :: 0 <= i < |logs| && IsRelevant(logs[i], start, end) ==> logs[i] in r
  {
    Filter(logs, RelevantTest(start, end))
  }

  function NameIs(name: string): Product -> bool {
    (p: Product) => p.name == name
  }

  /** No product before position `i` has the name. */
  predicate FirstNamed(products: seq<Product>, name: string, i: nat) {
    forall j :: 0 <= j < i && j < |products| ==> products[j].name != name
  }

  /** `products.find(p => p.name === name)?.category || 'N/A'`: the category of the first
      product with that exact name, or "N/A" when there is none or its category is empty. */
  function ResolveCategory(products: seq<Product>, name: string): (r: string)
    ensures r != ""
    ensures (forall i :: 0 <= i < |products| ==> products[i].name != name) ==> r == UnknownCategory
    ensures forall i :: 0 <= i < |products| && products[i].name == name && FirstNamed(products, name, i) ==>
      r == if products[i].category == "" then UnknownCategory else products[i].category
  {
    match FindFirst(products, NameIs(name))
    case None => UnknownCategory
    case Some(i) => if products[i].category == "" then UnknownCategory else products[i].category
  }

  /** Whether a relevant entry belongs to the selected category. */
  predicate Counted(log: ActivityLog, products: seq<Product>, selected: string) {
    selected == AllCategories || ResolveCategory(products, log.details) == selected
  }

  /** The stock movement an entry stands for: new minus old for a quantity change, minus
      the old quantity for a deletion. */
  function MovementOf(log: ActivityLog): int {
    if log.action == UpdateProductQuantity then Coerce(log.newValue) - Coerce(log.oldValue)
    else if log.action == DeleteProduct then -Coerce(log.oldValue)
    else 0
  }

  /** What the quantity handler logs reads back as exactly the change it made, and what the
      product deletion logs reads back as the loss of the whole stock. */
  lemma LoggedChangesReadBack(s: State, productId: string, newQuantity: int, oldQuantity: int, pending: Product, now: int)
    requires s.currentUser.Some?
    requires FindProduct(s.products, productId).Some? && newQuantity >= 0
    ensures var r := HandleUpdateQuantity(s, productId, newQuantity, oldQuantity, now);
      IsMovementAction(r.logs[0].action) && MovementOf(r.logs[0]) == newQuantity - oldQuantity
    ensures var r := ConfirmDeleteProduct(s, Some(pending), now);
      IsMovementAction(r.logs[0].action) && MovementOf(r.logs[0]) == -pending.quantity
  {
  }

  // ---------------------------------------------------------------- the reconciliation

  /** A listed movement: the entry, the product name it was logged under, and the amount. */
  datatype Movement = Movement(log: ActivityLog, productName: string, movement: int)

  function Amount(m: Movement): int {
    m.movement
  }

  /** The movement listed for an entry. */
  function EntryOf(log: ActivityLog): Movement {
    Movement(log, log.details, MovementOf(log))
  }

  /** Whether an entry's movement is listed: it is of the selected category and not zero. */
  predicate Keeps(log: ActivityLog, products: seq<Product>, selected: string) {
    Counted(log, products, selected) && MovementOf(log) != 0
  }

  /** What every listed movement satisfies. */
  predicate Listed(m: Movement, products: seq<Product>, selected: string) {
    && Counted(m.log, products, selected)
    && m.productName == m.log.details
    && m.movement == MovementOf(m.log) && m.movement != 0
  }

  /** The part of an entry's movement that is an entry of stock. */
  function Inflow(log: ActivityLog, products: seq<Product>, selected: string): int {
    if Counted(log, products, selected) && MovementOf(log) > 0 then MovementOf(log) else 0
  }

  /** The part of an entry's movement that is an exit of stock, as a positive amount. */
  function Outflow(log: ActivityLog, products: seq<Product>, selected: string): int {
    if Counted(log, products, selected) && MovementOf(log) < 0 then -MovementOf(log) else 0
  }

  function InflowOf(products: seq<Product>, selected: string): ActivityLog -> int {
    (log: ActivityLog) => Inflow(log, products, selected)
  }

  function OutflowOf(products: seq<Product>, selected: string): ActivityLog -> int {
    (log: ActivityLog) => Outflow(log, products, selected)
  }

  /** The listed movements, in log order. */
  function Retained(relevant: seq<ActivityLog>, products: seq<Product>, selected: string): (r: seq<Movement>)
    ensures |r| <= |relevant|
    ensures forall i :: 0 <= i < |r| ==> Listed(r[i], products, selected)
    ensures forall i :: 0 <= i < |r| ==> r[i].log in relevant
  {
    if |relevant| == 0 then []
    else
      var front := Retained(relevant[..|relevant| - 1], products, selected);
      var log := relevant[|relevant| - 1];
      if Keeps(log, products, selected) then front + [EntryOf(log)] else front
  }

  /** One more entry of the fold: what the entry adds to entries, exits and the list. */
  lemma FoldStep(relevant: seq<ActivityLog>, i: nat, products: seq<Product>, selected: string)
    requires i < |relevant|
    ensures Sum(relevant[..i + 1], InflowOf(products, selected))
         == Sum(relevant[..i], InflowOf(products, selected)) + Inflow(relevant[i], products, selected)
    ensures Sum(relevant[..i + 1], OutflowOf(products, selected))
         == Sum(relevant[..i], OutflowOf(products, selected)) + Outflow(relevant[i], products, selected)
    ensures Retained(relevant[..i + 1], products, selected)
         == Retained(relevant[..i], products, selected)
            + (if Keeps(relevant[i], products, selected) then [EntryOf(relevant[i])] else [])
  {
    var p := relevant[..i + 1];
    assert p[..i] == relevant[..i];
    assert p[i] == relevant[i];
  }

  /** The listed movements add up to the entries minus the exits. */
  lemma {:induction false} RetainedSumsToBalance(relevant: seq<ActivityLog>, products: seq<Product>, selected: string)
    ensures Sum(Retained(relevant, products, selected), Amount)
         == Sum(relevant, InflowOf(products, selected)) - Sum(relevant, OutflowOf(products, selected))
    decreases |relevant|
  {
    if |relevant| > 0 {
      var log := relevant[|relevant| - 1];
      RetainedSumsToBalance(relevant[..|relevant| - 1], products, selected);
      if Keeps(log, products, selected) {
        SumAppend(Retained(relevant[..|relevant| - 1], products, selected), EntryOf(log), Amount);
      }
    }
  }

  /** What a listed movement adds to the entries: its amount when it is positive. */
  function PositivePart(m: Movement): int {
    if m.movement > 0 then m.movement else 0
  }

  /** What a listed movement adds to the exits: its amount, made positive, when it is negative. */
  function NegativePart(m: Movement): int {
    if m.movement < 0 then -m.movement else 0
  }

  /** The entries are the positive listed movements and the exits the negative ones. */
  lemma {:induction false} RetainedSplitsIntoFlows(relevant: seq<ActivityLog>, products: seq<Product>, selected: string)
    ensures Sum(Retained(relevant, products, selected), PositivePart) == Sum(relevant, InflowOf(products, selected))
    ensures Sum(Retained(relevant, products, selected), NegativePart) == Sum(relevant, OutflowOf(products, selected))
    decreases |relevant|
  {
    if |relevant| > 0 {
      var log := relevant[|relevant| - 1];
      var front := Retained(relevant[..|relevant| - 1], products, selected);
      RetainedSplitsIntoFlows(relevant[..|relevant| - 1], products, selected);
      if Keeps(log, products, selected) {
        SumAppend(front, EntryOf(log), PositivePart);
        SumAppend(front, EntryOf(log), NegativePart);
      }
    }
  }

  /** The report: entries, exits, balance and the movement list. */
  datatype Report = Report(entradas: int, saidas: int, balanco: int, movements: seq<Movement>)

  function TimestampKey(m: Movement): Key {
    Key.Num(m.log.timestamp)
  }

  /** The reconciliation as a fold: entries are the sum of the positive listed movements and
      exits that of the negative ones, made positive, so neither is ever negative; the
      balance is their difference and equals the sum of the listed movements, every listed
      movement is the non-zero movement of a relevant entry of the selected category, and the
      list is the retained movements rearranged newest first. */
  function Reconcile(logs: seq<ActivityLog>, products: seq<Product>, start: Option<int>, end: Option<int>, selected: string): (r: Report)
    ensures r.entradas >= 0 && r.saidas >= 0 && r.balanco == r.entradas - r.saidas
    ensures r.entradas == Sum(r.movements, PositivePart) && r.saidas == Sum(r.movements, NegativePart)
    ensures Sum(r.movements, Amount) == r.balanco
    ensures forall i :: 0 <= i < |r.movements| ==>
      r.movements[i].log in logs && IsRelevant(r.movements[i].log, start, end) && Listed(r.movements[i], products, selected)
    ensures forall i, j :: 0 <= i < j < |r.movements| ==> r.movements[i].log.timestamp >= r.movements[j].log.timestamp
    ensures multiset(r.movements) == multiset(Retained(Relevant(logs, start, end), products, selected))
  {
    var relevant := Relevant(logs, start, end);
    var kept := Retained(relevant, products, selected);
    var sorted := SortBy(kept, TimestampKey, true);
    Totals(relevant, products, selected, sorted);
    MovementsFromWindow(logs, start, end, products, selected, sorted);
    NewestFirst(sorted);
    Report(Sum(relevant, InflowOf(products, selected)), Sum(relevant, OutflowOf(products, selected)),
           Sum(relevant, InflowOf(products, selected)) - Sum(relevant, OutflowOf(products, selected)), sorted)
  }

  /** Entries and exits are sums of amounts that are never negative, and any rearrangement
      of the listed movements adds up to their difference. */
  lemma Totals(relevant: seq<ActivityLog>, products: seq<Product>, selected: string, sorted: seq<Movement>)
    requires multiset(sorted) == multiset(Retained(relevant, products, selected))
    ensures Sum(relevant, InflowOf(products, selected)) >= 0
    ensures Sum(relevant, OutflowOf(products, selected)) >= 0
    ensures Sum(sorted, Amount) == Sum(relevant, InflowOf(products, selected)) - Sum(relevant, OutflowOf(products, selected))
    ensures Sum(sorted, PositivePart) == Sum(relevant, InflowOf(products, selected))
    ensures Sum(sorted, NegativePart) == Sum(relevant, OutflowOf(products, selected))
  {
    SumNonNegative(relevant, InflowOf(products, selected));
    SumNonNegative(relevant, OutflowOf(products, selected));
    RetainedSumsToBalance(relevant, products, selected);
    SumPermutation(sorted, Retained(relevant, products, selected), Amount);
    RetainedSplitsIntoFlows(relevant, products, selected);
    SumPermutation(sorted, Retained(relevant, products, selected), PositivePart);
    SumPermutation(sorted, Retained(relevant, products, selected), NegativePart);
  }

  lemma NewestFirst(sorted: seq<Movement>)
    requires SortedBy(sorted, TimestampKey, true)
    ensures forall i, j :: 0 <= i < j < |sorted| ==> sorted[i].log.timestamp >= sorted[j].log.timestamp
  {
    assert forall i, j :: 0 <= i < j < |sorted| ==> Before(TimestampKey(sorted[i]), TimestampKey(sorted[j]), true);
  }

  /** Any rearrangement of the retained movements consists of listed movements of relevant
      entries of the log. */
  lemma MovementsFromWindow(logs: seq<ActivityLog>, start: Option<int>, end: Option<int>, products: seq<Product>, selected: string, sorted: seq<Movement>)
    requires multiset(sorted) == multiset(Retained(Relevant(logs, start, end), products, selected))
    ensures forall i :: 0 <= i < |sorted| ==>
      sorted[i].log in logs && IsRelevant(sorted[i].log, start, end) && Listed(sorted[i], products, selected)
  {
    var relevant := Relevant(logs, start, end);
    var kept := Retained(relevant, products, selected);
    forall i | 0 <= i < |sorted|
      ensures sorted[i].log in logs && IsRelevant(sorted[i].log, start, end) && Listed(sorted[i], products, selected)
    {
      assert sorted[i] in multiset(kept);
      var j :| 0 <= j < |kept| && kept[j] == sorted[i];
      assert kept[j].log in relevant;
      var k :| 0 <= k < |relevant| && relevant[k] == kept[j].log;
    }
  }

  /** The page's computation: the relevant entries, one pass over them, then a sort
      newest first. It computes exactly the fold above. */
  method ReconcileByLoop(logs: seq<ActivityLog>, products: seq<Product>, start: Option<int>, end: Option<int>, selected: string)
    returns (r: Report)
    ensures r == Reconcile(logs, products, start, end, selected)
  {
    var relevant := Relevant(logs, start, end);
    var entradas, saidas, detailed := Accumulate(relevant, products, selected);
    var sorted := SortBy(detailed, TimestampKey, true);
    r := Report(entradas, saidas, entradas - saidas, sorted);
  }

  /** The page's loop over the relevant entries: entries of other categories are skipped,
      positive movements add to the entries, negative ones to the exits, and every
      non-zero movement is collected in order. */
  method Accumulate(relevant: seq<ActivityLog>, products: seq<Product>, selected: string)
    returns (entradas: int, saidas: int, detailed: seq<Movement>)
    ensures entradas == Sum(relevant, InflowOf(products, selected))
    ensures saidas == Sum(relevant, OutflowOf(products, selected))
    ensures detailed == Retained(relevant, products, selected)
  {
    entradas, saidas, detailed := 0, 0, [];
    for i := 0 to |relevant|
      invariant entradas == Sum(relevant[..i], InflowOf(products, selected))
      invariant saidas == Sum(relevant[..i], OutflowOf(products, selected))
      invariant detailed == Retained(relevant[..i], products, selected)
    {
      var log := relevant[i];
      FoldStep(relevant, i, products, selected);
      var category := ResolveCategory(products, log.details);
      if selected != AllCategories && category != selected {
        continue;
      }
      var movement := MovementOf(log);
      if movement > 0 {
        entradas := entradas + movement;
      } else if movement < 0 {
        saidas := saidas - movement;
      }
      if movement != 0 {
        detailed := detailed + [Movement(log, log.details, movement)];
      }
    }
    assert relevant[..|relevant|] == relevant;
  }

  // ---------------------------------------------------------------- consequences

  /** A window that excludes every entry (in particular one that starts after it ends)
      gives zero entries, exits and balance and an empty list. */
  lemma WindowExcludingAllIsEmpty(logs: seq<ActivityLog>, products: seq<Product>, start: Option<int>, end: Option<int>, selected: string)
    requires forall i :: 0 <= i < |logs| ==> !InWindow(logs[i].timestamp, start, end)
    ensures Reconcile(logs, products, start, end, selected) == Report(0, 0, 0, [])
  {
    FilterKeepsNone(logs, RelevantTest(start, end));
  }

  lemma ReversedWindowIsEmpty(logs: seq<ActivityLog>, products: seq<Product>, start: int, end: int, selected: string)
    requires start > end
    ensures Reconcile(logs, products, Some(start), Some(end), selected) == Report(0, 0, 0, [])
  {
    WindowExcludingAllIsEmpty(logs, products, Some(start), Some(end), selected);
  }

  /** Other entries of the log do not matter: only quantity changes and deletions inside
      the window reach the report. */
  lemma OnlyRelevantEntriesCount(logs: seq<ActivityLog>, other: ActivityLog, products: seq<Product>, start: Option<int>, end: Option<int>, selected: string)
    requires !IsRelevant(other, start, end)
    ensures Reconcile([other] + logs, products, start, end, selected) == Reconcile(logs, products, start, end, selected)
  {
    FilterConcat([other], logs, RelevantTest(start, end));
    FilterSingleton(other, RelevantTest(start, end));
    assert [] + Relevant(logs, start, end) == Relevant(logs, start, end);
  }

  /** With every category selected the product list plays no part. */
  lemma {:induction false} AllCategoriesIgnoresProducts(relevant: seq<ActivityLog>, a: seq<Product>, b: seq<Product>)
    ensures Sum(relevant, InflowOf(a, AllCategories)) == Sum(relevant, InflowOf(b, AllCategories))
    ensures Sum(relevant, OutflowOf(a, AllCategories)) == Sum(relevant, OutflowOf(b, AllCategories))
    decreases |relevant|
  {
    if |relevant| > 0 {
      AllCategoriesIgnoresProducts(relevant[..|relevant| - 1], a, b);
    }
  }

  lemma BalanceIsNetFlow(logs: seq<ActivityLog>, products: seq<Product>, start: Option<int>, end: Option<int>)
    ensures var relevant := Relevant(logs, start, end);
      Reconcile(logs, products, start, end, AllCategories).balanco
        == Sum(relevant, InflowOf(products, AllCategories)) - Sum(relevant, OutflowOf(products, AllCategories))
  {
  }

  /** With every category selected, a relevant entry recorded at the front of the log moves
      the balance by exactly its movement, whatever the products are then. */
  lemma NewEntryMovesBalance(log: ActivityLog, logs: seq<ActivityLog>, a: seq<Product>, b: seq<Product>, start: Option<int>, end: Option<int>)
    requires IsRelevant(log, start, end)
    ensures Reconcile([log] + logs, a, start, end, AllCategories).balanco
         == Reconcile(logs, b, start, end, AllCategories).balanco + MovementOf(log)
  {
    var test := RelevantTest(start, end);
    FilterConcat([log], logs, test);
    FilterSingleton(log, test);
    var before := Relevant(logs, start, end);
    assert Relevant([log] + logs, start, end) == [log] + before;
    BalanceIsNetFlow([log] + logs, a, start, end);
    BalanceIsNetFlow(logs, b, start, end);
    AllCategoriesIgnoresProducts(before, a, b);
    SumConcat([log], before, InflowOf(a, AllCategories));
    SumConcat([log], before, OutflowOf(a, AllCategories));
    SumSingleton(log, InflowOf(a, AllCategories));
    SumSingleton(log, OutflowOf(a, AllCategories));
  }

  /** With every category selected and a window containing the moment of the change, a
      quantity change made through the buttons moves the balance by exactly that change. */
  lemma QuantityChangeMovesBalance(s: State, productId: string, newQuantity: int, oldQuantity: int, now: int, start: Option<int>, end: Option<int>)
    requires s.currentUser.Some?
    requires FindProduct(s.products, productId).Some? && newQuantity >= 0
    requires InWindow(now, start, end)
    ensures var r := HandleUpdateQuantity(s, productId, newQuantity, oldQuantity, now);
      Reconcile(r.logs, r.products, start, end, AllCategories).balanco
        == Reconcile(s.logs, s.products, start, end, AllCategories).balanco + (newQuantity - oldQuantity)
  {
    var r := HandleUpdateQuantity(s, productId, newQuantity, oldQuantity, now);
    LoggedChangesReadBack(s, productId, newQuantity, oldQuantity, r.products[0], now);
    assert r.logs == [r.logs[0]] + s.logs;
    NewEntryMovesBalance(r.logs[0], s.logs, r.products, s.products, start, end);
  }

  // ---------------------------------------------------------------- a worked example

  const CaixaProduct: Product := Product("p1", "Caixa", "CAIXA", 25, 100, "", 0, "Estoque Principal", [], 10, [])
  const PacoteProduct: Product := Product("p2", "Pacote", "PACOTE", 0, 100, "", 0, "Estoque Principal", [], 10, [])
  const CaixaIn: ActivityLog :=
    ActivityLog("log-1", "admin", UpdateProductQuantity, "Caixa", 1000, Some(LogValue.Num(20)), Some(LogValue.Num(30)))
  const CaixaOut: ActivityLog :=
    ActivityLog("log-2", "admin", UpdateProductQuantity, "Caixa", 2000, Some(LogValue.Num(30)), Some(LogValue.Num(25)))
  const PacoteDeleted: ActivityLog :=
    ActivityLog("log-3", "admin", DeleteProduct, "Pacote", 3000, Some(LogValue.Num(25)), None)

  /** Two quantity changes of a "CAIXA" product (20 to 30, then 30 to 25) and the deletion
      of a "PACOTE" product holding 25 units, newest first as the log stores them, reported
      for "CAIXA" over an open window: 10 units in, 5 out, a balance of 5, and the deletion
      is not listed. */
  lemma CaixaScenario()
    ensures var r := Reconcile([PacoteDeleted, CaixaOut, CaixaIn], [CaixaProduct, PacoteProduct], None, None, "CAIXA");
      && r.entradas == 10 && r.saidas == 5 && r.balanco == 5
      && |r.movements| == 2
      && forall i :: 0 <= i < |r.movements| ==> r.movements[i].log.action != DeleteProduct
  {
    var products := [CaixaProduct, PacoteProduct];
    var logs := [PacoteDeleted, CaixaOut, CaixaIn];
    var r := Reconcile(logs, products, None, None, "CAIXA");
    ScenarioRelevant();
    ScenarioTotals();
    ScenarioRetained();
    assert |multiset(r.movements)| == |multiset(Retained(logs, products, "CAIXA"))|;
    ScenarioNoDeletion(r.movements);
  }

  lemma ScenarioTotals()
    ensures Sum([PacoteDeleted, CaixaOut, CaixaIn], InflowOf([CaixaProduct, PacoteProduct], "CAIXA")) == 10
    ensures Sum([PacoteDeleted, CaixaOut, CaixaIn], OutflowOf([CaixaProduct, PacoteProduct], "CAIXA")) == 5
  {
    var products := [CaixaProduct, PacoteProduct];
    ScenarioCategories();
    SumOfThree(PacoteDeleted, CaixaOut, CaixaIn, InflowOf(products, "CAIXA"));
    SumOfThree(PacoteDeleted, CaixaOut, CaixaIn, OutflowOf(products, "CAIXA"));
  }

  lemma ScenarioNoDeletion(movements: seq<Movement>)
    requires forall i :: 0 <= i < |movements| ==>
      movements[i].log in [PacoteDeleted, CaixaOut, CaixaIn] && Listed(movements[i], [CaixaProduct, PacoteProduct], "CAIXA")
    ensures forall i :: 0 <= i < |movements| ==> movements[i].log.action != DeleteProduct
  {
    ScenarioCategories();
  }

  lemma ScenarioRelevant()
    ensures Relevant([PacoteDeleted, CaixaOut, CaixaIn], None, None) == [PacoteDeleted, CaixaOut, CaixaIn]
  {
    var logs := [PacoteDeleted, CaixaOut, CaixaIn];
    assert forall i :: 0 <= i < |logs| ==> logs[i].action == DeleteProduct || logs[i].action == UpdateProductQuantity;
    FilterKeepsAll(logs, RelevantTest(None, None));
  }

  lemma ScenarioCategories()
    ensures ResolveCategory([CaixaProduct, PacoteProduct], "Caixa") == "CAIXA"
    ensures ResolveCategory([CaixaProduct, PacoteProduct], "Pacote") == "PACOTE"
  {
    assert FirstNamed([CaixaProduct, PacoteProduct], "Pacote", 1);
  }

  lemma ScenarioRetained()
    ensures |Retained([PacoteDeleted, CaixaOut, CaixaIn], [CaixaProduct, PacoteProduct], "CAIXA")| == 2
  {
    var logs := [PacoteDeleted, CaixaOut, CaixaIn];
    var products := [CaixaProduct, PacoteProduct];
    ScenarioCategories();
    FoldStep(logs, 0, products, "CAIXA");
    FoldStep(logs, 1, products, "CAIXA");
    FoldStep(logs, 2, products, "CAIXA");
    assert !Keeps(PacoteDeleted, products, "CAIXA");
    assert Keeps(CaixaOut, products, "CAIXA") && Keeps(CaixaIn, products, "CAIXA");
    assert logs[..0] == [] && logs[..3] == logs;
  }
}

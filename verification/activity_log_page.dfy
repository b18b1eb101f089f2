/** The activity-log page: every audit entry, newest first, fifteen per page, each
    described by a sentence chosen by its action code; administrators only. */
module ActivityLogPage {
  import opened Wrappers
  import opened Types
  import opened Text
  import opened Numbers
  import opened Sorting
  import opened Inventory
  import opened Paging

  const LogsPerPage: nat := 15

  // ---------------------------------------------------------------- action codes

  /** The code an action is stored under. */
  function ActionName(a: Action): string {
    match a
    case Login => "LOGIN"
    case Logout => "LOGOUT"
    case CreateProduct => "CREATE_PRODUCT"
    case UpdateProduct => "UPDATE_PRODUCT"
    case DeleteProduct => "DELETE_PRODUCT"
    case UpdateProductQuantity => "UPDATE_PRODUCT_QUANTITY"
    case AddUser => "ADD_USER"
    case DeleteUser => "DELETE_USER"
    case UpdateUserPassword => "UPDATE_USER_PASSWORD"
    case AddCategory => "ADD_CATEGORY"
    case UpdateCategory => "UPDATE_CATEGORY"
    case DeleteCategory => "DELETE_CATEGORY"
    case AddLocation => "ADD_LOCATION"
    case UpdateLocation => "UPDATE_LOCATION"
    case DeleteLocation => "DELETE_LOCATION"
    case AddSupplier => "ADD_SUPPLIER"
    case UpdateSupplier => "UPDATE_SUPPLIER"
    case DeleteSupplier => "DELETE_SUPPLIER"
  }

  /** Reads a stored action code; any other text is not an action. */
  function ParseAction(raw: string): (r: Option<Action>)
    ensures r.Some? ==> ActionName(r.value) == raw
  {
    if raw == "LOGIN" then Some(Login)
    else if raw == "LOGOUT" then Some(Logout)
    else if raw == "CREATE_PRODUCT" then Some(CreateProduct)
    else if raw == "UPDATE_PRODUCT" then Some(UpdateProduct)
    else if raw == "DELETE_PRODUCT" then Some(DeleteProduct)
    else if raw == "UPDATE_PRODUCT_QUANTITY" then Some(UpdateProductQuantity)
    else if raw == "ADD_USER" then Some(AddUser)
    else if raw == "DELETE_USER" then Some(DeleteUser)
    else if raw == "UPDATE_USER_PASSWORD" then Some(UpdateUserPassword)
    else if raw == "ADD_CATEGORY" then Some(AddCategory)
    else if raw == "UPDATE_CATEGORY" then Some(UpdateCategory)
    else if raw == "DELETE_CATEGORY" then Some(DeleteCategory)
    else if raw == "ADD_LOCATION" then Some(AddLocation)
    else if raw == "UPDATE_LOCATION" then Some(UpdateLocation)
    else if raw == "DELETE_LOCATION" then Some(DeleteLocation)
    else if raw == "ADD_SUPPLIER" then Some(AddSupplier)
    else if raw == "UPDATE_SUPPLIER" then Some(UpdateSupplier)
    else if raw == "DELETE_SUPPLIER" then Some(DeleteSupplier)
    else None
  }

  /** Every action is read back from its code, so no two actions share a code. */
  lemma ActionCodesRoundTrip(a: Action, b: Action)
    ensures ParseAction(ActionName(a)) == Some(a)
    ensures ActionName(a) == ActionName(b) ==> a == b
  {
    ActionCodeReadsBack(a);
    ActionCodeReadsBack(b);
  }

  lemma ActionCodeReadsBack(a: Action)
    ensures ParseAction(ActionName(a)) == Some(a)
  {
  }

  // ---------------------------------------------------------------- sentences

  /** How a template literal shows an optional audit value. */
  function ShowValue(v: Option<LogValue>): string {
    match v
    case None => "undefined"
    case Some(Num(n)) => IntToString(n)
    case Some(Text(t)) => t
  }

  /** The actions whose sentence is a fixed opening followed by the entry's details. */
  predicate IsPlainAction(a: Action) {
    !(a == Login || a == Logout || a == DeleteProduct || a == UpdateProductQuantity)
  }

  /** The opening of a plain action's sentence. */
  function Opening(a: Action): string
    requires IsPlainAction(a)
  {
    match a
    case CreateProduct => "criou o produto: "
    case UpdateProduct => "atualizou o produto: "
    case AddUser => "adicionou o usuário: "
    case DeleteUser => "deletou o usuário: "
    case UpdateUserPassword => "atualizou a senha do usuário: "
    case AddCategory => "adicionou a categoria: "
    case UpdateCategory => "atualizou a categoria: "
    case DeleteCategory => "deletou a categoria: "
    case AddLocation => "adicionou a localização: "
    case UpdateLocation => "atualizou a localização: "
    case DeleteLocation => "deletou a localização: "
    case AddSupplier => "adicionou o fornecedor: "
    case UpdateSupplier => "atualizou o fornecedor: "
    case DeleteSupplier => "deletou o fornecedor: "
  }

  /** The sentence shown after the user's name. */
  function ActionText(log: ActivityLog): (r: string)
    ensures |r| > 0 && r[|r| - 1] == '.'
  {
    var d := log.details;
    if IsPlainAction(log.action) then Opening(log.action) + d + "."
    else match log.action
      case Login => "fez login no sistema."
      case Logout => "fez logout do sistema."
      case DeleteProduct => "deletou o produto: " + d + " (tinha " + ShowValue(log.oldValue) + " em estoque)."
      case UpdateProductQuantity =>
        "alterou a quantidade de \"" + d + "\" de " + ShowValue(log.oldValue) + " para " + ShowValue(log.newValue) + "."
  }

  lemma OpeningInjective(a: Action, b: Action)
    requires IsPlainAction(a) && IsPlainAction(b)
    requires Opening(a) == Opening(b)
    ensures a == b
  {
  }

  /** Each plain action has a sentence of its own: for the same details, two plain actions
      with the same sentence are the same action. */
  lemma PlainSentencesNameTheirAction(log: ActivityLog, a: Action, b: Action)
    requires IsPlainAction(a) && IsPlainAction(b)
    requires ActionText(log.(action := a)) == ActionText(log.(action := b))
    ensures a == b
  {
    var t := ActionText(log.(action := a));
    var tail := log.details + ".";
    assert t == Opening(a) + tail && t == Opening(b) + tail;
    assert Opening(a) == t[..|Opening(a)|];
    assert Opening(b) == t[..|Opening(b)|];
    OpeningInjective(a, b);
  }

  const UnknownActionText: string := "realizou uma ação desconhecida."

  /** The sentence for an entry read back from storage, whose action code may be one the
      application does not know. */
  function RawActionText(rawAction: string, log: ActivityLog): (r: string)
    ensures ParseAction(rawAction).None? <==> r == UnknownActionText
    ensures ParseAction(rawAction).Some? ==> r == ActionText(log.(action := ParseAction(rawAction).value))
  {
    match ParseAction(rawAction)
    case Some(a) => UnknownCodeIsNoSentence(log.(action := a)); ActionText(log.(action := a))
    case None => UnknownActionText
  }

  /** The fallback sentence is never produced by a known action. */
  lemma UnknownCodeIsNoSentence(log: ActivityLog)
    ensures ActionText(log) != UnknownActionText
  {
    var t := ActionText(log);
    if log.action != Login && log.action != Logout {
      assert t[|t| - 1] == '.';
      assert t[0] != 'r';
    }
  }

  /** A needle placed between any two strings occurs in the result. */
  lemma ContainsMiddle(front: string, needle: string, back: string)
    ensures Contains(front + needle + back, needle)
  {
    var h := front + needle + back;
    assert h[|front|..|front| + |needle|] == needle;
    assert OccursAt(h, needle, |front|);
    ContainsIffOccurs(h, needle);
  }

  /** Every sentence except those of login and logout names the entry's subject. */
  lemma SentenceNamesItsSubject(log: ActivityLog)
    requires log.action != Login && log.action != Logout
    ensures Contains(ActionText(log), log.details)
  {
    var d := log.details;
    if IsPlainAction(log.action) {
      ContainsMiddle(Opening(log.action), d, ".");
    } else if log.action == DeleteProduct {
      var back := " (tinha " + ShowValue(log.oldValue) + " em estoque).";
      assert ActionText(log) == "deletou o produto: " + d + back;
      ContainsMiddle("deletou o produto: ", d, back);
    } else {
      QuantitySentenceShowsBoth(log);
    }
  }

  /** A quantity change names the product and shows the quantity before and after. */
  lemma QuantitySentenceShowsBoth(log: ActivityLog)
    requires log.action == UpdateProductQuantity
    ensures Contains(ActionText(log), log.details)
    ensures Contains(ActionText(log), ShowValue(log.oldValue))
    ensures Contains(ActionText(log), ShowValue(log.newValue))
  {
    var d, o, n := log.details, ShowValue(log.oldValue), ShowValue(log.newValue);
    var a, b, c := "alterou a quantidade de \"", "\" de ", " para ";
    var t := ActionText(log);
    assert t == a + d + b + o + c + n + ".";
    assert t == a + d + (b + o + c + n + ".");
    ContainsMiddle(a, d, b + o + c + n + ".");
    assert t == (a + d + b) + o + (c + n + ".");
    ContainsMiddle(a + d + b, o, c + n + ".");
    ContainsMiddle(a + d + b + o + c, n, ".");
  }

  // ---------------------------------------------------------------- order and pages

  /** Newest first by timestamp; entries with equal timestamps keep their stored order. */
  function SortedLogs(logs: seq<ActivityLog>): (r: seq<ActivityLog>)
    ensures multiset(r) == multiset(logs)
    ensures forall i, j :: 0 <= i < j < |r| ==> r[i].timestamp >= r[j].timestamp
  {
    var r := SortBy(logs, (l: ActivityLog) => Key.Num(l.timestamp), true);
    assert forall i, j :: 0 <= i < j < |r| ==> Before(Key.Num(r[i].timestamp), Key.Num(r[j].timestamp), true);
    r
  }

  /** Timestamps never increase along the list. */
  predicate NewestFirst(logs: seq<ActivityLog>) {
    forall i, j :: 0 <= i < j < |logs| ==> logs[i].timestamp >= logs[j].timestamp
  }

  /** A log already newest first is shown in stored order. */
  lemma StoredOrderIsShown(logs: seq<ActivityLog>)
    requires NewestFirst(logs)
    ensures SortedLogs(logs) == logs
  {
    var key := (l: ActivityLog) => Key.Num(l.timestamp);
    assert SortedBy(logs, key, true);
    SortBySorted(logs, key, true);
  }

  /** Recording keeps the log newest first as long as the clock does not go back, so the
      page's sort only ever reorders entries written with an earlier clock. */
  lemma LoggingKeepsNewestFirst(s: State, action: Action, details: string, oldValue: Option<LogValue>, newValue: Option<LogValue>, now: int)
    requires NewestFirst(s.logs)
    requires forall i :: 0 <= i < |s.logs| ==> s.logs[i].timestamp <= now
    ensures NewestFirst(LogActivity(s, action, details, oldValue, newValue, now).logs)
  {
  }

  /** The page body: `None` for the restricted-access notice shown to anyone but a
      signed-in administrator, otherwise the entries of the current page. */
  function ShownLogs(currentUser: Option<User>, logs: seq<ActivityLog>, page: int): (r: Option<seq<ActivityLog>>)
    ensures r.Some? <==> IsAdminSession(currentUser)
    ensures r.Some? ==> |r.value| <= LogsPerPage && forall i :: 0 <= i < |r.value| ==> r.value[i] in logs
  {
    if !IsAdminSession(currentUser) then None
    else
      var sorted := SortedLogs(logs);
      var shown := Paginate(sorted, page, LogsPerPage);
      assert forall i :: 0 <= i < |shown| ==> shown[i] in multiset(logs);
      Some(shown)
  }

  /** Page one of a newest-first log holds its first fifteen entries. */
  lemma FirstPageIsLatest(u: User, logs: seq<ActivityLog>)
    requires u.role == Admin && NewestFirst(logs)
    ensures ShownLogs(Some(u), logs, 1) == Some(logs[..if |logs| < LogsPerPage then |logs| else LogsPerPage])
  {
    StoredOrderIsShown(logs);
  }
}

/** The application shell's state and its product handlers: activity logging, login and
    logout, product create/edit/delete and the quantity buttons, with the low-stock
    crossing test that feeds the notification policy.

    Every handler is one atomic transition from a `State` to the next. `now` is the clock
    reading the handler takes (milliseconds); identifiers are derived from it exactly as the
    application derives them, so two records made in the same millisecond share one. */
module Inventory {
  import opened Wrappers
  import opened Types
  import opened Text
  import opened Numbers
  import opened Lists
  import opened Notifications

  datatype State = State(
    products: seq<Product>,
    users: seq<User>,
    categories: seq<string>,
    locations: seq<string>,
    suppliers: seq<Supplier>,
    logs: seq<ActivityLog>,
    notifications: seq<Notification>,
    lowStockThreshold: int,
    defaultReorderQuantity: int,
    currentUser: Option<User>,
    loginError: Option<string>)

  /** A transition that the application may refuse with an alert, leaving the state as it was. */
  datatype Outcome = Applied(state: State) | Alerted(message: string)

  /** A record identifier built from a prefix and the clock, as in "log-1700000000000". */
  function MakeId(prefix: string, now: int): string {
    prefix + IntToString(now)
  }

  function NewLog(user: string, action: Action, details: string, oldValue: Option<LogValue>, newValue: Option<LogValue>, now: int): ActivityLog {
    ActivityLog(MakeId("log-", now), user, action, details, now, oldValue, newValue)
  }

  /** Records an action of the signed-in user at the front of the log; with nobody signed in
      nothing is recorded. Nothing but the log changes. */
  function LogActivity(s: State, action: Action, details: string, oldValue: Option<LogValue>, newValue: Option<LogValue>, now: int): (r: State)
    ensures s.currentUser.None? ==> r == s
    ensures s.currentUser.Some? ==>
      && r == s.(logs := r.logs)
      && |r.logs| == |s.logs| + 1 && r.logs[1..] == s.logs
      && r.logs[0] == NewLog(s.currentUser.value.username, action, details, oldValue, newValue, now)
  {
    if s.currentUser.None? then s
    else s.(logs := [NewLog(s.currentUser.value.username, action, details, oldValue, newValue, now)] + s.logs)
  }

  /** `r`'s log is `s`'s with one entry in front, made by the signed-in user and recording
      `action` with `details`; with nobody signed in the log is unchanged. */
  predicate RecordsOne(s: State, r: State, action: Action, details: string) {
    if s.currentUser.None? then r.logs == s.logs
    else
      && |r.logs| == |s.logs| + 1 && r.logs[1..] == s.logs
      && r.logs[0].user == s.currentUser.value.username
      && r.logs[0].action == action && r.logs[0].details == details
  }

  // ---------------------------------------------------------------- login

  /** Login accepts a stored user whose trimmed name equals the typed one, trimmed, ignoring
      case, and whose password equals the typed one exactly. */
  predicate Authenticates(u: User, username: string, password: string) {
    SameIgnoringCase(Trim(u.username), Trim(username)) && u.password == password
  }

  /** The position of the first user the credentials authenticate (`Array.prototype.find`). */
  function FindLogin(users: seq<User>, username: string, password: string): (r: Option<nat>)
    ensures r.Some? ==> r.value < |users| && Authenticates(users[r.value], username, password)
    ensures r.Some? ==> forall j :: 0 <= j < r.value ==> !Authenticates(users[j], username, password)
    ensures r.None? ==> forall j :: 0 <= j < |users| ==> !Authenticates(users[j], username, password)
  {
    FindFirst(users, (u: User) => Authenticates(u, username, password))
  }

  const LoginFailedMessage: string := "Usuário ou senha inválidos."

  function HandleLogin(s: State, username: string, password: string, now: int): (r: State)
    // success: the first matching user signs in and exactly one LOGIN entry, attributed to
    // that user rather than to whoever was signed in before, is put in front of the log
    ensures forall k :: FindLogin(s.users, username, password) == Some(k) ==>
      var u := s.users[k];
      && r == s.(currentUser := Some(u), loginError := None, logs := r.logs)
      && |r.logs| == |s.logs| + 1 && r.logs[1..] == s.logs
      && r.logs[0].action == Login && r.logs[0].user == u.username
      && r.logs[0].timestamp == now
      && r.logs[0].oldValue.None? && r.logs[0].newValue.None?
      && r.logs[0] == NewLog(u.username, Login, "User " + u.username + " logged in.", None, None, now)
    // failure: an error is shown and nothing is logged
    ensures FindLogin(s.users, username, password).None? ==>
      r == s.(loginError := Some(LoginFailedMessage))
  {
    match FindLogin(s.users, username, password)
    case Some(k) =>
      var u := s.users[k];
      var entry := NewLog(u.username, Login, "User " + u.username + " logged in.", None, None, now);
      s.(currentUser := Some(u), loginError := None, logs := [entry] + s.logs)
    case None =>
      s.(loginError := Some(LoginFailedMessage))
  }

  /** Logging in succeeds exactly when some stored user matches the credentials, and then
      the signed-in user is one that matches. */
  lemma LoginSucceedsIffSomeUserMatches(s: State, username: string, password: string, now: int)
    ensures var r := HandleLogin(s, username, password, now);
      r.loginError.None? <==> exists i :: 0 <= i < |s.users| && Authenticates(s.users[i], username, password)
    ensures var r := HandleLogin(s, username, password, now);
      r.loginError.None? ==> r.currentUser.Some? && Authenticates(r.currentUser.value, username, password)
  {
  }

  function HandleLogout(s: State, now: int): (r: State)
    ensures r.currentUser.None?
    ensures r.products == s.products && r.users == s.users && r.notifications == s.notifications
    ensures s.currentUser.Some? ==> |r.logs| == |s.logs| + 1 && r.logs[0].action == Logout
    ensures s.currentUser.None? ==> r.logs == s.logs
    ensures r == s.(currentUser := None, logs := r.logs)
    ensures s.currentUser.Some? ==> RecordsOne(s, r, Logout, "User " + s.currentUser.value.username + " logged out.")
  {
    var who := if s.currentUser.Some? then s.currentUser.value.username else "undefined";
    LogActivity(s, Logout, "User " + who + " logged out.", None, None, now).(currentUser := None)
  }
  /** The settings page and the activity log are shown only to a signed-in administrator. */
  predicate IsAdminSession(currentUser: Option<User>) {
    currentUser.Some? && currentUser.value.role == Admin
  }


  // ---------------------------------------------------------------- products

  /** The first product with identifier `id`. */
  function FindProduct(products: seq<Product>, id: string): (r: Option<Product>)
    ensures r.Some? <==> exists i :: 0 <= i < |products| && products[i].id == id
    ensures r.Some? ==> r.value in products && r.value.id == id
    ensures r.Some? ==> exists i :: 0 <= i < |products| && products[i] == r.value && forall j :: 0 <= j < i ==> products[j].id != id
  {
    if |products| == 0 then None
    else if products[0].id == id then Some(products[0])
    else FindProduct(products[1..], id)
  }

  /** Replaces every product with identifier `id` by `p`, in place. */
  function ReplaceById(products: seq<Product>, id: string, p: Product): (r: seq<Product>)
    ensures |r| == |products|
    ensures forall i :: 0 <= i < |products| ==> r[i] == if products[i].id == id then p else products[i]
  {
    seq(|products|, i requires 0 <= i < |products| => if products[i].id == id then p else products[i])
  }

  /** A product's quantity goes from above the threshold to at or below it. */
  predicate CrossesThreshold(oldQuantity: int, newQuantity: int, threshold: int) {
    oldQuantity > threshold && newQuantity <= threshold
  }

  /** The stored version of a saved product: when an edit changes the cost price, the new
      price is appended to the previous history; otherwise the product is kept as given. */
  function WithPriceHistory(previous: Option<Product>, p: Product, now: int): (r: Product)
    ensures r == p.(priceHistory := r.priceHistory)
    ensures previous.Some? && previous.value.costPrice != p.costPrice ==>
      r.priceHistory == previous.value.priceHistory + [PriceEntry(p.costPrice, now)]
    ensures !(previous.Some? && previous.value.costPrice != p.costPrice) ==> r == p
  {
    if previous.Some? && previous.value.costPrice != p.costPrice then
      p.(priceHistory := previous.value.priceHistory + [PriceEntry(p.costPrice, now)])
    else p
  }

  /** Joins strings with ", " (`Array.prototype.join(', ')`). */
  function JoinComma(parts: seq<string>): string {
    if |parts| == 0 then ""
    else if |parts| == 1 then parts[0]
    else parts[0] + ", " + JoinComma(parts[1..])
  }

  /** The cost-price and location changes an edit describes in its log entry. */
  function ChangeList(previous: Product, p: Product): seq<string> {
    (if previous.costPrice != p.costPrice
     then ["Preço de Custo: R$ " + FormatCents(previous.costPrice) + " -> R$ " + FormatCents(p.costPrice)]
     else [])
    + (if previous.location != p.location
       then ["Localização: " + previous.location + " -> " + p.location]
       else [])
  }

  /** The details of an edit's UPDATE_PRODUCT entry: the product's name, followed by the
      changes in parentheses exactly when the cost price or the location changed. */
  function UpdateDetails(previous: Product, p: Product): (r: string)
    ensures |p.name| <= |r| && r[..|p.name|] == p.name
    ensures r == p.name <==> previous.costPrice == p.costPrice && previous.location == p.location
    ensures r != p.name ==> |r| > |p.name| + 2 && r[|p.name|..|p.name| + 2] == " (" && r[|r| - 1] == ')'
  {
    var changes := ChangeList(previous, p);
    if |changes| > 0 then p.name + " (" + JoinComma(changes) + ")" else p.name
  }

  function SaveLowStockMessage(p: Product): string {
    "Estoque baixo para \"" + p.name + "\". Quantidade: " + IntToString(p.quantity) + "."
  }

  /** Saving from the product form. An existing identifier makes it an edit: the product is
      replaced in place, a quantity change is logged before the general update, a changed
      cost price is appended to the history, and a low-stock notification is considered
      when the quantity crosses the threshold. A new identifier makes it a create: the
      product is put in front, as given, and never notifies. */
  function HandleSaveProduct(s: State, p: Product, now: int): (r: State)
    ensures r.users == s.users && r.categories == s.categories && r.locations == s.locations
    ensures r.suppliers == s.suppliers && r.currentUser == s.currentUser
    ensures r.lowStockThreshold == s.lowStockThreshold && r.loginError == s.loginError
    ensures r.defaultReorderQuantity == s.defaultReorderQuantity
    // create
    ensures FindProduct(s.products, p.id).None? ==>
      && r.products == [p] + s.products
      && r.notifications == s.notifications
      && (s.currentUser.Some? ==>
            |r.logs| == |s.logs| + 1 && r.logs[1..] == s.logs
            && r.logs[0].action == CreateProduct && r.logs[0].details == p.name)
      && RecordsOne(s, r, CreateProduct, p.name)
    // edit
    ensures forall prev :: FindProduct(s.products, p.id) == Some(prev) ==>
      var stored := WithPriceHistory(Some(prev), p, now);
      var quantityChanged := prev.quantity != p.quantity;
      && |r.products| == |s.products|
      && (forall i :: 0 <= i < |s.products| && s.products[i].id == p.id ==> r.products[i] == stored)
      && (forall i :: 0 <= i < |s.products| && s.products[i].id != p.id ==> r.products[i] == s.products[i])
      && (r.notifications ==
            if CrossesThreshold(prev.quantity, p.quantity, s.lowStockThreshold)
            then AddNotification(s.notifications, p.id, SaveLowStockMessage(p), now)
            else s.notifications)
      && (s.currentUser.Some? ==>
            var added := if quantityChanged then 2 else 1;
            && |r.logs| == |s.logs| + added && r.logs[added..] == s.logs
            && r.logs[0].user == s.currentUser.value.username
            && r.logs[0].action == UpdateProduct && r.logs[0].details == UpdateDetails(prev, p)
            && (quantityChanged ==>
                  && r.logs[1].user == s.currentUser.value.username
                  && r.logs[1].action == UpdateProductQuantity && r.logs[1].details == p.name
                  && r.logs[1].oldValue == Some(Num(prev.quantity))
                  && r.logs[1].newValue == Some(Num(p.quantity))))
    ensures s.currentUser.None? ==> r.logs == s.logs
  {
    var previous := FindProduct(s.products, p.id);
    var stored := WithPriceHistory(previous, p, now);
    var s1 :=
      if previous.Some? && previous.value.quantity != p.quantity
      then LogActivity(s, UpdateProductQuantity, p.name, Some(Num(previous.value.quantity)), Some(Num(p.quantity)), now)
      else s;
    var s2 :=
      if previous.Some? && CrossesThreshold(previous.value.quantity, p.quantity, s.lowStockThreshold)
      then s1.(notifications := AddNotification(s1.notifications, p.id, SaveLowStockMessage(p), now))
      else s1;
    if previous.Some? then
      LogActivity(s2.(products := ReplaceById(s.products, p.id, stored)), UpdateProduct, UpdateDetails(previous.value, p), None, None, now)
    else
      LogActivity(s2.(products := [stored] + s.products), CreateProduct, p.name, None, None, now)
  }

  /** Every price an edit records stays recorded: the stored history starts with the history
      held before the edit whenever the edited product carried that history forward, and it
      grows by exactly one entry, the new price, when the price changes. */
  lemma SavePreservesPriceHistory(s: State, p: Product, now: int, prev: Product)
    requires FindProduct(s.products, p.id) == Some(prev)
    requires p.priceHistory == prev.priceHistory
    ensures var stored := WithPriceHistory(Some(prev), p, now);
      && prev.priceHistory <= stored.priceHistory
      && |stored.priceHistory| == |prev.priceHistory| + (if prev.costPrice != p.costPrice then 1 else 0)
      && (prev.costPrice != p.costPrice ==> stored.priceHistory[|prev.priceHistory|] == PriceEntry(p.costPrice, now))
  {
  }

  /** Confirms the pending deletion: every product with that identifier goes, and the
      deletion is logged with the quantity held at that moment, which the movement report
      later counts as a full exit. Without a pending product nothing happens. */
  function ConfirmDeleteProduct(s: State, pending: Option<Product>, now: int): (r: State)
    ensures pending.None? ==> r == s
    ensures pending.Some? ==>
      var p := pending.value;
      && r == s.(products := r.products, logs := r.logs)
      && (forall i :: 0 <= i < |r.products| ==> r.products[i].id != p.id && r.products[i] in s.products)
      && (forall i :: 0 <= i < |s.products| && s.products[i].id != p.id ==> s.products[i] in r.products)
      && r.products == Filter(s.products, (q: Product) => q.id != p.id)
      && RecordsOne(s, r, DeleteProduct, p.name)
      && (s.currentUser.Some? ==>
            |r.logs| == |s.logs| + 1 && r.logs[1..] == s.logs
            && r.logs[0].action == DeleteProduct && r.logs[0].details == p.name
            && r.logs[0].oldValue == Some(Num(p.quantity)) && r.logs[0].newValue.None?)
  {
    match pending
    case None => s
    case Some(p) =>
      var s1 := LogActivity(s, DeleteProduct, p.name, Some(Num(p.quantity)), None, now);
      s1.(products := Filter(s.products, (q: Product) => q.id != p.id))
  }

  /** Deleting keeps the remaining products in their order: deleting from a concatenation
      deletes from each part. */
  lemma DeleteKeepsOrder(a: seq<Product>, b: seq<Product>, id: string)
    ensures Filter(a + b, (q: Product) => q.id != id)
         == Filter(a, (q: Product) => q.id != id) + Filter(b, (q: Product) => q.id != id)
  {
    FilterConcat(a, b, (q: Product) => q.id != id);
  }

  /** Sets the quantity and the last-updated time of every product with identifier `id`. */
  function SetQuantity(products: seq<Product>, id: string, quantity: int, now: int): (r: seq<Product>)
    ensures |r| == |products|
    ensures forall i :: 0 <= i < |products| ==>
      r[i] == if products[i].id == id then products[i].(quantity := quantity, lastUpdated := now) else products[i]
  {
    seq(|products|, i requires 0 <= i < |products| =>
      if products[i].id == id then products[i].(quantity := quantity, lastUpdated := now) else products[i])
  }

  function QuantityLowStockMessage(name: string, quantity: int): string {
    "Estoque baixo para \"" + name + "\". Quantidade atual: " + IntToString(quantity) + "."
  }

  /** The +/- buttons. An unknown product or a negative quantity changes nothing. Otherwise
      only that product's quantity (and time stamp) changes, the caller's old and new
      quantities are logged, and a notification is considered only on a threshold crossing. */
  function HandleUpdateQuantity(s: State, productId: string, newQuantity: int, oldQuantity: int, now: int): (r: State)
    ensures FindProduct(s.products, productId).None? || newQuantity < 0 ==> r == s
    ensures forall p :: FindProduct(s.products, productId) == Some(p) && newQuantity >= 0 ==>
      && r == s.(products := r.products, logs := r.logs, notifications := r.notifications)
      && |r.products| == |s.products|
      && (forall i :: 0 <= i < |s.products| ==>
            if s.products[i].id == productId
            then r.products[i].quantity == newQuantity && r.products[i] == s.products[i].(quantity := newQuantity, lastUpdated := now)
            else r.products[i] == s.products[i])
      && (s.currentUser.Some? ==>
            |r.logs| == |s.logs| + 1 && r.logs[1..] == s.logs
            && r.logs[0].action == UpdateProductQuantity && r.logs[0].details == p.name
            && r.logs[0].oldValue == Some(Num(oldQuantity)) && r.logs[0].newValue == Some(Num(newQuantity)))
      && (s.currentUser.None? ==> r.logs == s.logs)
      && RecordsOne(s, r, UpdateProductQuantity, p.name)
      && (r.notifications ==
            if CrossesThreshold(oldQuantity, newQuantity, s.lowStockThreshold)
            then AddNotification(s.notifications, productId, QuantityLowStockMessage(p.name, newQuantity), now)
            else s.notifications)
  {
    match FindProduct(s.products, productId)
    case None => s
    case Some(p) =>
      if newQuantity < 0 then s
      else
        var s1 := s.(products := SetQuantity(s.products, productId, newQuantity, now));
        var s2 := LogActivity(s1, UpdateProductQuantity, p.name, Some(Num(oldQuantity)), Some(Num(newQuantity)), now);
        if CrossesThreshold(oldQuantity, newQuantity, s.lowStockThreshold)
        then s2.(notifications := AddNotification(s2.notifications, productId, QuantityLowStockMessage(p.name, newQuantity), now))
        else s2
  }

  /** The quantity handler never makes a stock quantity negative: a negative request is
      ignored, so a store without negative quantities stays without them. */
  lemma UpdateQuantityKeepsStockNonNegative(s: State, productId: string, newQuantity: int, oldQuantity: int, now: int)
    requires forall i :: 0 <= i < |s.products| ==> s.products[i].quantity >= 0
    ensures var r := HandleUpdateQuantity(s, productId, newQuantity, oldQuantity, now);
      forall i :: 0 <= i < |r.products| ==> r.products[i].quantity >= 0
  {
  }

  /** A quantity update raises a new notification exactly when the quantity crosses the
      threshold and the product has no unread low-stock notification yet. */
  lemma UpdateQuantityNotifiesIffFirstCrossing(s: State, productId: string, newQuantity: int, oldQuantity: int, now: int)
    requires FindProduct(s.products, productId).Some? && newQuantity >= 0
    ensures var r := HandleUpdateQuantity(s, productId, newQuantity, oldQuantity, now);
      |r.notifications| == |s.notifications| + 1
      <==> CrossesThreshold(oldQuantity, newQuantity, s.lowStockThreshold) && !HasUnreadFor(s.notifications, productId)
  {
  }

  /** A product already at or below the threshold never re-notifies when it drops further:
      with threshold 10, going 50 -> 5 raises one notification and 5 -> 3 raises none, so
      exactly one unread notification exists afterwards. */
  lemma {:induction false} RepeatedDecrementsNotifyOnce(s: State, productId: string, now1: int, now2: int)
    requires FindProduct(s.products, productId).Some?
    requires s.lowStockThreshold == 10
    requires UnreadCount(s.notifications, productId) == 0
    ensures var s1 := HandleUpdateQuantity(s, productId, 5, 50, now1);
      var s2 := HandleUpdateQuantity(s1, productId, 3, 5, now2);
      && |s1.notifications| == |s.notifications| + 1
      && s2.notifications == s1.notifications
      && UnreadCount(s2.notifications, productId) == 1
  {
    var s1 := HandleUpdateQuantity(s, productId, 5, 50, now1);
    var p :| FindProduct(s.products, productId) == Some(p);
    AddNotificationCount(s.notifications, productId, QuantityLowStockMessage(p.name, 5), now1, productId + "'");
    UnreadCountPositive(s.notifications, productId);
    var i :| 0 <= i < |s.products| && s.products[i].id == productId;
    assert s1.products[i].id == productId;
    assert FindProduct(s1.products, productId).Some?;
  }
}

# Estoque: a verified model of the inventory application's core

The application is a browser-based inventory manager for a small business. It keeps
products, users, categories, locations and suppliers. It writes an activity audit log and
raises low-stock notifications. It also shows a dashboard, a stock-movement report, a
paginated product list and the activity-log page.

This project models the logic behind all of that as pure functions over an immutable
`State` record (`types.dfy`):

- every handler of the application shell is one atomic transition `State -> State`;
- a handler that shows an `alert()` and returns instead yields `Outcome.Alerted`;
- the forms in front of the handlers validate their input first and forward what the
  handlers see;
- the list views are derivations from the state.

Modules follow the program's structure:

- `Inventory` (`inventory.dfy`): audit log, login/logout, product save/delete, the +/- quantity handler.
- `Notifications` (`notifications.dfy`): low-stock notifications: raise with de-duplication, mark read.
- `Catalog` (`catalog.dfy`): category, location and supplier add/rename/delete, with in-use guards and the rename cascade.
- `UserAdmin` (`users.dfy`): user administration: password change, last-admin guard, add-user validation.
- `PasswordForm` (`password_form.dfy`): the password-change dialog.
- `Settings` (`settings.dfy`): the settings forms, numeric settings, administrator-only gate.
- `ProductForm` (`product_form.dfy`): the product dialog: defaults, description precondition, submit validation.
- `ProductList` (`product_list.dfy`): search, sort, pagination and row buttons of the product list.
- `ActivityLogPage` (`activity_log_page.dfy`): newest-first log pages and the sentence per action code.
- `Dashboard` (`dashboard.dfy`): low-stock list, per-category totals, top five by stock value, bar labels.
- `Reports` (`reports.dfy`): the general report's category filter and the stock-movement reconciliation.

These modules are support:

- `Wrappers`: `Option` and `Result`.
- `Text`: ASCII lower-casing and trimming, substring search, UTF-16 code units: string length and string order.
- `Numbers`: decimal rendering, `Number(x) || 0` and `parseInt(x, 10) || 0`.
- `Lists`: `filter`, `find` and counting.
- `Sorting`: a stable sort, as `Array.prototype.sort`.
- `Paging`: `slice`, page count, page navigation.
- `Grouping`: the `reduce` into per-key totals, kept in key-insertion order.

Modelling conventions:

- Timestamps are integers (milliseconds).
- Identifiers are a prefix followed by the decimal clock reading, as `` `log-${Date.now()}` `` builds them.
- The clock reading is an explicit `now` parameter of every handler that needs one.
- Cost prices are integer cents.
- Audit values (`oldValue`/`newValue`) are `Option<LogValue>`, where a value is a number or a text.
- Report date bounds are optional integers, already resolved to the start and end of their days.
- Strings are sequences of Unicode characters. Where JavaScript counts or compares UTF-16 code units (`length`, `substring`, `<` and the default `sort`), the model does the same through each character's UTF-16 encoding, so a character outside the Basic Multilingual Plane counts as two units.

## Model

| member | source | states |
|---|---|---|
| Inventory.LogActivity | App.tsx:64-76 | with nobody signed in nothing changes; otherwise exactly one entry, attributed to the current user and carrying the given action, details and values, is put in front of the log and nothing else changes |
| Inventory.FindLogin | App.tsx:105 | finds the first user whose trimmed name matches the typed one, trimmed and ignoring case, and whose password matches exactly; no user matches when it finds none |
| Inventory.HandleLogin | App.tsx:104-121 | on a match the first matching user signs in, the error clears, and one LOGIN entry attributed to that user (not to the previous session), reading "User <name> logged in." with a clock-derived identifier and stamp, is prepended; otherwise only the error message is set and nothing is logged |
| Inventory.LoginSucceedsIffSomeUserMatches | App.tsx:104-121 | a login succeeds exactly when some stored user matches the credentials, and the signed-in user is then one that matches |
| Inventory.HandleLogout | App.tsx:123-126 | nobody is signed in afterwards and nothing but the session and the log changes; if somebody was signed in, exactly one LOGOUT entry by that user, reading "User <name> logged out.", is put in front of the old log; otherwise nothing is logged |
| Inventory.FindProduct | App.tsx:153-154 | finds a product with the identifier exactly when one exists, and the one found is the first such product, as `find` returns |
| Inventory.ReplaceById | App.tsx:178 | every product with the identifier is replaced, in place; all others are kept |
| Inventory.WithPriceHistory | App.tsx:168-171 | an edit that changes the cost price appends exactly one entry (the new price, stamped now) to the previous history; otherwise the product is stored as given |
| Inventory.SavePreservesPriceHistory | App.tsx:168-171 | on an edit the previous history is a prefix of the stored one, which grows by one entry exactly when the price changes |
| Inventory.HandleSaveProduct | App.tsx:152-186 | a new identifier puts the product in front, puts one CREATE_PRODUCT entry by the signed-in user naming it in front of the log, and never notifies; an edit replaces that product in place, logs UPDATE_PRODUCT_QUANTITY with old and new quantity before UPDATE_PRODUCT when the quantity changed, both entries being by the signed-in user and the UPDATE_PRODUCT one with the details of Inventory.UpdateDetails, and notifies only when the quantity crosses the threshold; users, tags, suppliers and settings are untouched |
| Inventory.ConfirmDeleteProduct | App.tsx:143-150 | without a pending product nothing happens; otherwise the products are the stored ones without its identifier, in their order (`filter`), and one DELETE_PRODUCT entry by the signed-in user, with the quantity held as old value, is put in front of the log |
| Inventory.DeleteKeepsOrder | App.tsx:146 | deleting by identifier distributes over concatenation, so the remaining products keep their relative order |
| Inventory.UpdateDetails | App.tsx:155-164 | the details start with the product's name and carry a parenthesised list exactly when the cost price or the location changed |
| Inventory.SetQuantity | App.tsx:192 | only the products with the identifier get the new quantity and time stamp |
| Inventory.HandleUpdateQuantity | App.tsx:188-200 | an unknown product or a negative quantity changes nothing; otherwise only that product's quantity changes, one UPDATE_PRODUCT_QUANTITY entry by the signed-in user, naming the first product with the identifier and carrying the caller's old and new quantities, is put in front of the log, and a notification is considered only when the old quantity is above the threshold and the new one is not |
| Inventory.UpdateQuantityKeepsStockNonNegative | App.tsx:190 | a store without negative quantities keeps none after any quantity update |
| Inventory.UpdateQuantityNotifiesIffFirstCrossing | App.tsx:195-197 | a quantity update adds a notification exactly when the quantity crosses the threshold and the product has no unread notification yet |
| Inventory.RepeatedDecrementsNotifyOnce | App.tsx:195-197 | with threshold 10, going 50 to 5 and then 5 to 3 raises one notification in total, leaving exactly one unread for the product |
| Notifications.AddNotification | App.tsx:78-94 | an existing unread low-stock notification for the product suppresses the new one; otherwise exactly one unread notification is prepended and the rest are unchanged |
| Notifications.AddNotificationCount | App.tsx:78-94 | after raising, the product has exactly one unread notification if it had none and keeps its count otherwise; other products' counts are unchanged |
| Notifications.UnreadCountPositive | App.tsx:80-82 | the unread count is positive exactly when an unread notification for the product exists |
| Notifications.MarkAsRead | App.tsx:96-98 | only notifications with the given identifier become read; every other one is unchanged |
| Notifications.MarkAllAsRead | App.tsx:100-102 | every notification becomes read and nothing else about it changes |
| Notifications.MarkingIsIdempotent | App.tsx:96-102 | marking one or all notifications twice is the same as marking them once |
| Notifications.MarkAllLeavesNothingUnread | App.tsx:100-102 | after marking all as read no product has an unread notification, so the next crossing notifies again |
| Notifications.MarkAsReadNeverAddsUnread | App.tsx:96-98 | marking one notification read never raises any product's unread count |
| Text.Trim | App.tsx:105 | `trim()`: a contiguous slice of the text that neither starts nor ends with whitespace, everything cut away on either side being whitespace |
| Text.StrLeIsCodeUnitOrder | App.tsx:204 | the string order used for sorting is exactly the lexicographic order of the strings' UTF-16 code units, as JavaScript compares strings |
| Catalog.SortNames | App.tsx:204 | the result is a permutation of the names, ascending by UTF-16 code units |
| Catalog.HandleAddTag | App.tsx:202-207 | a name already present up to case changes nothing; otherwise the list is the old entries plus the name, sorted, one entry by the signed-in user naming it is put in front of the log, and products are untouched (locations: App.tsx:226-231) |
| Catalog.RenameIn | App.tsx:211 | every entry equal to the old name becomes the new one; the others are kept in place |
| Catalog.CascadeRename | App.tsx:212 | every product carrying the old tag gets the new one; every other product is unchanged |
| Catalog.HandleUpdateTag | App.tsx:209-215 | a rename to the same name or to a name present up to case changes nothing; otherwise the list holds the renamed entries, sorted, and the new name whenever the old one was listed; no product keeps the old tag and the other products are untouched; users, the other list, suppliers, notifications and settings do not change; exactly one entry reading `de "<old>" para "<new>"` is put in front of the old log (locations: App.tsx:233-239) |
| Catalog.RenameMovesEveryProduct | App.tsx:209-215 | after an accepted rename, the products carrying the new name are exactly as many as carried either name before |
| Catalog.CountAfterRename | App.tsx:212 | the cascade moves every old-name product to the new name and no other product |
| Catalog.HandleDeleteTag | App.tsx:217-224 | refused exactly while some product carries exactly that tag; otherwise exactly the equal entries are removed, the rest kept in order, nothing else but the log changes, and exactly one entry naming the tag is put in front of the old log (locations: App.tsx:241-248) |
| Catalog.HandleAddSupplier | App.tsx:250-254 | exactly one supplier, the draft with a clock-derived identifier, is appended; nothing else but the log changes, and exactly one entry naming the supplier is put in front of the old log |
| Catalog.HandleUpdateSupplier | App.tsx:256-259 | every supplier with the edited identifier is replaced in place and the others are kept; there is no cascade to products and nothing else but the log changes; exactly one entry with the edited name is put in front of the old log |
| Catalog.HandleDeleteSupplier | App.tsx:261-271 | refused exactly while some product lists the supplier; an unknown identifier is a no-op; otherwise the suppliers are the order-preserving filter of those with another identifier, nothing else but the log changes, and exactly one entry with the name of the first supplier with that identifier is put in front of the old log |
| UserAdmin.HandleSavePassword | components/UserManagement.tsx:36-45 | only the password of the users with that identifier changes; when such a user exists, one UPDATE_USER_PASSWORD entry by the signed-in user naming the first of them is put in front of the log, and otherwise the log is unchanged |
| UserAdmin.PasswordChangeIsValidated | components/UserManagement.tsx:36-45 | a password let through by the dialog leaves the target user with a password of at least six UTF-16 code units, equal to the confirmation |
| UserAdmin.HandleDeleteUser | components/UserManagement.tsx:47-54 | deletion is refused before any confirmation exactly when the user is the only administrator |
| UserAdmin.ConfirmDeleteUser | components/UserManagement.tsx:56-64 | without a pending user nothing happens; otherwise the users are the stored ones without its identifier, in their order (`filter`), and one DELETE_USER entry by the signed-in user, with its name, is put in front of the log |
| UserAdmin.DeletionKeepsAnAdmin | components/UserManagement.tsx:47-63 | when identifiers are unique, a deletion that passed the guard leaves at least one administrator whenever there was one |
| UserAdmin.OtherAdmin | components/UserManagement.tsx:48 | a user the guard lets through has another administrator next to it |
| UserAdmin.ValidateNewUser | components/UserManagement.tsx:70-81 | blank fields are reported first, then a name taken ignoring case, then a password under six UTF-16 code units; the form is accepted exactly when none applies |
| UserAdmin.HandleAddUser | components/UserManagement.tsx:66-98 | any failure leaves the state as it was and reports the first failing check; success appends exactly one user with the trimmed name, the password as typed and the chosen role, and puts one ADD_USER entry by the signed-in user naming it in front of the log |
| UserAdmin.AddedUsernameIsNew | components/UserManagement.tsx:74-77 | an added user's name differs, ignoring case, from every earlier user's name |
| PasswordForm.HandleSave | components/PasswordEditModal.tsx:19-31 | the password is forwarded exactly when it is at least six UTF-16 code units long and equals its confirmation; a short password is reported as too short, and a long enough one that differs as a mismatch |
| PasswordForm.LengthCountsCodeUnits | components/PasswordEditModal.tsx:21 | three characters outside the Basic Multilingual Plane, such as three emoji, make a password long enough to be accepted |
| PasswordForm.LengthErrorFirst | components/PasswordEditModal.tsx:21-28 | a password that is both too short and mismatched is reported as too short |
| Settings.AddTagClick | components/Settings.tsx:73-78 | a blank entry is ignored; an entry present up to case after trimming changes nothing; otherwise the trimmed entry itself is added to the list (locations: components/Settings.tsx:97-102) |
| Settings.AddedNameIsPresent | App.tsx:202-207 | after the add handler the name is present up to case, whether it was added or was already there |
| Settings.AddTagClickIdempotent | components/Settings.tsx:73-78 | adding the same text twice changes nothing the second time, not even the log |
| Settings.SaveEditTag | components/Settings.tsx:90-95 | nothing is forwarded unless an entry with a non-empty name is being edited and the new value is not blank; an accepted rename puts the trimmed value in place of the old name in the list and on every product that carried it, leaves the other products alone and no product with the old tag (locations: components/Settings.tsx:114-119) |
| Settings.PaddedSameNameIsNoOp | components/Settings.tsx:90-95 | renaming an entry to itself surrounded by spaces changes nothing |
| Settings.AddSupplierClick | components/Settings.tsx:121-126 | a blank name is ignored; otherwise exactly one supplier is appended, with the name as typed (not trimmed) |
| Settings.AddSupplierKeepsNamesNonBlank | components/Settings.tsx:121-126 | suppliers added through the form keep every supplier name non-blank |
| Settings.SaveEditSupplier | components/Settings.tsx:138-143 | the edited supplier is forwarded whenever one is being edited, without any check on its fields: it replaces the suppliers with its identifier, the others are unchanged, and the update is logged |
| Numbers.ParseIntOrZero | components/Settings.tsx:280 | text whose first non-space character is neither a sign nor a digit reads as 0; a leading minus never gives a positive value, and anything else never a negative one (same for components/Settings.tsx:294) |
| Numbers.ParseIntOfIntToString | components/Settings.tsx:280 | a decimal integer reads back as itself, whatever non-digit text follows it |
| Settings.ChangeLowStockThreshold | components/Settings.tsx:280 | only the low-stock threshold changes, to what `parseInt(text, 10)` reads, or 0 when it reads nothing (Numbers.ParseIntOrZero) |
| Settings.ChangeDefaultReorderQuantity | components/Settings.tsx:294 | only the default reorder quantity changes, to what `parseInt(text, 10)` reads, or 0 when it reads nothing (Numbers.ParseIntOrZero) |
| Settings.NumericFieldsRoundTrip | components/Settings.tsx:280 | re-entering the shown value of either numeric setting, even followed by non-digits, keeps it; text without leading digits gives 0 (same for components/Settings.tsx:294) |
| Settings.AdminGateFollowsSession | components/Settings.tsx:150-157 | after a logout nobody passes the administrator gate of the settings page and the activity log (ActivityLogPage.tsx:52-59); after a login it is open exactly when the first stored account the credentials match is an administrator; a failed login leaves it as it was |
| ProductForm.FirstOr | ProductModal.tsx:47 | the first entry when it is non-empty, else the fallback, as JavaScript's logical or picks it |
| ProductForm.NewDraft | ProductModal.tsx:45-55 | a new product starts with no name, quantity 0, price 0, no suppliers, empty history, the default reorder quantity, the first category (empty when there is none) and the first location (the default location when there is none or it is empty) |
| ProductForm.HandleGenerateDescription | ProductModal.tsx:71-86 | without a name or category only the error is shown; otherwise the generated text, when there is one, replaces the description and nothing else |
| ProductForm.SubmittedId | ProductModal.tsx:101 | an edit keeps the edited product's non-empty identifier; any other submission gets a non-empty clock-derived one |
| ProductForm.HandleSubmit | ProductModal.tsx:88-106 | blank name or category is rejected first, then any negative quantity, price or reorder quantity; an accepted draft becomes a product with exactly the draft's fields, stamped now, with the chosen identifier |
| ProductForm.UnchangedEditRoundTrip | ProductModal.tsx:41-43 | opening a valid product and submitting unchanged gives the same product back, with only its time stamp moved |
| ProductForm.SubmitCheckIsStricter | ProductModal.tsx:72-75 | whatever submit accepts, the description button accepts, but a whitespace-only name passes only the button (compare ProductModal.tsx:90-93) |
| ProductForm.SubmittedEditUpdatesInPlace | App.tsx:177-179 | an accepted edit of a stored product updates it in place with the submitted fields |
| ProductForm.SubmittedCreationNeverNotifies | App.tsx:173-182 | a product created through the dialog is put in front and raises no notification |
| ProductList.EmptySearchKeepsAll | components/ProductList.tsx:31-37 | an empty search term keeps every product, in order |
| ProductList.SearchIgnoresTermCase | components/ProductList.tsx:31-37 | a search term and its lower-cased form select the same products |
| ProductList.SearchIsExact | components/ProductList.tsx:31-37 | a product is kept exactly when its name, category or location contains the term, ignoring case |
| ProductList.SortProducts | components/ProductList.tsx:39-48 | a permutation of the products ordered by the chosen field, ascending or descending, text fields by UTF-16 code units |
| ProductList.HandleSort | components/ProductList.tsx:57-64 | the current field flips the order; a new field is selected ascending; nothing else changes |
| ProductList.HandleSortTwice | components/ProductList.tsx:57-64 | clicking the current field twice restores the view; clicking a new field twice sorts it descending |
| ProductList.Visible | components/ProductList.tsx:50-53 | at most ten products, each a stored product matching the search |
| ProductList.SearchChange | components/ProductList.tsx:90 | a new search term resets the page to 1 and keeps the sort |
| ProductList.PrevClick | components/ProductList.tsx:147 | "previous" goes one page back but never below page 1, and changes nothing else in the view |
| ProductList.NextClick | components/ProductList.tsx:151 | "next" goes one page on but never past the last page of the matching products, and changes nothing else in the view |
| ProductList.NextThenPrevReturns | components/ProductList.tsx:147-151 | within the pages, "next" then "previous" returns to the same view |
| ProductList.NextWithoutResultsReachesPageZero | components/ProductList.tsx:147-151 | with no match there are no pages, yet "next" from page 1 moves to page 0, which shows nothing |
| ProductList.MinusClick | components/ProductList.tsx:119 | the minus button proposes a request exactly when the quantity is positive, for one unit less, passing the current quantity as old |
| ProductList.PlusClick | components/ProductList.tsx:123 | the plus button proposes one unit more, passing the current quantity as old |
| ProductList.ButtonsAreApplied | components/ProductList.tsx:119-123 | a row's "+" adds one unit and an enabled "-" removes one |
| ProductList.MinusNotifiesOnCrossingOnly | components/ProductList.tsx:119-121 | with threshold 10, "-" at ten units raises nothing, while "-" at eleven raises a notification when none is unread |
| Paging.JsSlice | components/ProductList.tsx:52 | a slice with in-range bounds is the subsequence; an end of 0 gives nothing; the result only holds elements of the list |
| Paging.Paginate | components/ProductList.tsx:50-53 | a page holds at most the page size, all taken from the list |
| Paging.TotalPages | components/ProductList.tsx:55 | the ceiling of the count over the page size: zero only for no items, enough pages for all items, and no empty last page |
| Paging.PagesCoverTheList | components/ProductList.tsx:50-55 | the pages 1..total, concatenated, are the list, and each is non-empty |
| Paging.PagesPrefix | components/ProductList.tsx:50-55 | the first k pages concatenated are the list's first k·size elements |
| Paging.PageContents | components/ProductList.tsx:50-53 | page p is the slice from (p−1)·size up to p·size or the end |
| Paging.EntryOfPage | components/ProductList.tsx:50-53 | the element at q·size+m is the m-th entry of page q+1 |
| Paging.IndexPageInRange | components/ProductList.tsx:55 | every index of the list falls on an existing page |
| Paging.PrevPage | components/ProductList.tsx:147 | "previous" never goes below page 1 |
| Paging.NextPage | components/ProductList.tsx:151 | "next" never goes past the last page |
| Paging.NavigationStaysInRange | components/ProductList.tsx:147-151 | from a valid page both buttons stay on valid pages, and "previous" undoes "next" |
| ActivityLogPage.ParseAction | types.ts:27-45 | a recognised code is the code of the action it is read as |
| ActivityLogPage.ActionCodesRoundTrip | types.ts:27-45 | every action is read back from its own code, so no two actions share a code |
| ActivityLogPage.ActionText | ActivityLogPage.tsx:28-50 | every sentence ends with a full stop |
| ActivityLogPage.PlainSentencesNameTheirAction | ActivityLogPage.tsx:32-47 | for the same details, two actions whose sentence is an opening plus the details have the same sentence only if they are the same action |
| ActivityLogPage.RawActionText | ActivityLogPage.tsx:28-50 | an unknown code gets the generic sentence and a known code gets its action's sentence |
| ActivityLogPage.UnknownCodeIsNoSentence | ActivityLogPage.tsx:30-48 | no known action's sentence equals the generic one |
| ActivityLogPage.SentenceNamesItsSubject | ActivityLogPage.tsx:32-47 | every sentence except login and logout contains the entry's details |
| ActivityLogPage.QuantitySentenceShowsBoth | ActivityLogPage.tsx:35 | a quantity change's sentence shows the product and the quantities before and after |
| ActivityLogPage.SortedLogs | ActivityLogPage.tsx:17-19 | a permutation of the log with non-increasing timestamps |
| ActivityLogPage.StoredOrderIsShown | ActivityLogPage.tsx:17-19 | a log already newest first is shown in stored order, since the sort is stable |
| ActivityLogPage.LoggingKeepsNewestFirst | App.tsx:64-76 | recording keeps the log newest first as long as the clock does not go back |
| ActivityLogPage.ShownLogs | ActivityLogPage.tsx:52-59 | only a signed-in administrator sees entries, at most fifteen, each from the log |
| ActivityLogPage.FirstPageIsLatest | ActivityLogPage.tsx:21-26 | page 1 of a newest-first log is its first fifteen entries |
| Dashboard.LowStockProducts | Dashboard.tsx:187 | exactly the products at or below the threshold |
| Dashboard.LowStockKeepsOrder | Dashboard.tsx:187 | the list keeps the stored order, and is empty when no product is low |
| Dashboard.NotifiedProductIsListed | App.tsx:195-197 | a product for which the quantity buttons raise a notification is on the low-stock list afterwards |
| Dashboard.ValueByCategory | Dashboard.tsx:58-63 | one entry per category present, distinct, and the totals add up to the whole stock value |
| Dashboard.CategoryValueIsItsProducts | Dashboard.tsx:58-63 | each category's value is the stock value of exactly its products |
| Dashboard.CountByCategory | Dashboard.tsx:152-155 | one entry per category present, and the counts add up to the number of products |
| Dashboard.CategoryCountIsItsProducts | Dashboard.tsx:152-155 | each category's count is the number of products in it |
| Dashboard.TopProducts | Dashboard.tsx:100-103 | min(n, 5) products taken from the list, by stock value descending, each worth at least every product left out |
| Text.UnitPrefix | Dashboard.tsx:113 | the longest run of whole leading characters within the given number of UTF-16 code units |
| Dashboard.BarLabel | Dashboard.tsx:113 | the name itself when it is at most twenty UTF-16 code units long; otherwise a prefix of the name whose code units begin the name's, twenty of them unless the twentieth would split a surrogate pair, followed by "..." |
| Dashboard.LabelsDistinguishShortNames | Dashboard.tsx:113 | equal labels mean equal short names, or long names agreeing on their first nineteen code units; a short and a long name never share a label |
| Dashboard.LongLabel | Dashboard.tsx:113 | a long name's label is over twenty-one code units and begins with the name's first nineteen code units |
| Grouping.GroupTotals | Dashboard.tsx:152-155 | the reduce gives distinct keys, exactly the keys that occur, and totals adding up to the sum of all weights |
| Grouping.GroupTotalIsSum | Dashboard.tsx:152-155 | each key's total is the sum of the weights of exactly the elements with that key |
| Grouping.AddTo | Dashboard.tsx:153 | the entry for the key grows by the weight, created at the end when absent, and the other entries stay where they are |
| Reports.FilterByCategory | components/Reports.tsx:25-27 | "all" keeps every product; otherwise exactly the products of the selected category |
| Reports.FilterByCategoryKeepsOrder | components/Reports.tsx:25-27 | the filter keeps the stored order |
| Reports.CategoryCount | components/Reports.tsx:29-32 | distinct categories whose counts add up to the number of filtered products; with one category selected, at most that one entry |
| Reports.Coerce | components/Reports.tsx:91-95 | an absent value reads as 0, a number as itself and blank text as 0 |
| Reports.CoerceReadsNumbersBack | components/Reports.tsx:90-97 | a number, or its decimal text, reads back as itself; an absent value reads as 0 |
| Reports.Relevant | components/Reports.tsx:69-77 | exactly the quantity-change and deletion entries whose time is within the inclusive, optional bounds |
| Reports.ResolveCategory | components/Reports.tsx:83-84 | the category of the first product with exactly that name, or "N/A" when none exists or its category is empty |
| Reports.LoggedChangesReadBack | components/Reports.tsx:90-97 | the entry a quantity update writes reads back as new minus old, and the one a deletion writes as minus the quantity held |
| Reports.Retained | components/Reports.tsx:99-104 | every listed movement is non-zero, comes from a relevant entry, and belongs to the selected category |
| Reports.FoldStep | components/Reports.tsx:79-105 | one more entry adds its inflow, its outflow and possibly its movement to the running results |
| Reports.RetainedSumsToBalance | components/Reports.tsx:99-104 | the listed movements add up to the entries minus the exits |
| Reports.RetainedSplitsIntoFlows | components/Reports.tsx:99-104 | the entries equal the sum of the positive listed movements and the exits the sum of the negative ones, made positive |
| Reports.Totals | components/Reports.tsx:99-108 | entries and exits are non-negative, any rearrangement of the list adds up to their difference, and its positive and negative parts add up to the entries and the exits |
| Reports.MovementsFromWindow | components/Reports.tsx:69-104 | every movement of a rearranged list is the non-zero movement of a relevant entry of the selected category |
| Reports.NewestFirst | components/Reports.tsx:108 | a list sorted by descending timestamp key has non-increasing timestamps |
| Reports.Reconcile | components/Reports.tsx:59-109 | entries are the sum of the positive listed movements and exits the sum of the negative ones, made positive, so both are non-negative; the balance is their difference and also the sum of the listed movements; each listed movement comes from a relevant entry of the selected category; the list is newest first and a permutation of the retained movements |
| Reports.ReconcileByLoop | components/Reports.tsx:59-109 | the loop, with `continue` for other categories and running sums, computes exactly the report above |
| Reports.Accumulate | components/Reports.tsx:79-105 | the loop's running entries, exits and collected movements are the fold's |
| Reports.WindowExcludingAllIsEmpty | components/Reports.tsx:69-77 | a window containing no entry gives zero entries, exits and balance and an empty list |
| Reports.ReversedWindowIsEmpty | components/Reports.tsx:69-77 | a start after the end gives an empty report |
| Reports.OnlyRelevantEntriesCount | components/Reports.tsx:69-77 | adding an entry outside the window or of another action leaves the report unchanged |
| Reports.AllCategoriesIgnoresProducts | components/Reports.tsx:86 | with "all" selected the totals do not depend on the products |
| Reports.NewEntryMovesBalance | components/Reports.tsx:79-105 | with "all" selected, a relevant new entry moves the balance by exactly its movement |
| Reports.QuantityChangeMovesBalance | App.tsx:188-200 | a quantity change made in the window moves the all-categories balance by exactly new minus old |
| Reports.CaixaScenario | components/Reports.tsx:59-109 | a worked case: +10, −5 and a deletion of another category's product give entries 10, exits 5, balance 5 and two movements |

## Left out

- Persistence in `localStorage` (load with defaults, save on change) is browser storage, not logic. The model starts from a given `State`.
- Description generation and the inventory analysis call a remote generative-text service. The description handler takes the service's answer (or its failure) as a parameter. The analysis, including its empty-list short-circuit, is not modelled.
- PDF and spreadsheet export are library plumbing.
- The seed data in `constants.ts` is random sample data that defines no behaviour.
- Rendering is presentation only: the charts, header, sidebar, notification panel (its relative-time text reads the wall clock), login page, confirmation dialog and icons. The charts' early return for an empty product list is also not modelled; with no products the derived data is empty anyway.
- Clock readings are parameters. The model does not show identifier collisions between two actions in the same millisecond; it states which identifier each action uses.
- ISO timestamp strings are modelled as integer milliseconds. The report's `setHours` day bounds (time zone included) are taken as already-resolved integers.
- Currency and locale formatting, and the `toFixed(2)` prices in update details, use integer cents rather than binary floating point.
- `parseFloat` in the product form is not modelled: the draft holds numbers already parsed.
- `Number(x)` in the report is modelled for optionally signed decimal integers with surrounding whitespace. Fractions, exponents, hexadecimal and `Infinity` forms are not modelled.
- Lower-casing and trimming are ASCII only, with no Unicode case folding or Unicode whitespace.
- Dashboard.BarLabel: when the twentieth code unit of a long name is the first half of a surrogate pair, `substring(0, 20)` keeps that lone half. A Dafny string cannot hold a lone surrogate, so the label keeps the nineteen units before it.
- Grouping.AddTo: the per-category `reduce` (components/Reports.tsx:30, Dashboard.tsx:61 and Dashboard.tsx:153) keeps keys in insertion order and starts every key from 0. A JavaScript object lists integer-like keys first. A category named like an inherited `Object.prototype` property (`constructor`, `toString`, `valueOf`, `hasOwnProperty`, `__proto__` and the rest) starts from that property instead of 0, so `(acc[k] || 0) + 1` yields a string or misbehaves. Neither is modelled.
- React's asynchronous state updates and stale closures are not modelled: each handler is one atomic transition.
- `alert()` is modelled as an `Alerted` outcome carrying the message.
- Reports.ReconcileByLoop: the movement of an entry is computed by one helper (`MovementOf`) rather than written inline. The branches are the same.
- Catalog.HandleUpdateSupplier: renaming a supplier is not cascaded to products, unlike a category rename. Products refer to suppliers by identifier (App.tsx:256-259), so nothing needs to follow a rename.
- Inventory.SavePreservesPriceHistory: the save handler appends to the stored history only when the price changes; otherwise it keeps whatever history the submitted product carries (App.tsx:168-171). The lemma therefore assumes the edit carried the stored history forward, as the dialog does; a caller that submits another history replaces it.
- Inventory.HandleSaveProduct: non-negative quantities and prices are enforced only by the product dialog (ProductForm.HandleSubmit) and the quantity handler; the save handler itself accepts any product, and so does the model.

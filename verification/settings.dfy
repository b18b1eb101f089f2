/** The settings page: the forms in front of the shell's catalog handlers, the two numeric
    settings, and the administrator-only gate. The forms decide what reaches a handler
    (trimmed or not, or nothing at all); the handlers decide the rest. */
module Settings {
  import opened Wrappers
  import opened Types
  import opened Text
  import opened Numbers
  import opened Inventory
  import opened Catalog

  /** The administrator gate of the settings page and the activity log follows the
      session: a logout closes it; a login opens it exactly when the first stored account
      the credentials match is an administrator, whatever later matching accounts are; a
      failed login leaves it as it was. */
  lemma AdminGateFollowsSession(s: State, username: string, password: string, now: int)
    ensures !IsAdminSession(HandleLogout(s, now).currentUser)
    ensures var r := HandleLogin(s, username, password, now);
      IsAdminSession(r.currentUser) <==>
        match FindLogin(s.users, username, password)
        case Some(k) => s.users[k].role == Admin
        case None => IsAdminSession(s.currentUser)
  {
  }

  /** The "add" button of the category (or location) form: a blank entry is ignored,
      anything else reaches the handler trimmed. */
  function AddTagClick(s: State, kind: TagKind, typed: string, now: int): (r: State)
    ensures IsBlank(typed) ==> r == s
    ensures r.products == s.products
    ensures !IsBlank(typed) ==> HasIgnoringCase(TagsOf(r, kind), Trim(typed))
    ensures !IsBlank(typed) && HasIgnoringCase(TagsOf(s, kind), Trim(typed)) ==> r == s
    ensures !IsBlank(typed) && !HasIgnoringCase(TagsOf(s, kind), Trim(typed)) ==>
      && Trim(typed) in TagsOf(r, kind)
      && multiset(TagsOf(r, kind)) == multiset(TagsOf(s, kind)) + multiset{Trim(typed)}
  {
    if IsBlank(typed) then s
    else
      var name := Trim(typed);
      var r := HandleAddTag(s, kind, name, now);
      AddedNameIsPresent(s, kind, name, now);
      assert !HasIgnoringCase(TagsOf(s, kind), name) ==> name in multiset(TagsOf(r, kind));
      r
  }

  /** After the add handler the name is present up to case, whether it was added or was
      already there. */
  lemma AddedNameIsPresent(s: State, kind: TagKind, name: string, now: int)
    ensures HasIgnoringCase(TagsOf(HandleAddTag(s, kind, name, now), kind), name)
  {
    var r := HandleAddTag(s, kind, name, now);
    if !HasIgnoringCase(TagsOf(s, kind), name) {
      assert name in multiset(TagsOf(r, kind));
      var i :| 0 <= i < |TagsOf(r, kind)| && TagsOf(r, kind)[i] == name;
      assert SameIgnoringCase(TagsOf(r, kind)[i], name);
    }
  }

  /** Adding the same text twice is adding it once: the second click finds the name
      already present and changes nothing, not even the log. */
  lemma AddTagClickIdempotent(s: State, kind: TagKind, typed: string, now1: int, now2: int)
    ensures var once := AddTagClick(s, kind, typed, now1);
      AddTagClick(once, kind, typed, now2) == once
  {
  }

  /** The "save" button of an inline category (or location) edit. Nothing is forwarded
      unless an entry is being edited, its name is non-empty, and the new value is not
      blank; the new value is forwarded trimmed. */
  function SaveEditTag(s: State, kind: TagKind, editing: Option<string>, value: string, now: int): (r: State)
    ensures editing.None? || editing.value == "" || IsBlank(value) ==> r == s
    ensures editing.Some? && editing.value != "" && !IsBlank(value)
            && RenameAccepted(TagsOf(s, kind), editing.value, Trim(value)) ==>
      forall i :: 0 <= i < |r.products| ==> TagOf(r.products[i], kind) != editing.value
    ensures editing.Some? && editing.value != "" && !IsBlank(value)
            && RenameAccepted(TagsOf(s, kind), editing.value, Trim(value)) ==>
      && multiset(TagsOf(r, kind)) == multiset(RenameIn(TagsOf(s, kind), editing.value, Trim(value)))
      && (editing.value in TagsOf(s, kind) ==> Trim(value) in TagsOf(r, kind))
      && |r.products| == |s.products|
      && (forall i :: 0 <= i < |s.products| && TagOf(s.products[i], kind) == editing.value ==>
            TagOf(r.products[i], kind) == Trim(value))
      && (forall i :: 0 <= i < |s.products| && TagOf(s.products[i], kind) != editing.value ==>
            r.products[i] == s.products[i])
    ensures editing.Some? && !RenameAccepted(TagsOf(s, kind), editing.value, Trim(value)) ==> r == s
  {
    if editing.Some? && editing.value != "" && !IsBlank(value) then
      HandleUpdateTag(s, kind, editing.value, Trim(value), now)
    else s
  }

  /** Editing a name into itself surrounded by spaces changes nothing: the form trims the
      padding away and the handler then sees no change. */
  lemma PaddedSameNameIsNoOp(s: State, kind: TagKind, name: string, now: int)
    requires |name| > 0 && !IsSpace(name[0]) && !IsSpace(name[|name| - 1])
    ensures SaveEditTag(s, kind, Some(name), " " + name + " ", now) == s
  {
    TrimPadded(name);
  }

  /** The "add" button of the supplier form: it requires a non-blank name but forwards
      the draft as typed, so the stored name keeps its surrounding whitespace. */
  function AddSupplierClick(s: State, draft: SupplierDraft, now: int): (r: State)
    ensures IsBlank(draft.name) ==> r == s
    ensures !IsBlank(draft.name) ==>
      && |r.suppliers| == |s.suppliers| + 1 && r.suppliers[..|s.suppliers|] == s.suppliers
      && r.suppliers[|s.suppliers|].name == draft.name
      && !IsBlank(r.suppliers[|s.suppliers|].name)
  {
    if IsBlank(draft.name) then s else HandleAddSupplier(s, draft, now)
  }

  /** Every supplier added through the form has a non-blank name, provided every earlier
      one had. */
  lemma AddSupplierKeepsNamesNonBlank(s: State, draft: SupplierDraft, now: int)
    requires forall i :: 0 <= i < |s.suppliers| ==> !IsBlank(s.suppliers[i].name)
    ensures var r := AddSupplierClick(s, draft, now);
      forall i :: 0 <= i < |r.suppliers| ==> !IsBlank(r.suppliers[i].name)
  {
    var r := AddSupplierClick(s, draft, now);
    if !IsBlank(draft.name) {
      forall i | 0 <= i < |r.suppliers|
        ensures !IsBlank(r.suppliers[i].name)
      {
        if i < |s.suppliers| {
          assert r.suppliers[i] == r.suppliers[..|s.suppliers|][i];
        }
      }
    }
  }

  /** The "save" button of an inline supplier edit forwards the edited supplier whenever
      one is being edited, with no check on its fields. */
  function SaveEditSupplier(s: State, editing: Option<Supplier>, now: int): (r: State)
    ensures editing.None? ==> r == s
    ensures editing.Some? ==>
      && |r.suppliers| == |s.suppliers|
      && (forall i :: 0 <= i < |s.suppliers| && s.suppliers[i].id == editing.value.id ==> r.suppliers[i] == editing.value)
      && (forall i :: 0 <= i < |s.suppliers| && s.suppliers[i].id != editing.value.id ==> r.suppliers[i] == s.suppliers[i])
      && r == s.(suppliers := r.suppliers, logs := r.logs)
      && RecordsOne(s, r, UpdateSupplier, editing.value.name)
  {
    match editing
    case None => s
    case Some(e) => HandleUpdateSupplier(s, e, now)
  }

  /** The low-stock threshold field: `parseInt(text, 10) || 0`. */
  function ChangeLowStockThreshold(s: State, text: string): (r: State)
    ensures r == s.(lowStockThreshold := r.lowStockThreshold)
    ensures r.lowStockThreshold == ParseIntOrZero(text)
  {
    s.(lowStockThreshold := ParseIntOrZero(text))
  }

  /** The default reorder quantity field: `parseInt(text, 10) || 0`. */
  function ChangeDefaultReorderQuantity(s: State, text: string): (r: State)
    ensures r == s.(defaultReorderQuantity := r.defaultReorderQuantity)
    ensures r.defaultReorderQuantity == ParseIntOrZero(text)
  {
    s.(defaultReorderQuantity := ParseIntOrZero(text))
  }

  /** Re-entering the value a numeric field displays keeps the setting, and so does
      leaving a trailing non-digit after it; text with no leading digits resets it to 0. */
  lemma NumericFieldsRoundTrip(s: State, rest: string)
    requires |rest| > 0 ==> !IsDigit(rest[0])
    ensures ChangeLowStockThreshold(s, IntToString(s.lowStockThreshold) + rest) == s
    ensures ChangeDefaultReorderQuantity(s, IntToString(s.defaultReorderQuantity) + rest) == s
    ensures ChangeLowStockThreshold(s, "abc").lowStockThreshold == 0
  {
    ParseIntOfIntToString(s.lowStockThreshold, rest);
    ParseIntOfIntToString(s.defaultReorderQuantity, rest);
    ParseIntOfNonNumeric("abc");
  }
}

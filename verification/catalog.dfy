/** The shell's handlers for the two tag lists products refer to by name (categories and
    locations, which behave identically) and for suppliers, which products refer to by
    identifier. */
module Catalog {
  import opened Wrappers
  import opened Types
  import opened Text
  import opened Lists
  import opened Sorting
  import opened Inventory

  /** Which of the two name lists a handler works on. */
  datatype TagKind = CategoryTag | LocationTag

  function TagsOf(s: State, kind: TagKind): seq<string> {
    match kind
    case CategoryTag => s.categories
    case LocationTag => s.locations
  }

  function WithTags(s: State, kind: TagKind, tags: seq<string>): (r: State)
    ensures TagsOf(r, kind) == tags
  {
    match kind
    case CategoryTag => s.(categories := tags)
    case LocationTag => s.(locations := tags)
  }

  /** The tag a product carries for the given list. */
  function TagOf(p: Product, kind: TagKind): string {
    match kind
    case CategoryTag => p.category
    case LocationTag => p.location
  }

  function Retag(p: Product, kind: TagKind, tag: string): (r: Product)
    ensures TagOf(r, kind) == tag
  {
    match kind
    case CategoryTag => p.(category := tag)
    case LocationTag => p.(location := tag)
  }

  function AddAction(kind: TagKind): Action {
    match kind
    case CategoryTag => AddCategory
    case LocationTag => AddLocation
  }

  function UpdateAction(kind: TagKind): Action {
    match kind
    case CategoryTag => UpdateCategory
    case LocationTag => UpdateLocation
  }

  function DeleteAction(kind: TagKind): Action {
    match kind
    case CategoryTag => DeleteCategory
    case LocationTag => DeleteLocation
  }

  /** Some entry of `tags` equals `name` ignoring case. */
  predicate HasIgnoringCase(tags: seq<string>, name: string) {
    exists i :: 0 <= i < |tags| && SameIgnoringCase(tags[i], name)
  }

  /** `Array.prototype.sort()` on strings: ascending by UTF-16 code units. */
  function SortNames(names: seq<string>): (r: seq<string>)
    ensures multiset(r) == multiset(names)
    ensures forall i, j :: 0 <= i < j < |r| ==> StrLe(r[i], r[j])
  {
    var r := SortBy(names, (x: string) => Str(x), false);
    assert forall i, j :: 0 <= i < j < |r| ==> Before(Str(r[i]), Str(r[j]), false);
    r
  }

  /** Adds a category (or location). A name already present up to case is ignored;
      otherwise the list becomes the old entries plus the new name, in sorted order, and the
      addition is logged. Products are not touched. */
  function HandleAddTag(s: State, kind: TagKind, name: string, now: int): (r: State)
    ensures HasIgnoringCase(TagsOf(s, kind), name) ==> r == s
    ensures !HasIgnoringCase(TagsOf(s, kind), name) ==>
      && multiset(TagsOf(r, kind)) == multiset(TagsOf(s, kind)) + multiset{name}
      && (forall i, j :: 0 <= i < j < |TagsOf(r, kind)| ==> StrLe(TagsOf(r, kind)[i], TagsOf(r, kind)[j]))
      && r.products == s.products
      && r == WithTags(s, kind, TagsOf(r, kind)).(logs := r.logs)
      && RecordsOne(s, r, AddAction(kind), name)
  {
    var tags := TagsOf(s, kind);
    if HasIgnoringCase(tags, name) then s
    else LogActivity(WithTags(s, kind, SortNames(tags + [name])), AddAction(kind), name, None, None, now)
  }

  /** The tag list with every `from` entry replaced by `to`. */
  function RenameIn(tags: seq<string>, from: string, to: string): (r: seq<string>)
    ensures |r| == |tags|
    ensures forall i :: 0 <= i < |tags| ==> r[i] == if tags[i] == from then to else tags[i]
  {
    seq(|tags|, i requires 0 <= i < |tags| => if tags[i] == from then to else tags[i])
  }

  /** Moves every product tagged `from` over to `to`; other products are untouched. */
  function CascadeRename(products: seq<Product>, kind: TagKind, from: string, to: string): (r: seq<Product>)
    ensures |r| == |products|
    ensures forall i :: 0 <= i < |products| ==>
      r[i] == if TagOf(products[i], kind) == from then Retag(products[i], kind, to) else products[i]
  {
    seq(|products|, i requires 0 <= i < |products| =>
      if TagOf(products[i], kind) == from then Retag(products[i], kind, to) else products[i])
  }

  /** A rename is accepted when the name actually changes and the new name is not present
      in the list up to case, which also rules out a rename that only changes case. */
  predicate RenameAccepted(tags: seq<string>, from: string, to: string) {
    from != to && !HasIgnoringCase(tags, to)
  }

  /** Renames a category (or location) and cascades the rename to the products. */
  function HandleUpdateTag(s: State, kind: TagKind, from: string, to: string, now: int): (r: State)
    ensures !RenameAccepted(TagsOf(s, kind), from, to) ==> r == s
    ensures RenameAccepted(TagsOf(s, kind), from, to) ==>
      && multiset(TagsOf(r, kind)) == multiset(RenameIn(TagsOf(s, kind), from, to))
      && (forall i, j :: 0 <= i < j < |TagsOf(r, kind)| ==> StrLe(TagsOf(r, kind)[i], TagsOf(r, kind)[j]))
      && |r.products| == |s.products|
      && (forall i :: 0 <= i < |r.products| ==> TagOf(r.products[i], kind) != from)
      && (forall i :: 0 <= i < |s.products| && TagOf(s.products[i], kind) != from ==> r.products[i] == s.products[i])
      && (forall i :: 0 <= i < |s.products| && TagOf(s.products[i], kind) == from ==>
            r.products[i] == Retag(s.products[i], kind, to))
      && (s.currentUser.Some? ==> |r.logs| == |s.logs| + 1 && r.logs[0].action == UpdateAction(kind))
      && (from in TagsOf(s, kind) ==> to in TagsOf(r, kind))
      && r == WithTags(s, kind, TagsOf(r, kind)).(products := r.products, logs := r.logs)
      && RecordsOne(s, r, UpdateAction(kind), "de \"" + from + "\" para \"" + to + "\"")
  {
    var tags := TagsOf(s, kind);
    if RenameAccepted(tags, from, to) then
      var renamed := SortNames(RenameIn(tags, from, to));
      var s1 := WithTags(s, kind, renamed);
      var s2 := s1.(products := CascadeRename(s.products, kind, from, to));
      var r := LogActivity(s2, UpdateAction(kind), "de \"" + from + "\" para \"" + to + "\"", None, None, now);
      RenamedNameListed(tags, from, to, renamed);
      assert TagsOf(r, kind) == renamed;
      assert r == s1.(products := r.products, logs := r.logs);
      r
    else s
  }

  lemma RenamedNameListed(tags: seq<string>, from: string, to: string, renamed: seq<string>)
    requires multiset(renamed) == multiset(RenameIn(tags, from, to))
    ensures from in tags ==> to in renamed
  {
    if from in tags {
      var i :| 0 <= i < |tags| && tags[i] == from;
      assert RenameIn(tags, from, to)[i] == to;
      assert to in multiset(RenameIn(tags, from, to));
    }
  }

  /** After an accepted rename the products carrying the new name are exactly as many as
      carried either name before: the cascade moves every old-name product over. */
  lemma RenameMovesEveryProduct(s: State, kind: TagKind, from: string, to: string, now: int)
    requires RenameAccepted(TagsOf(s, kind), from, to)
    ensures var r := HandleUpdateTag(s, kind, from, to, now);
      Count(r.products, (p: Product) => TagOf(p, kind) == to)
      == Count(s.products, (p: Product) => TagOf(p, kind) == to || TagOf(p, kind) == from)
  {
    var r := HandleUpdateTag(s, kind, from, to, now);
    CountAfterRename(s.products, r.products, kind, from, to);
  }

  lemma CountAfterRename(ps: seq<Product>, qs: seq<Product>, kind: TagKind, from: string, to: string)
    requires from != to
    requires qs == CascadeRename(ps, kind, from, to)
    ensures Count(qs, (p: Product) => TagOf(p, kind) == to)
         == Count(ps, (p: Product) => TagOf(p, kind) == to || TagOf(p, kind) == from)
  {
    CountSame(ps, qs, (p: Product) => TagOf(p, kind) == to || TagOf(p, kind) == from, (p: Product) => TagOf(p, kind) == to);
  }

  function TagInUseMessage(kind: TagKind): string {
    match kind
    case CategoryTag => "Não é possível deletar uma categoria que está em uso por produtos."
    case LocationTag => "Não é possível deletar uma localização que está em uso por produtos."
  }

  /** Some product carries exactly this tag. */
  predicate TagInUse(products: seq<Product>, kind: TagKind, name: string) {
    exists i :: 0 <= i < |products| && TagOf(products[i], kind) == name
  }

  /** Deletes a category (or location). While any product carries exactly that name the
      deletion is refused; otherwise every entry equal to it is removed, the others stay in
      order, and the deletion is logged. */
  function HandleDeleteTag(s: State, kind: TagKind, name: string, now: int): (r: Outcome)
    ensures r.Alerted? <==> TagInUse(s.products, kind, name)
    ensures r.Applied? ==>
      && TagsOf(r.state, kind) == Filter(TagsOf(s, kind), (t: string) => t != name)
      && (forall i :: 0 <= i < |TagsOf(r.state, kind)| ==> TagsOf(r.state, kind)[i] != name)
      && (forall i :: 0 <= i < |TagsOf(s, kind)| && TagsOf(s, kind)[i] != name ==> TagsOf(s, kind)[i] in TagsOf(r.state, kind))
      && r.state.products == s.products
      && (s.currentUser.Some? ==> |r.state.logs| == |s.logs| + 1 && r.state.logs[0].action == DeleteAction(kind))
      && r.state == WithTags(s, kind, TagsOf(r.state, kind)).(logs := r.state.logs)
      && RecordsOne(s, r.state, DeleteAction(kind), name)
  {
    if TagInUse(s.products, kind, name) then Alerted(TagInUseMessage(kind))
    else
      var tags := Filter(TagsOf(s, kind), (t: string) => t != name);
      Applied(LogActivity(WithTags(s, kind, tags), DeleteAction(kind), name, None, None, now))
  }

  // ---------------------------------------------------------------- suppliers

  /** Appends a supplier with an identifier derived from the clock and logs its name. */
  function HandleAddSupplier(s: State, draft: SupplierDraft, now: int): (r: State)
    ensures r.suppliers == s.suppliers + [Supplier(MakeId("sup-", now), draft.name, draft.contactPerson, draft.email, draft.phone)]
    ensures r.products == s.products
    ensures s.currentUser.Some? ==> |r.logs| == |s.logs| + 1 && r.logs[0].action == AddSupplier && r.logs[0].details == draft.name
    ensures r == s.(suppliers := r.suppliers, logs := r.logs)
    ensures RecordsOne(s, r, AddSupplier, draft.name)
  {
    var created := Supplier(MakeId("sup-", now), draft.name, draft.contactPerson, draft.email, draft.phone);
    LogActivity(s.(suppliers := s.suppliers + [created]), AddSupplier, created.name, None, None, now)
  }

  /** Replaces every supplier with the edited one's identifier, in place, and logs the
      update whether or not any supplier matched. */
  function HandleUpdateSupplier(s: State, edited: Supplier, now: int): (r: State)
    ensures |r.suppliers| == |s.suppliers|
    ensures forall i :: 0 <= i < |s.suppliers| ==>
      r.suppliers[i] == if s.suppliers[i].id == edited.id then edited else s.suppliers[i]
    ensures r.products == s.products
    ensures s.currentUser.Some? ==> |r.logs| == |s.logs| + 1 && r.logs[0].action == UpdateSupplier
    ensures r == s.(suppliers := r.suppliers, logs := r.logs)
    ensures RecordsOne(s, r, UpdateSupplier, edited.name)
  {
    var updated := seq(|s.suppliers|, i requires 0 <= i < |s.suppliers| =>
      if s.suppliers[i].id == edited.id then edited else s.suppliers[i]);
    LogActivity(s.(suppliers := updated), UpdateSupplier, edited.name, None, None, now)
  }

  const SupplierInUseMessage: string := "Não é possível deletar um fornecedor que está associado a produtos."

  /** Some product lists this supplier. */
  predicate SupplierInUse(products: seq<Product>, supplierId: string) {
    exists i :: 0 <= i < |products| && supplierId in products[i].supplierIds
  }

  predicate HasSupplier(suppliers: seq<Supplier>, supplierId: string) {
    exists i :: 0 <= i < |suppliers| && suppliers[i].id == supplierId
  }

  /** `k` is the position of the first supplier with this identifier. */
  predicate IsFirstWithId(suppliers: seq<Supplier>, supplierId: string, k: int) {
    0 <= k < |suppliers| && suppliers[k].id == supplierId
    && forall j :: 0 <= j < k ==> suppliers[j].id != supplierId
  }

  lemma FirstWithIdUnique(suppliers: seq<Supplier>, supplierId: string, k: int, k': int)
    requires IsFirstWithId(suppliers, supplierId, k) && IsFirstWithId(suppliers, supplierId, k')
    ensures k == k'
  {
  }

  /** The suppliers a deletion of `supplierId` keeps. */
  function OtherThan(supplierId: string): Supplier -> bool {
    (x: Supplier) => x.id != supplierId
  }

  /** Deletes a supplier. Refused while any product lists it; a no-op for an unknown
      identifier; otherwise exactly the suppliers with that identifier are removed. */
  function HandleDeleteSupplier(s: State, supplierId: string, now: int): (r: Outcome)
    ensures r.Alerted? <==> SupplierInUse(s.products, supplierId)
    ensures r.Applied? && !HasSupplier(s.suppliers, supplierId) ==> r.state == s
    ensures r.Applied? && HasSupplier(s.suppliers, supplierId) ==>
      && (forall i :: 0 <= i < |r.state.suppliers| ==> r.state.suppliers[i].id != supplierId && r.state.suppliers[i] in s.suppliers)
      && (forall i :: 0 <= i < |s.suppliers| && s.suppliers[i].id != supplierId ==> s.suppliers[i] in r.state.suppliers)
      && |r.state.suppliers| < |s.suppliers|
      && r.state.products == s.products
      && (s.currentUser.Some? ==> |r.state.logs| == |s.logs| + 1 && r.state.logs[0].action == DeleteSupplier)
      && r.state.suppliers == Filter(s.suppliers, OtherThan(supplierId))
      && r.state == s.(suppliers := r.state.suppliers, logs := r.state.logs)
      && (forall k :: IsFirstWithId(s.suppliers, supplierId, k) ==>
            RecordsOne(s, r.state, DeleteSupplier, s.suppliers[k].name))
  {
    if SupplierInUse(s.products, supplierId) then Alerted(SupplierInUseMessage)
    else
      match FindFirst(s.suppliers, (x: Supplier) => x.id == supplierId)
      case None => Applied(s)
      case Some(k) =>
        var keep := OtherThan(supplierId);
        var remaining := Filter(s.suppliers, keep);
        FilterShrinks(s.suppliers, keep, k);
        var r := LogActivity(s.(suppliers := remaining), DeleteSupplier, s.suppliers[k].name, None, None, now);
        assert RecordsOne(s, r, DeleteSupplier, s.suppliers[k].name);
        assert IsFirstWithId(s.suppliers, supplierId, k);
        forall k' | IsFirstWithId(s.suppliers, supplierId, k')
          ensures RecordsOne(s, r, DeleteSupplier, s.suppliers[k'].name)
        {
          FirstWithIdUnique(s.suppliers, supplierId, k, k');
        }
        Applied(r)
  }
}

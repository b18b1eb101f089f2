/** The product dialog: the draft it starts from, the description-generation precondition,
    and the validation that turns a draft into the product handed to the save handler. */
module ProductForm {
  import opened Wrappers
  import opened Types
  import opened Text
  import opened Inventory

  /** A product as the form holds it: everything except the identifier and the
      last-update instant, which are assigned on submission. */
  datatype Draft = Draft(
    name: string,
    category: string,
    quantity: int,
    costPrice: int,
    description: string,
    location: string,
    supplierIds: seq<string>,
    reorderQuantity: int,
    priceHistory: seq<PriceEntry>)

  const DefaultLocation: string := "Estoque Principal"

  /** `list[0] || fallback`: the first entry, unless the list is empty or that entry is
      the empty string. */
  function FirstOr(list: seq<string>, fallback: string): (r: string)
    ensures |list| > 0 && list[0] != "" ==> r == list[0]
    ensures (|list| == 0 || list[0] == "") ==> r == fallback
  {
    if |list| > 0 && list[0] != "" then list[0] else fallback
  }

  /** The draft of a new product: first category, first location (or the default
      location), zero stock and price, the configured reorder quantity, no history. */
  function NewDraft(categories: seq<string>, locations: seq<string>, defaultReorderQuantity: int): (r: Draft)
    ensures r.name == "" && r.description == "" && r.quantity == 0 && r.costPrice == 0
    ensures r.supplierIds == [] && r.priceHistory == []
    ensures r.reorderQuantity == defaultReorderQuantity
    ensures r.category == "" || r.category in categories
    ensures r.location == DefaultLocation || r.location in locations
    ensures r.location != ""
    ensures |categories| > 0 ==> r.category == categories[0]
    ensures |categories| == 0 ==> r.category == ""
    ensures |locations| > 0 && locations[0] != "" ==> r.location == locations[0]
    ensures |locations| == 0 || locations[0] == "" ==> r.location == DefaultLocation
  {
    Draft("", FirstOr(categories, ""), 0, 0, "", FirstOr(locations, DefaultLocation), [], defaultReorderQuantity, [])
  }

  /** The draft of an existing product: all its fields but the identifier and the
      last-update instant. */
  function DraftOf(p: Product): Draft {
    Draft(p.name, p.category, p.quantity, p.costPrice, p.description, p.location,
          p.supplierIds, p.reorderQuantity, p.priceHistory)
  }

  /** The draft the dialog opens with. */
  function InitialDraft(productToEdit: Option<Product>, categories: seq<string>, locations: seq<string>, defaultReorderQuantity: int): Draft {
    match productToEdit
    case Some(p) => DraftOf(p)
    case None => NewDraft(categories, locations, defaultReorderQuantity)
  }

  // ---------------------------------------------------------------- description

  const DescriptionPreconditionMessage: string :=
    "Por favor, preencha o nome e a categoria do produto para gerar uma descrição."
  const DescriptionFailedMessage: string := "Falha ao gerar descrição."

  /** Generation needs a non-empty name and category; unlike submission, the check does
      not trim, so whitespace-only fields pass it. */
  predicate CanGenerateDescription(d: Draft) {
    d.name != "" && d.category != ""
  }

  /** The description button. The generation service is outside the model: `generated`
      is its answer, `None` when it fails. The result is the updated draft and the error
      shown, empty when there is none. */
  function HandleGenerateDescription(d: Draft, generated: Option<string>): (r: (Draft, string))
    ensures !CanGenerateDescription(d) ==> r == (d, DescriptionPreconditionMessage)
    ensures CanGenerateDescription(d) && generated.Some? ==> r == (d.(description := generated.value), "")
    ensures CanGenerateDescription(d) && generated.None? ==> r == (d, DescriptionFailedMessage)
    ensures r.0 == d.(description := r.0.description)
  {
    if !CanGenerateDescription(d) then (d, DescriptionPreconditionMessage)
    else match generated
      case Some(text) => (d.(description := text), "")
      case None => (d, DescriptionFailedMessage)
  }

  // ---------------------------------------------------------------- submission

  datatype FormError = MissingNameOrCategory | NegativeValue

  function FormErrorMessage(e: FormError): string {
    match e
    case MissingNameOrCategory => "Nome e categoria são obrigatórios."
    case NegativeValue => "Valores numéricos não podem ser negativos."
  }

  /** The product built from a draft with identifier `id` at instant `now`. */
  function ProductOf(d: Draft, id: string, now: int): Product {
    Product(id, d.name, d.category, d.quantity, d.costPrice, d.description, now,
            d.location, d.supplierIds, d.reorderQuantity, d.priceHistory)
  }

  /** `productToEdit?.id || 'prod-' + now`: an edited product keeps its identifier unless
      that identifier is empty; otherwise a fresh one is made from the clock. */
  function SubmittedId(productToEdit: Option<Product>, now: int): (r: string)
    ensures r != ""
    ensures productToEdit.Some? && productToEdit.value.id != "" ==> r == productToEdit.value.id
  {
    if productToEdit.Some? && productToEdit.value.id != "" then productToEdit.value.id
    else MakeId("prod-", now)
  }

  /** Submits the form. Blank name or category is reported before negative numbers; a
      valid draft becomes a product stamped with `now`, and no field is trimmed. */
  function HandleSubmit(d: Draft, productToEdit: Option<Product>, now: int): (r: Result<Product, FormError>)
    ensures r == Failure(MissingNameOrCategory) <==> IsBlank(d.name) || IsBlank(d.category)
    ensures r == Failure(NegativeValue) <==>
      !IsBlank(d.name) && !IsBlank(d.category) && (d.quantity < 0 || d.costPrice < 0 || d.reorderQuantity < 0)
    ensures r.Success? ==>
      && DraftOf(r.value) == d
      && r.value.lastUpdated == now
      && r.value.quantity >= 0 && r.value.costPrice >= 0 && r.value.reorderQuantity >= 0
      && r.value.id == SubmittedId(productToEdit, now)
  {
    if IsBlank(d.name) || IsBlank(d.category) then Failure(MissingNameOrCategory)
    else if d.quantity < 0 || d.costPrice < 0 || d.reorderQuantity < 0 then Failure(NegativeValue)
    else Success(ProductOf(d, SubmittedId(productToEdit, now), now))
  }

  /** Opening a product and submitting without changes gives the same product back, with
      only its last-update instant moved to the submission. */
  lemma UnchangedEditRoundTrip(p: Product, categories: seq<string>, locations: seq<string>, reorder: int, now: int)
    requires p.id != "" && !IsBlank(p.name) && !IsBlank(p.category)
    requires p.quantity >= 0 && p.costPrice >= 0 && p.reorderQuantity >= 0
    ensures HandleSubmit(InitialDraft(Some(p), categories, locations, reorder), Some(p), now) == Success(p.(lastUpdated := now))
  {
  }

  /** Whatever submission accepts would also be accepted by the description button, but
      not conversely: a whitespace-only name passes the button's check only. */
  lemma SubmitCheckIsStricter(d: Draft, productToEdit: Option<Product>, now: int)
    ensures HandleSubmit(d, productToEdit, now).Success? ==> CanGenerateDescription(d)
    ensures var blank := d.(name := " ", category := "x");
      CanGenerateDescription(blank) && HandleSubmit(blank, productToEdit, now).Failure?
  {
    BlankIffAllSpace("");
    BlankIffAllSpace(" ");
    assert IsBlank(" ");
  }

  /** Editing an existing product through the dialog updates it in place: the store keeps
      its size and the product's position now holds the submitted fields. */
  lemma SubmittedEditUpdatesInPlace(s: State, d: Draft, prev: Product, now: int)
    requires prev.id != "" && FindProduct(s.products, prev.id) == Some(prev)
    requires HandleSubmit(d, Some(prev), now).Success?
    ensures var p := HandleSubmit(d, Some(prev), now).value;
      var r := HandleSaveProduct(s, p, now);
      && |r.products| == |s.products|
      && forall i :: 0 <= i < |s.products| && s.products[i].id == prev.id ==>
           r.products[i].name == d.name && r.products[i].quantity == d.quantity && r.products[i].lastUpdated == now
  {
  }

  /** A product created through the dialog starts with no low-stock notification, whatever
      its quantity. */
  lemma SubmittedCreationNeverNotifies(s: State, d: Draft, now: int)
    requires HandleSubmit(d, None, now).Success?
    requires FindProduct(s.products, MakeId("prod-", now)).None?
    ensures var p := HandleSubmit(d, None, now).value;
      var r := HandleSaveProduct(s, p, now);
      r.notifications == s.notifications && r.products == [p] + s.products
  {
  }
}

/**
 * The edit-product form: loading a product into the form, the parallel
 * ingredient and measurement lists, and the save that merges the form
 * back into the product record.
 */
module EditProductModal {
  import opened Common
  import opened Products

  /** The form state; a measurement slot may be a hole left by an assignment past the end. */
  datatype EditForm = EditForm(
    productName: string,
    category: string,
    price: int,
    imagePreview: Option<string>,
    ingredients: seq<string>,
    measurements: seq<Option<string>>)

  const INITIAL_FORM: EditForm := EditForm("", "", 0, None, [], [])

  /**
   * The load effect: a given product fills the form, with price 0 and empty
   * lists where the product has none; without a product the form is kept.
   */
  function LoadProduct(form: EditForm, product: Option<Product>): (r: EditForm)
    ensures product.None? ==> r == form
    ensures product.Some? ==>
      var p := product.value;
      && r.productName == p.name && r.category == p.category && r.imagePreview == p.image
      && (p.price.None? ==> r.price == 0)
      && (p.ingredients.None? ==> r.ingredients == [])
      && (p.measurements.None? ==> r.measurements == [])
      && (p.price.Some? ==> Some(r.price) == p.price)
      && (p.ingredients.Some? ==> Some(r.ingredients) == p.ingredients)
      && (p.measurements.Some? ==> Some(r.measurements) == p.measurements)
  {
    match product
    case None => form
    case Some(p) =>
      EditForm(
        p.name,
        p.category,
        if p.price.Some? then p.price.value else 0,
        p.image,
        if p.ingredients.Some? then p.ingredients.value else [],
        if p.measurements.Some? then p.measurements.value else [])
  }

  /** The fields a save overwrites, all else being the loaded product's. */
  function Merge(product: Product, form: EditForm): Product {
    product.(
      name := form.productName,
      category := form.category,
      price := Some(form.price),
      image := form.imagePreview,
      ingredients := Some(form.ingredients),
      measurements := Some(form.measurements))
  }

  /**
   * `handleSubmit`: an empty name, an empty category or a price that is not
   * positive saves nothing; otherwise the saved record is the product with
   * the form's values over it, keeping its id and every other field.
   */
  function Submit(form: EditForm, product: Product): (r: Option<Product>)
    ensures r.None? <==> form.productName == "" || form.category == "" || form.price <= 0
    ensures r.Some? ==> r.value.id == product.id && r.value.status == product.status
    ensures r.Some? ==>
      && r.value.name == form.productName && r.value.category == form.category
      && r.value.price == Some(form.price) && r.value.image == form.imagePreview
      && r.value.ingredients == Some(form.ingredients) && r.value.measurements == Some(form.measurements)
  {
    if form.productName == "" || form.category == "" || form.price <= 0 then None
    else Some(Merge(product, form))
  }

  /** A complete product loaded and saved without edits comes back unchanged. */
  lemma LoadThenSubmit(form: EditForm, product: Product)
    requires product.name != "" && product.category != ""
    requires product.price.Some? && product.price.value > 0
    requires product.ingredients.Some? && product.measurements.Some?
    ensures Submit(LoadProduct(form, Some(product)), product) == Some(product)
  {
  }

  /** A product without a price cannot be saved until a price is entered. */
  lemma UnpricedProductNeedsPrice(form: EditForm, product: Product)
    requires product.price.None?
    ensures Submit(LoadProduct(form, Some(product)), product).None?
  {
  }

  /** The Add Ingredient button: an empty ingredient and an empty measurement at the end of their lists. */
  function AddIngredientRow(form: EditForm): (r: EditForm)
    ensures r.ingredients == form.ingredients + [""]
    ensures r.measurements == form.measurements + [Some("")]
    ensures r.(ingredients := form.ingredients, measurements := form.measurements) == form
  {
    form.(ingredients := form.ingredients + [""], measurements := form.measurements + [Some("")])
  }

  /** Adding rows keeps the two lists in step when they were in step. */
  lemma {:induction false} AddRowsKeepsListsInStep(form: EditForm, n: nat)
    requires |form.ingredients| == |form.measurements|
    ensures var r := AddRows(form, n);
      |r.ingredients| == |r.measurements| == |form.ingredients| + n
    decreases n
  {
    if n > 0 {
      AddRowsKeepsListsInStep(AddIngredientRow(form), n - 1);
    }
  }

  /** `n` presses of Add Ingredient. */
  function AddRows(form: EditForm, n: nat): EditForm
    decreases n
  {
    if n == 0 then form else AddRows(AddIngredientRow(form), n - 1)
  }

  /** The ingredient input of row `index`: a copy of the list with that one position replaced. */
  method EditIngredient(ingredients: seq<string>, index: nat, value: string) returns (r: seq<string>)
    requires index < |ingredients|
    ensures |r| == |ingredients| && r[index] == value
    ensures forall k :: 0 <= k < |r| && k != index ==> r[k] == ingredients[k]
  {
    var copy := new string[|ingredients|](k requires 0 <= k < |ingredients| => ingredients[k]);
    copy[index] := value;
    r := copy[..];
  }

  /**
   * The measurement input of row `index`: a copy of the list with that
   * position set. Rows run over the ingredients, so the index may lie past
   * the end of the measurements; the list then grows to reach it and the
   * positions in between are holes.
   */
  method EditMeasurement(measurements: seq<Option<string>>, index: nat, value: string) returns (r: seq<Option<string>>)
    ensures |r| == if index < |measurements| then |measurements| else index + 1
    ensures r[index] == Some(value)
    ensures forall k :: 0 <= k < |r| && k != index ==> r[k] == if k < |measurements| then measurements[k] else None
  {
    var n := if index < |measurements| then |measurements| else index + 1;
    var copy := new Option<string>[n](k requires 0 <= k < n => if k < |measurements| then measurements[k] else None);
    copy[index] := Some(value);
    r := copy[..];
  }
}

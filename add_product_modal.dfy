/**
 * The add-product form: the id it proposes, the ingredient lines and the
 * submit guard. The ingredient editors copy the list and then assign a
 * field of one line object, so the copy and the list it came from share
 * their line objects; lines are therefore objects here, edited in place.
 */
module AddProductModal {
  import opened Common
  import opened Text
  import opened Lists
  import opened Products

  /** `generateProductId` of the form: "Auto" for a blank name, otherwise the sequential id for the name's prefix. */
  function GenerateProductId(name: string, existing: seq<Product>): (id: string)
    ensures id == "Auto" <==> Trim(name) == ""
    ensures Trim(name) != "" ==>
      var p := NamePrefix(name);
      && StartsWith(id, p)
      && |id| == |p| + PaddedWidth(CountWithPrefix(existing, p) + 1, 3)
      && AllDigits(id[|p|..])
      && DecimalValue(id[|p|..]) == CountWithPrefix(existing, p) + 1
  {
    if Trim(name) == "" then "Auto"
    else
      var p := NamePrefix(name);
      SequentialIdNotAuto(p, existing);
      SequentialId(p, existing)
  }

  /** A sequential id ends in a digit, so it is never the placeholder. */
  lemma SequentialIdNotAuto(p: string, existing: seq<Product>)
    ensures SequentialId(p, existing) != "Auto"
  {
    var id := SequentialId(p, existing);
    assert IsDigit(id[|p|..][|id| - 1 - |p|]);
  }

  /** The prefix is read from the untrimmed name: leading blanks are part of it. */
  lemma PrefixKeepsLeadingBlank()
    ensures NamePrefix(" ab") == " AB"
  {
    var p := NamePrefix(" ab");
    assert p[0] == UpperChar(' ') == ' ';
    assert p[1] == UpperChar('a') == 'A';
    assert p[2] == UpperChar('b') == 'B';
  }

  /** One ingredient line of the form. */
  class Ingredient {
    const id: string
    var name: string
    var quantity: string
    var unit: string

    /** A blank line stamped with the current time. */
    constructor (stamp: string)
      ensures id == stamp && name == "" && quantity == "" && unit == ""
    {
      id := stamp;
      name := "";
      quantity := "";
      unit := "";
    }

    predicate Blank()
      reads this
    {
      name == "" && quantity == "" && unit == ""
    }
  }

  /** What a successful submit hands to the product page; the lines are the form's own objects. */
  datatype NewProduct = NewProduct(
    name: string,
    productId: string,
    category: string,
    price: int,
    image: Option<string>,
    ingredients: seq<Ingredient>)

  class AddProductForm {
    var productName: string
    var category: string
    var price: int
    var imagePreview: Option<string>
    var imageFile: Option<string>
    var ingredients: seq<Ingredient>

    /** There is always at least one ingredient line, and no line object is listed twice. */
    predicate Valid()
      reads this
    {
      && |ingredients| >= 1
      && forall i, j :: 0 <= i < j < |ingredients| ==> ingredients[i] != ingredients[j]
    }

    /** The empty form: no name, category or image, price 0 and one blank line. */
    predicate IsEmpty()
      reads this, ingredients
    {
      && productName == "" && category == "" && price == 0
      && imagePreview.None? && imageFile.None?
      && |ingredients| == 1 && ingredients[0].Blank()
    }

    constructor (stamp: string)
      ensures Valid() && IsEmpty()
      ensures fresh(ingredients[0]) && ingredients[0].id == stamp
    {
      var line := new Ingredient(stamp);
      productName := "";
      category := "";
      price := 0;
      imagePreview := None;
      imageFile := None;
      ingredients := [line];
    }

    /** `resetForm`: back to the empty form with one fresh blank line. */
    method ResetForm(stamp: string)
      modifies this
      ensures Valid() && IsEmpty()
      ensures fresh(ingredients[0]) && ingredients[0].id == stamp
    {
      var line := new Ingredient(stamp);
      productName := "";
      category := "";
      price := 0;
      imagePreview := None;
      imageFile := None;
      ingredients := [line];
    }

    /** `addIngredient`: one fresh blank line at the end; the existing lines and every other field are kept. */
    method AddIngredient(stamp: string)
      requires Valid()
      modifies this
      ensures Valid()
      ensures |ingredients| == |old(ingredients)| + 1
      ensures ingredients[..|old(ingredients)|] == old(ingredients)
      ensures fresh(ingredients[|ingredients| - 1])
      ensures ingredients[|ingredients| - 1].Blank() && ingredients[|ingredients| - 1].id == stamp
      ensures productName == old(productName) && category == old(category) && price == old(price)
      ensures imagePreview == old(imagePreview) && imageFile == old(imageFile)
    {
      var line := new Ingredient(stamp);
      ingredients := ingredients + [line];
    }

    /** `removeIngredient`: drops line `index` unless it is the only line; an index past the end drops nothing. */
    method RemoveIngredient(index: int)
      requires Valid()
      modifies this
      ensures Valid()
      ensures |old(ingredients)| > 1 ==> ingredients == DropPosition(old(ingredients), index)
      ensures |old(ingredients)| == 1 ==> ingredients == old(ingredients)
      ensures productName == old(productName) && category == old(category) && price == old(price)
      ensures imagePreview == old(imagePreview) && imageFile == old(imageFile)
    {
      if |ingredients| > 1 {
        var kept := DropPosition(ingredients, index);
        assert forall i, j :: 0 <= i < j < |kept| ==> kept[i] != kept[j] by {
          forall i, j | 0 <= i < j < |kept|
            ensures kept[i] != kept[j]
          {
            if 0 <= index < |ingredients| {
              var i' := if i < index then i else i + 1;
              var j' := if j < index then j else j + 1;
              assert kept[i] == ingredients[i'] && kept[j] == ingredients[j'];
            }
          }
        }
        ingredients := kept;
      }
    }

    /**
     * The ingredient selector of line `index`: the list stays the same list
     * of objects and only that line's name changes, so every holder of the
     * list sees the new name.
     */
    method SetIngredientName(index: nat, value: string)
      requires Valid() && index < |ingredients|
      modifies ingredients[index]
      ensures ingredients == old(ingredients)
      ensures ingredients[index].name == value
      ensures ingredients[index].quantity == old(ingredients[index].quantity)
      ensures ingredients[index].unit == old(ingredients[index].unit)
    {
      var copy := ingredients;
      copy[index].name := value;
    }

    /** The quantity field of line `index`. */
    method SetIngredientQuantity(index: nat, value: string)
      requires Valid() && index < |ingredients|
      modifies ingredients[index]
      ensures ingredients == old(ingredients)
      ensures ingredients[index].quantity == value
      ensures ingredients[index].name == old(ingredients[index].name)
      ensures ingredients[index].unit == old(ingredients[index].unit)
    {
      var copy := ingredients;
      copy[index].quantity := value;
    }

    /** The unit selector of line `index`. */
    method SetIngredientUnit(index: nat, value: string)
      requires Valid() && index < |ingredients|
      modifies ingredients[index]
      ensures ingredients == old(ingredients)
      ensures ingredients[index].unit == value
      ensures ingredients[index].name == old(ingredients[index].name)
      ensures ingredients[index].quantity == old(ingredients[index].quantity)
    {
      var copy := ingredients;
      copy[index].unit := value;
    }

    /**
     * `handleSubmit`: without an image file nothing is submitted and the
     * form is kept; otherwise the form's values go out under the generated
     * id and the form is reset.
     */
    method HandleSubmit(existing: seq<Product>, stamp: string) returns (submitted: Option<NewProduct>)
      requires Valid()
      modifies this
      ensures Valid()
      ensures old(imageFile).None? ==> submitted.None? && unchanged(this)
      ensures old(imageFile).Some? ==>
        && submitted == Some(NewProduct(old(productName), GenerateProductId(old(productName), existing),
                                        old(category), old(price), old(imagePreview), old(ingredients)))
        && IsEmpty() && fresh(ingredients[0])
    {
      if imageFile.None? {
        return None;
      }
      var productId := GenerateProductId(productName, existing);
      submitted := Some(NewProduct(productName, productId, category, price, imagePreview, ingredients));
      ResetForm(stamp);
    }
  }

  /**
   * The list held before an edit (the previous state) is not a separate
   * copy: after line 0 is renamed, the earlier list reports the new name.
   */
  method EditIsSeenThroughEarlierList(form: AddProductForm, earlier: seq<Ingredient>, value: string)
    requires form.Valid() && earlier == form.ingredients
    modifies form.ingredients[0]
    ensures earlier[0].name == value
  {
    form.SetIngredientName(0, value);
  }
}

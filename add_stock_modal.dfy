/**
 * The add-stock form of the inventory page: the stock id it proposes while
 * the stock name is typed, and the form update on a name change.
 */
module AddStockModal {
  import opened Common
  import opened Text
  import opened StockNumbers

  /** The form state of the modal, as entered: the dates are still the text of their fields. */
  datatype StockForm = StockForm(
    stockName: string,
    stockId: string,
    category: string,
    amountPerQty: int,
    quantity: int,
    supplier: string,
    deliveryDate: string,
    expirationDate: string)

  const INITIAL_FORM: StockForm := StockForm("", "", "", 0, 0, "", "", "")

  /**
   * `generateStockId`: empty for an empty name, otherwise the name prefix,
   * a hyphen, and `lastUsedNumber + 1` padded with zeros to at least three
   * digits.
   */
  function GenerateStockId(name: string, lastUsedNumber: nat): (id: string)
    ensures name == "" <==> id == ""
    ensures name != "" ==>
      var p := NamePrefix(name);
      && |id| == |p| + 1 + PaddedWidth(lastUsedNumber + 1, 3)
      && id[..|p|] == p
      && id[|p|] == '-'
      && AllDigits(id[|p| + 1..])
      && DecimalValue(id[|p| + 1..]) == lastUsedNumber + 1
  {
    if name == "" then ""
    else
      var p := NamePrefix(name);
      var digits := PaddedCounter(lastUsedNumber + 1, 3);
      HyphenJoined(p, digits);
      p + "-" + digits
  }

  /** The parts of `p-d` sit where they were put. */
  lemma HyphenJoined(p: string, d: string)
    ensures var id := p + "-" + d;
      && |id| == |p| + 1 + |d|
      && id[..|p|] == p && id[|p|] == '-' && id[|p| + 1..] == d
  {
  }

  /** The generated id parses back through the stock-number service to `lastUsedNumber + 1`. */
  lemma GeneratedIdSuffix(name: string, lastUsedNumber: nat)
    requires name != ""
    ensures SuffixNumber(GenerateStockId(name, lastUsedNumber)) == Some(lastUsedNumber + 1)
  {
    var p := NamePrefix(name);
    var digits := PaddedCounter(lastUsedNumber + 1, 3);
    assert GenerateStockId(name, lastUsedNumber) == p + "-" + digits;
    SuffixNumberOf(p, digits);
  }

  /** The counter starts at 0 and nothing advances it, so every proposed id ends in `001`. */
  lemma InitialCounterGives001(name: string)
    requires name != ""
    ensures var id := GenerateStockId(name, 0);
      |id| >= 3 && id[|id| - 3..] == "001"
  {
    var p := NamePrefix(name);
    var d := Decimal(1);
    assert d == "1";
    assert Zeros(2) == "00";
    assert PaddedCounter(1, 3) == "001";
    assert GenerateStockId(name, 0) == p + "-" + "001";
  }

  /**
   * `handleStockNameChange`: the new name and the id proposed for it; every
   * other field is kept. No input calls it: the name field sets `stockName`
   * directly, and the id field shows `GenerateStockId` of that name.
   */
  function HandleStockNameChange(form: StockForm, newName: string, lastUsedNumber: nat): (r: StockForm)
    ensures r.stockName == newName
    ensures r.stockId == GenerateStockId(newName, lastUsedNumber)
    ensures r.(stockName := form.stockName, stockId := form.stockId) == form
  {
    form.(stockName := newName, stockId := GenerateStockId(newName, lastUsedNumber))
  }
}

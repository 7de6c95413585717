/**
 * The product records of the product page and the sequential product ids
 * both product forms derive from a name: the upper-cased first three
 * characters followed by one more than the number of existing ids that
 * start with them, padded to three digits.
 */
module Products {
  import opened Common
  import opened Text
  import opened Lists

  /**
   * A product record. The sample records carry only `id`, `image`, `name`
   * and `category`; the forms add a price, ingredient and measurement lists
   * and the archive a status, so those fields may be absent. A measurement
   * slot may be a hole (an unassigned array position).
   */
  datatype Product = Product(
    id: string,
    name: string,
    category: string,
    image: Option<string>,
    price: Option<int>,
    ingredients: Option<seq<string>>,
    measurements: Option<seq<Option<string>>>,
    status: Option<string>)

  /** The sample catalogue the product page starts with. */
  const INITIAL_PRODUCTS: seq<Product> := [
    Product("SPL001", "Spanish Latte", "Iced Coffee", Some("Google.png"), None, None, None, None),
    Product("CAP002", "Cappuccino", "Hot Coffee", Some("Google.png"), None, None, None, None),
    Product("TAR003", "Taro", "Non-Coffee", Some("Google.png"), None, None, None, None),
    Product("STR004", "Strawberry", "Non-Coffee", Some("Google.png"), None, None, None, None),
    Product("BOB005", "Boba Tea", "Iced Coffee", Some("Google.png"), None, None, None, None)
  ]

  function IdStartsWith(prefix: string): Product -> bool {
    (p: Product) => StartsWith(p.id, prefix)
  }

  /** How many existing products have an id starting with `prefix` (case-sensitive). */
  function CountWithPrefix(products: seq<Product>, prefix: string): nat {
    CountWhere(products, IdStartsWith(prefix))
  }

  /** The prefix followed by the count of ids sharing it plus one, padded with zeros to three digits. */
  function SequentialId(prefix: string, products: seq<Product>): (id: string)
    ensures StartsWith(id, prefix)
    ensures |id| == |prefix| + PaddedWidth(CountWithPrefix(products, prefix) + 1, 3)
    ensures AllDigits(id[|prefix|..]) && DecimalValue(id[|prefix|..]) == CountWithPrefix(products, prefix) + 1
  {
    var id := prefix + PaddedCounter(CountWithPrefix(products, prefix) + 1, 3);
    assert id[..|prefix|] == prefix;
    assert id[|prefix|..] == PaddedCounter(CountWithPrefix(products, prefix) + 1, 3);
    id
  }

  /** With no id sharing the prefix, the number is `001`. */
  lemma FirstSequentialId(prefix: string, products: seq<Product>)
    requires forall p :: p in products ==> !StartsWith(p.id, prefix)
    ensures SequentialId(prefix, products) == prefix + "001"
  {
    FilterKeepsNone(products, IdStartsWith(prefix));
    assert Decimal(1) == "1";
    assert Zeros(2) == "00";
  }
}

/**
 * The product page: the product list with its id generator, add, update,
 * archive and search. Every handler builds a new list from the old one.
 */
module ProductPage {
  import opened Common
  import opened Text
  import opened Lists
  import opened Products

  /** `generateProductId` of the page: empty for an empty name, otherwise the sequential id for its prefix. */
  function GenerateProductId(name: string, products: seq<Product>): (id: string)
    ensures name == "" ==> id == ""
    ensures name != "" ==> id == SequentialId(NamePrefix(name), products)
  {
    if name == "" then "" else SequentialId(NamePrefix(name), products)
  }

  /**
   * Counting ids that share a prefix does not give a free number: on the
   * sample catalogue, Cappuccino gets CAP002, the id Cappuccino already has.
   */
  lemma GeneratedIdCanRepeat()
    ensures GenerateProductId("Cappuccino", INITIAL_PRODUCTS) == "CAP002"
    ensures exists k :: 0 <= k < |INITIAL_PRODUCTS| && INITIAL_PRODUCTS[k].id == "CAP002"
  {
    CappuccinoIdCounted();
    SecondCapId(GenerateProductId("Cappuccino", INITIAL_PRODUCTS));
    SecondSampleId();
  }

  lemma SecondSampleId()
    ensures |INITIAL_PRODUCTS| > 1 && INITIAL_PRODUCTS[1].id == "CAP002"
  {
  }

  lemma CappuccinoIdCounted()
    ensures GenerateProductId("Cappuccino", INITIAL_PRODUCTS) == "CAP" + PaddedCounter(2, 3)
  {
    CappuccinoPrefix();
    SampleCapCount();
    CountedId("Cappuccino", INITIAL_PRODUCTS, "CAP", 1);
  }

  lemma SecondCapId(id: string)
    requires id == "CAP" + PaddedCounter(2, 3)
    ensures id == "CAP002"
  {
    assert PaddedCounter(2, 3) == "002" by {
      assert Decimal(2) == "2";
      assert Zeros(2) == "00";
    }
  }

  lemma CountedId(name: string, products: seq<Product>, prefix: string, count: nat)
    requires name != "" && NamePrefix(name) == prefix && CountWithPrefix(products, prefix) == count
    ensures GenerateProductId(name, products) == prefix + PaddedCounter(count + 1, 3)
  {
  }

  lemma CappuccinoPrefix()
    ensures NamePrefix("Cappuccino") == "CAP"
  {
    var p := NamePrefix("Cappuccino");
    assert p[0] == UpperChar('C') == 'C';
    assert p[1] == UpperChar('a') == 'A';
    assert p[2] == UpperChar('p') == 'P';
  }

  /** Exactly one sample id starts with `CAP`. */
  lemma SampleCapCount()
    ensures CountWithPrefix(INITIAL_PRODUCTS, "CAP") == 1
  {
    var ps := INITIAL_PRODUCTS;
    assert ps[0].id[..3][0] == 'S' && ps[2].id[..3][0] == 'T';
    assert ps[3].id[..3][0] == 'S' && ps[4].id[..3][0] == 'B';
    assert ps[2..] == [ps[2], ps[3], ps[4]];
    OnlySecondMatches(ps, IdStartsWith("CAP"));
  }

  lemma OnlySecondMatches(ps: seq<Product>, p: Product -> bool)
    requires |ps| >= 2 && !p(ps[0]) && p(ps[1])
    requires forall x :: x in ps[2..] ==> !p(x)
    ensures |Filter(ps, p)| == 1
  {
    FilterKeepsNone(ps[2..], p);
    assert ps[1..][1..] == ps[2..];
  }

  /** `handleAddProduct`: appends the new product under a generated id, whatever id it carried. */
  function HandleAddProduct(products: seq<Product>, newProduct: Product): (r: seq<Product>)
    ensures |r| == |products| + 1 && r[..|products|] == products
    ensures r[|products|].id == GenerateProductId(newProduct.name, products)
    ensures r[|products|].(id := newProduct.id) == newProduct
  {
    products + [newProduct.(id := GenerateProductId(newProduct.name, products))]
  }

  /** `handleUpdateProduct`: every product with the updated product's id is replaced by it. */
  function HandleUpdateProduct(products: seq<Product>, updated: Product): (r: seq<Product>)
    ensures |r| == |products|
    ensures forall k :: 0 <= k < |r| ==> r[k] == if products[k].id == updated.id then updated else products[k]
  {
    if products == [] then []
    else [if products[0].id == updated.id then updated else products[0]] + HandleUpdateProduct(products[1..], updated)
  }

  /** Applying the same update twice is applying it once. */
  lemma UpdateIdempotent(products: seq<Product>, updated: Product)
    ensures HandleUpdateProduct(HandleUpdateProduct(products, updated), updated) == HandleUpdateProduct(products, updated)
  {
  }

  /** After an update of a listed id, the updated record is in the list and no stale record with that id is left. */
  lemma UpdateReplacesAll(products: seq<Product>, updated: Product)
    requires exists k :: 0 <= k < |products| && products[k].id == updated.id
    ensures updated in HandleUpdateProduct(products, updated)
    ensures forall p :: p in HandleUpdateProduct(products, updated) && p.id == updated.id ==> p == updated
  {
    var r := HandleUpdateProduct(products, updated);
    var k :| 0 <= k < |products| && products[k].id == updated.id;
    assert r[k] == updated;
  }

  function IdIsNot(productId: string): Product -> bool {
    (p: Product) => p.id != productId
  }

  /**
   * `handleArchive`: when a product has the id, a copy of the first such
   * product marked "Archived" joins the archive and every product with the
   * id leaves the list; an unknown id changes neither list.
   */
  function HandleArchive(products: seq<Product>, archived: seq<Product>, productId: string): (r: (seq<Product>, seq<Product>))
    ensures (forall p :: p in products ==> p.id != productId) ==> r == (products, archived)
    ensures (exists p :: p in products && p.id == productId) ==>
      var first := products[FindIndex(products, (p: Product) => p.id == productId).value];
      && r.1 == archived + [first.(status := Some("Archived"))]
      && r.0 == Filter(products, IdIsNot(productId))
      && (forall p :: p in r.0 <==> p in products && p.id != productId)
      && |r.0| < |products|
  {
    match Find(products, (p: Product) => p.id == productId)
    case None => (products, archived)
    case Some(found) =>
      var kept := Filter(products, IdIsNot(productId));
      assert |kept| < |products| by {
        FilterLoses(products, IdIsNot(productId), found);
      }
      (kept, archived + [found.(status := Some("Archived"))])
  }

  /** Products and archive together never lose a record: what leaves the list is counted in the archive. */
  lemma ArchiveKeepsCount(products: seq<Product>, archived: seq<Product>, productId: string)
    requires forall p, q :: p in products && q in products && p.id == q.id ==> p == q
    requires forall k, l :: 0 <= k < l < |products| ==> products[k] != products[l]
    ensures var r := HandleArchive(products, archived, productId);
      |r.0| + |r.1| == |products| + |archived|
  {
    var r := HandleArchive(products, archived, productId);
    if exists p :: p in products && p.id == productId {
      var kept := Filter(products, IdIsNot(productId));
      FilterDropsOne(products, IdIsNot(productId));
    }
  }

  /** A filter that rejects at least one element returns a shorter list. */
  lemma {:induction false} FilterLoses(s: seq<Product>, p: Product -> bool, x: Product)
    requires x in s && !p(x)
    ensures |Filter(s, p)| < |s|
  {
    if s[0] != x {
      FilterLoses(s[1..], p, x);
    }
  }

  /** With distinct records, of which exactly one is rejected, the filter drops exactly one. */
  lemma {:induction false} FilterDropsOne(s: seq<Product>, p: Product -> bool)
    requires forall k, l :: 0 <= k < l < |s| ==> s[k] != s[l]
    requires forall x, y :: x in s && y in s && !p(x) && !p(y) ==> x == y
    requires exists x :: x in s && !p(x)
    ensures |Filter(s, p)| == |s| - 1
  {
    var rest := s[1..];
    assert forall k, l :: 0 <= k < l < |rest| ==> rest[k] != rest[l] by {
      forall k, l | 0 <= k < l < |rest|
        ensures rest[k] != rest[l]
      {
        assert rest[k] == s[k + 1] && rest[l] == s[l + 1];
      }
    }
    if p(s[0]) {
      var x :| x in s && !p(x);
      assert x in rest;
      FilterDropsOne(rest, p);
    } else {
      assert forall y :: y in rest ==> p(y) by {
        forall y | y in rest
          ensures p(y)
        {
          var l :| 0 <= l < |rest| && rest[l] == y;
          assert s[l + 1] == y && s[0] != s[l + 1];
        }
      }
      FilterKeepsAll(rest, p);
    }
  }

  /** A product matches the search when its name, id or category contains the term, ignoring case. */
  function MatchesTerm(term: string): Product -> bool {
    (p: Product) =>
      ContainsIgnoringCase(p.name, term) || ContainsIgnoringCase(p.id, term) || ContainsIgnoringCase(p.category, term)
  }

  /** `filteredProducts`: the products matching the search term, in list order. */
  function FilteredProducts(products: seq<Product>, term: string): (r: seq<Product>)
    ensures forall p :: p in r <==> p in products && MatchesTerm(term)(p)
    ensures multiset(r) <= multiset(products)
  {
    Filter(products, MatchesTerm(term))
  }

  /** An empty search term keeps every product. */
  lemma EmptyTermKeepsAll(products: seq<Product>)
    ensures FilteredProducts(products, "") == products
  {
    forall p | p in products
      ensures MatchesTerm("")(p)
    {
      ContainsEmpty(Lower(p.name));
    }
    FilterKeepsAll(products, MatchesTerm(""));
  }
}

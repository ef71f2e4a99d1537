/**
 * The product catalogue of the storefront's backend: the filtered, sorted
 * listing, lookup by key, and the create, update and delete operations on the
 * product table.
 */
module Products {
  import opened Wrappers
  import opened Seqs
  import opened Text
  import opened Ordering
  import opened Models

  /** A query-string filter takes part only when it is present and not blank. */
  predicate Active(filter: Option<string>) {
    filter.Some? && !IsBlank(filter.value)
  }

  /** The product passes every active filter: name contains search, category equals category. */
  predicate Selected(search: Option<string>, category: Option<string>, p: Product) {
    && (Active(search) ==> Contains(p.productName, search.value))
    && (Active(category) ==> p.category == category)
  }

  /**
   * GetProducts: exactly the rows that pass the active filters, each as often
   * as in the table, ordered by product name.
   */
  function GetProducts(rows: seq<Product>, search: Option<string>, category: Option<string>): (r: seq<Product>)
    ensures forall p :: multiset(r)[p] == if Selected(search, category, p) then multiset(rows)[p] else 0
    ensures forall p :: p in r <==> p in rows && Selected(search, category, p)
    ensures SortedBy(r, ProductNameLe)
  {
    ProductNameOrder();
    var kept := Where(rows, p => Selected(search, category, p));
    var sorted := SortBy(kept, ProductNameLe);
    assert forall p :: p in sorted <==> p in kept by {
      forall p ensures p in sorted <==> p in kept {
        assert p in sorted <==> multiset(sorted)[p] > 0;
        assert p in kept <==> multiset(kept)[p] > 0;
      }
    }
    sorted
  }

  /** With an active search, every listed name has the search text at some position. */
  lemma SearchHits(rows: seq<Product>, search: Option<string>, category: Option<string>, p: Product)
    requires Active(search) && p in GetProducts(rows, search, category)
    ensures exists i :: OccursAt(p.productName, search.value, i)
  {
    ContainsIff(p.productName, search.value);
  }

  /** With neither filter active, the listing holds every row of the table. */
  lemma NoFilterListsAll(rows: seq<Product>, search: Option<string>, category: Option<string>)
    requires !Active(search) && !Active(category)
    ensures multiset(GetProducts(rows, search, category)) == multiset(rows)
    ensures |GetProducts(rows, search, category)| == |rows|
  {
    var r := GetProducts(rows, search, category);
    assert forall p :: multiset(r)[p] == multiset(rows)[p];
    assert multiset(r) == multiset(rows);
    assert |multiset(r)| == |multiset(rows)|;
  }

  /** GetProduct (FindAsync by key): the row with that ProductID, or NotFound. */
  function GetProduct(rows: seq<Product>, id: int): (r: Result<Product, Failure>)
    ensures r.Err? <==> forall k :: 0 <= k < |rows| ==> rows[k].productId != id
    ensures r.Err? ==> r.error == NotFound
    ensures r.Ok? ==> r.value in rows && r.value.productId == id
  {
    match ProductIndex(rows, id)
    case None => Err(NotFound)
    case Some(i) => Ok(rows[i])
  }

  /**
   * The row after UpdateProduct: name, category, description, price, stock and
   * supplier come from the request; the key and DateAdded stay; LastUpdated is now.
   */
  function Revised(p: Product, updated: Product, now: Timestamp): (r: Product)
    ensures r.productId == p.productId && r.dateAdded == p.dateAdded
    ensures r.productName == updated.productName && r.category == updated.category
    ensures r.description == updated.description && r.price == updated.price
    ensures r.stockQuantity == updated.stockQuantity && r.supplier == updated.supplier
    ensures r.lastUpdated == now
  {
    p.(productName := updated.productName, category := updated.category, description := updated.description,
       price := updated.price, stockQuantity := updated.stockQuantity, supplier := updated.supplier,
       lastUpdated := now)
  }

  /** Removing a row removes its key from the key column and keeps the others in order. */
  lemma RemoveIds(rows: seq<Product>, i: nat)
    requires i < |rows|
    ensures ProductIds(RemoveAt(rows, i)) == RemoveAt(ProductIds(rows), i)
  {
    var l, r := ProductIds(RemoveAt(rows, i)), RemoveAt(ProductIds(rows), i);
    assert |l| == |r|;
    forall k | 0 <= k < |l| ensures l[k] == r[k] {
      if k < i {
        assert l[k] == RemoveAt(rows, i)[k].productId == rows[k].productId;
      } else {
        assert l[k] == RemoveAt(rows, i)[k].productId == rows[k + 1].productId;
      }
    }
  }

  /**
   * Deleting the row found for id takes away exactly that row: no row with
   * that key remains, and every row with another key is still there.
   */
  lemma DeleteRemovesExactly(rows: seq<Product>, id: int)
    requires Distinct(ProductIds(rows)) && ProductIndex(rows, id).Some?
    ensures var after := RemoveAt(rows, ProductIndex(rows, id).value);
      && id !in ProductIds(after)
      && (forall p :: p in rows && p.productId != id ==> p in after)
      && multiset(after) + multiset{rows[ProductIndex(rows, id).value]} == multiset(rows)
  {
    var i := ProductIndex(rows, id).value;
    var after := RemoveAt(rows, i);
    RemoveIds(rows, i);
    RemoveAtMultiset(rows, i);
    forall p | p in rows && p.productId != id ensures p in after {
      var k :| 0 <= k < |rows| && rows[k] == p;
      if k < i {
        assert after[k] == p;
      } else {
        assert k != i && after[k - 1] == p;
      }
    }
    forall k | 0 <= k < |after| ensures ProductIds(after)[k] != id {
      if k < i {
        assert ProductIds(after)[k] == ProductIds(rows)[k];
      } else {
        assert ProductIds(after)[k] == ProductIds(rows)[k + 1];
      }
    }
  }

  /**
   * The product table as the backend's ProductsController sees it, with the
   * next value of the ProductID identity column.
   */
  class ProductsController {
    var products: seq<Product>
    var nextProductId: int

    ghost predicate Valid()
      reads this
    {
      Distinct(ProductIds(products)) && Below(ProductIds(products), nextProductId)
    }

    constructor (products: seq<Product>, nextProductId: int)
      requires Distinct(ProductIds(products)) && Below(ProductIds(products), nextProductId)
      ensures Valid() && this.products == products && this.nextProductId == nextProductId
    {
      this.products := products;
      this.nextProductId := nextProductId;
    }

    /** CreateProduct: the row is stored with a new key and both dates set to now. */
    method CreateProduct(product: Product, now: Timestamp) returns (created: Product)
      requires Valid()
      modifies this
      ensures Valid()
      ensures created == product.(productId := old(nextProductId), dateAdded := now, lastUpdated := now)
      ensures products == old(products) + [created] && nextProductId == old(nextProductId) + 1
    {
      created := product.(productId := nextProductId, dateAdded := now, lastUpdated := now);
      ProductIdsAppend(products, created);
      FreshKey(ProductIds(products), nextProductId);
      products := products + [created];
      nextProductId := nextProductId + 1;
    }

    /** UpdateProduct: NotFound for an unknown key; otherwise the row is revised in place. */
    method UpdateProduct(id: int, updated: Product, now: Timestamp) returns (r: Result<Product, Failure>)
      requires Valid()
      modifies this
      ensures Valid() && nextProductId == old(nextProductId)
      ensures ProductIndex(old(products), id).None? ==> r == Err(NotFound) && products == old(products)
      ensures ProductIndex(old(products), id).Some? ==>
        var i := ProductIndex(old(products), id).value;
        && products == old(products)[i := Revised(old(products)[i], updated, now)]
        && r == Ok(products[i])
    {
      var found := ProductIndex(products, id);
      if found.None? {
        return Err(NotFound);
      }
      var i := found.value;
      var row := Revised(products[i], updated, now);
      ProductIdsReplace(products, i, row);
      products := products[i := row];
      r := Ok(row);
    }

    /** DeleteProduct: NotFound for an unknown key; otherwise that row is removed. */
    method DeleteProduct(id: int) returns (r: Result<(), Failure>)
      requires Valid()
      modifies this
      ensures Valid() && nextProductId == old(nextProductId)
      ensures ProductIndex(old(products), id).None? ==> r == Err(NotFound) && products == old(products)
      ensures ProductIndex(old(products), id).Some? ==>
        r == Ok(()) && products == RemoveAt(old(products), ProductIndex(old(products), id).value)
    {
      var found := ProductIndex(products, id);
      if found.None? {
        return Err(NotFound);
      }
      RemoveIds(products, found.value);
      RemoveKeepsDistinct(ProductIds(products), found.value);
      BelowRemove(ProductIds(products), found.value, nextProductId);
      products := RemoveAt(products, found.value);
      r := Ok(());
    }
  }
}

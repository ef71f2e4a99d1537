/**
 * The inventory views of the management console's API: the full listing by
 * name, the low-stock listing by stock level, and setting a product's stock.
 */
module Inventory {
  import opened Wrappers
  import opened Seqs
  import opened Ordering
  import opened Models

  /** The low-stock threshold when the query string gives none. */
  const DefaultThreshold := 10

  /** GetInventory: every product, ordered by product name. */
  function GetInventory(rows: seq<Product>): (r: seq<Product>)
    ensures multiset(r) == multiset(rows)
    ensures SortedBy(r, ProductNameLe)
  {
    ProductNameOrder();
    SortBy(rows, ProductNameLe)
  }

  /** Ordering by StockQuantity. */
  predicate StockLe(a: Product, b: Product) {
    a.stockQuantity <= b.stockQuantity
  }

  lemma StockOrder()
    ensures TotalPreorder(StockLe)
  {
  }

  /** The threshold in effect: the one given, else the default. */
  function Threshold(threshold: Option<int>): int {
    if threshold.Some? then threshold.value else DefaultThreshold
  }

  /**
   * GetLowStock: exactly the products whose stock is at most the threshold,
   * each as often as in the table, in ascending order of stock.
   */
  function GetLowStock(rows: seq<Product>, threshold: Option<int>): (r: seq<Product>)
    ensures forall p :: multiset(r)[p] == if p.stockQuantity <= Threshold(threshold) then multiset(rows)[p] else 0
    ensures forall p :: p in r <==> p in rows && p.stockQuantity <= Threshold(threshold)
    ensures SortedBy(r, StockLe)
  {
    StockOrder();
    var t := Threshold(threshold);
    var low := Where(rows, (p: Product) => p.stockQuantity <= t);
    var sorted := SortBy(low, StockLe);
    assert forall p :: p in sorted <==> p in low by {
      forall p ensures p in sorted <==> p in low {
        assert p in sorted <==> multiset(sorted)[p] > 0;
        assert p in low <==> multiset(low)[p] > 0;
      }
    }
    sorted
  }

  /** The product table as the API's InventoryController sees it. */
  class InventoryController {
    var products: seq<Product>

    ghost predicate Valid()
      reads this
    {
      Distinct(ProductIds(products))
    }

    constructor (products: seq<Product>)
      requires Distinct(ProductIds(products))
      ensures Valid() && this.products == products
    {
      this.products := products;
    }

    /**
     * UpdateStock: NotFound for an unknown key; otherwise that product's stock
     * becomes exactly quantity (any int, no range check) and LastUpdated now.
     */
    method UpdateStock(id: int, quantity: int, now: Timestamp) returns (r: Result<Product, Failure>)
      requires Valid()
      modifies this
      ensures Valid()
      ensures ProductIndex(old(products), id).None? ==> r == Err(NotFound) && products == old(products)
      ensures ProductIndex(old(products), id).Some? ==>
        var i := ProductIndex(old(products), id).value;
        && products == old(products)[i := old(products)[i].(stockQuantity := quantity, lastUpdated := now)]
        && r == Ok(products[i])
    {
      var found := ProductIndex(products, id);
      if found.None? {
        return Err(NotFound);
      }
      var i := found.value;
      var row := products[i].(stockQuantity := quantity, lastUpdated := now);
      ProductIdsReplace(products, i, row);
      products := products[i := row];
      r := Ok(row);
    }
  }

  /** After UpdateStock on a found key, that product has the new stock and every other row is as before. */
  lemma UpdateStockEffect(rows: seq<Product>, id: int, quantity: int, now: Timestamp)
    requires ProductIndex(rows, id).Some?
    ensures var i := ProductIndex(rows, id).value;
      var after := rows[i := rows[i].(stockQuantity := quantity, lastUpdated := now)];
      && ProductIndex(after, id) == Some(i)
      && after[i].stockQuantity == quantity
      && forall k :: 0 <= k < |rows| && k != i ==> after[k] == rows[k]
  {
    var i := ProductIndex(rows, id).value;
    ProductIdsReplace(rows, i, rows[i].(stockQuantity := quantity, lastUpdated := now));
  }
}

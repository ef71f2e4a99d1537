/**
 * Order placement (POST api/Transactions): one unit of work that inserts a
 * transaction header, walks the cart items in order, skips unknown products,
 * aborts and rolls everything back on the first product short of stock, and
 * otherwise decrements stock, records a line with a price snapshot and sums
 * the line subtotals into the header's total.
 */
module Transactions {
  import opened Wrappers
  import opened Seqs
  import opened Models

  datatype CartItem = CartItem(productId: int, quantity: int)

  datatype CreateTransactionRequest = CreateTransactionRequest(
    customerId: int,
    employeeId: int,
    paymentMethod: string,
    items: seq<CartItem>)

  /** The body of the successful reply: the new header's id and its total. */
  datatype Receipt = Receipt(transactionId: int, totalAmount: Money)

  const CartEmptyMessage := "Cart is empty."

  function NotEnoughStockMessage(productName: string): string {
    "Not enough stock for " + productName + "."
  }

  /** One recorded order line, before the database gives it an identity. */
  datatype Line = Line(productId: int, quantity: int, unitPrice: Money)

  /** Price × Quantity (the computed Subtotal column). */
  function Subtotal(l: Line): Money {
    l.unitPrice * l.quantity as real
  }

  /** The sum of the lines' subtotals. */
  function Total(lines: seq<Line>): Money {
    if lines == [] then 0.0 else Subtotal(lines[0]) + Total(lines[1..])
  }

  lemma {:induction false} TotalAppend(lines: seq<Line>, l: Line)
    ensures Total(lines + [l]) == Total(lines) + Subtotal(l)
  {
    if lines != [] {
      assert (lines + [l])[1..] == lines[1..] + [l];
      TotalAppend(lines[1..], l);
    }
  }

  /** The product ids the items name, in order. */
  function ItemIds(items: seq<CartItem>): (ids: seq<int>)
    ensures |ids| == |items| && forall j :: 0 <= j < |items| ==> ids[j] == items[j].productId
  {
    seq(|items|, j requires 0 <= j < |items| => items[j].productId)
  }

  /** The total quantity the items order of product id. */
  function Ordered(items: seq<CartItem>, id: int): int {
    if items == [] then 0
    else (if items[0].productId == id then items[0].quantity else 0) + Ordered(items[1..], id)
  }

  /** product.StockQuantity -= quantity, on row i. */
  function Decrement(rows: seq<Product>, i: nat, quantity: int): seq<Product>
    requires i < |rows|
  {
    rows[i := rows[i].(stockQuantity := rows[i].stockQuantity - quantity)]
  }

  /** rows2 differs from rows at most in stock quantities. */
  predicate SameButStock(rows: seq<Product>, rows2: seq<Product>) {
    |rows2| == |rows| && forall k :: 0 <= k < |rows| ==> rows2[k] == rows[k].(stockQuantity := rows2[k].stockQuantity)
  }

  lemma SameButStockIds(rows: seq<Product>, rows2: seq<Product>)
    requires SameButStock(rows, rows2)
    ensures ProductIds(rows2) == ProductIds(rows)
  {
  }

  /** The rows after one item's decrement, whether or not its stock check passes. */
  function Next(rows: seq<Product>, item: CartItem): (r: seq<Product>)
    ensures SameButStock(rows, r)
  {
    match ProductIndex(rows, item.productId)
    case None => rows
    case Some(i) => Decrement(rows, i, item.quantity)
  }

  /** Puts lines in front of the lines of a successful outcome. */
  function Prepend(lines: seq<Line>, r: Result<(seq<Product>, seq<Line>), string>): Result<(seq<Product>, seq<Line>), string> {
    match r
    case Err(name) => Err(name)
    case Ok((rows, rest)) => Ok((rows, lines + rest))
  }

  /**
   * What the loop over the items computes: the product rows afterwards and
   * the lines recorded, or the name of the first product short of stock.
   */
  function Place(rows: seq<Product>, items: seq<CartItem>): (r: Result<(seq<Product>, seq<Line>), string>)
    ensures r.Ok? ==> |r.value.0| == |rows| && |r.value.1| <= |items|
    decreases |items|
  {
    if items == [] then Ok((rows, []))
    else
      match ProductIndex(rows, items[0].productId)
      case None => Place(rows, items[1..])
      case Some(i) =>
        if rows[i].stockQuantity < items[0].quantity then Err(rows[i].productName)
        else
          var line := Line(rows[i].productId, items[0].quantity, rows[i].price);
          Prepend([line], Place(Decrement(rows, i, items[0].quantity), items[1..]))
  }

  /**
   * The lines an order records, defined without stock: one per item whose
   * product exists, in item order, at that product's price.
   */
  function LinesFor(rows: seq<Product>, items: seq<CartItem>): seq<Line> {
    if items == [] then []
    else
      (match ProductIndex(rows, items[0].productId)
       case None => []
       case Some(i) => [Line(rows[i].productId, items[0].quantity, rows[i].price)])
      + LinesFor(rows, items[1..])
  }

  /** LinesFor does not look at stock. */
  lemma {:induction false} LinesForIgnoresStock(rows: seq<Product>, rows2: seq<Product>, items: seq<CartItem>)
    requires SameButStock(rows, rows2)
    ensures LinesFor(rows2, items) == LinesFor(rows, items)
  {
    SameButStockIds(rows, rows2);
    if items != [] {
      LinesForIgnoresStock(rows, rows2, items[1..]);
    }
  }

  /** A successful placement changes nothing but stock quantities. */
  lemma {:induction false} PlaceOnlyChangesStock(rows: seq<Product>, items: seq<CartItem>)
    requires Place(rows, items).Ok?
    ensures SameButStock(rows, Place(rows, items).value.0)
    decreases |items|
  {
    if items != [] {
      match ProductIndex(rows, items[0].productId)
      case None =>
        PlaceOnlyChangesStock(rows, items[1..]);
      case Some(i) =>
        var rows1 := Decrement(rows, i, items[0].quantity);
        PlaceOnlyChangesStock(rows1, items[1..]);
    }
  }

  /**
   * The recorded lines are exactly the found items, in order, each with the
   * product's price at the time of sale; unknown products are skipped.
   */
  lemma {:induction false} PlaceRecordsLines(rows: seq<Product>, items: seq<CartItem>)
    requires Place(rows, items).Ok?
    ensures Place(rows, items).value.1 == LinesFor(rows, items)
    decreases |items|
  {
    if items != [] {
      match ProductIndex(rows, items[0].productId)
      case None =>
        PlaceRecordsLines(rows, items[1..]);
      case Some(i) =>
        var rows1 := Decrement(rows, i, items[0].quantity);
        PlaceRecordsLines(rows1, items[1..]);
        LinesForIgnoresStock(rows, rows1, items[1..]);
    }
  }

  lemma {:induction false} OrderedUnmentioned(items: seq<CartItem>, id: int)
    requires id !in ItemIds(items)
    ensures Ordered(items, id) == 0
  {
    if items != [] {
      assert ItemIds(items[1..]) == ItemIds(items)[1..];
      OrderedUnmentioned(items[1..], id);
    }
  }

  /**
   * On success, each product's stock falls by exactly the total quantity
   * ordered of it; products the order does not name keep their stock.
   */
  lemma {:induction false} PlaceStock(rows: seq<Product>, items: seq<CartItem>)
    requires Distinct(ProductIds(rows)) && Place(rows, items).Ok?
    ensures var after := Place(rows, items).value.0;
      |after| == |rows| &&
      forall k :: 0 <= k < |rows| ==>
        after[k] == rows[k].(stockQuantity := rows[k].stockQuantity - Ordered(items, rows[k].productId))
    decreases |items|
  {
    if items != [] {
      var id0 := items[0].productId;
      match ProductIndex(rows, id0)
      case None =>
        PlaceStock(rows, items[1..]);
      case Some(i) =>
        var rows1 := Decrement(rows, i, items[0].quantity);
        SameButStockIds(rows, rows1);
        PlaceStock(rows1, items[1..]);
        forall k | 0 <= k < |rows| && k != i ensures rows[k].productId != id0 {
          assert ProductIds(rows)[k] != ProductIds(rows)[i];
        }
    }
  }

  /** On success, every product the order names is left with stock ≥ 0. */
  lemma {:induction false} PlaceStockNonNegative(rows: seq<Product>, items: seq<CartItem>)
    requires Distinct(ProductIds(rows)) && Place(rows, items).Ok?
    ensures var after := Place(rows, items).value.0;
      |after| == |rows| &&
      forall k :: 0 <= k < |rows| && rows[k].productId in ItemIds(items) ==> after[k].stockQuantity >= 0
    decreases |items|
  {
    if items != [] {
      var id0 := items[0].productId;
      assert ItemIds(items) == [id0] + ItemIds(items[1..]);
      match ProductIndex(rows, id0)
      case None =>
        PlaceStockNonNegative(rows, items[1..]);
        PlaceOnlyChangesStock(rows, items[1..]);
      case Some(i) =>
        var rows1 := Decrement(rows, i, items[0].quantity);
        SameButStockIds(rows, rows1);
        PlaceStockNonNegative(rows1, items[1..]);
        PlaceStock(rows1, items[1..]);
        var after := Place(rows, items).value.0;
        forall k | 0 <= k < |rows| && rows[k].productId in ItemIds(items) ensures after[k].stockQuantity >= 0 {
          if rows[k].productId !in ItemIds(items[1..]) {
            OrderedUnmentioned(items[1..], rows[k].productId);
            IndexOfDistinct(ProductIds(rows), k);
          }
        }
    }
  }

  /** Item j finds its product short: the quantities ordered of it up to and including item j exceed its stock. */
  predicate Short(rows: seq<Product>, items: seq<CartItem>, j: int) {
    0 <= j < |items| &&
    match ProductIndex(rows, items[j].productId)
    case None => false
    case Some(i) => rows[i].stockQuantity < Ordered(items[..j + 1], items[j].productId)
  }

  /** Looking at the items after the first one, against the rows that item left. */
  lemma ShortShift(rows: seq<Product>, items: seq<CartItem>, j: int)
    requires 1 <= j < |items|
    ensures Short(rows, items, j) <==> Short(Next(rows, items[0]), items[1..], j - 1)
  {
    var rows1 := Next(rows, items[0]);
    SameButStockIds(rows, rows1);
    var id := items[j].productId;
    assert items[1..][j - 1] == items[j];
    assert items[..j + 1][1..] == items[1..][..j];
    match ProductIndex(rows, id)
    case None =>
    case Some(k) =>
      match ProductIndex(rows, items[0].productId)
      case None =>
      case Some(i) =>
        if items[0].productId != id {
          assert ProductIds(rows)[i] != ProductIds(rows)[k];
        }
  }

  /** Whether the first item is short decides whether placement stops at it. */
  lemma PlaceFirstItem(rows: seq<Product>, items: seq<CartItem>)
    requires items != []
    ensures Short(rows, items, 0) ==>
      Place(rows, items) == Err(rows[ProductIndex(rows, items[0].productId).value].productName)
    ensures !Short(rows, items, 0) ==>
      Place(rows, items).Err? == Place(Next(rows, items[0]), items[1..]).Err? &&
      (Place(rows, items).Err? ==> Place(rows, items).error == Place(Next(rows, items[0]), items[1..]).error)
  {
    assert items[..1] == [items[0]] && [items[0]][1..] == [];
    assert Ordered(items[..1], items[0].productId) == items[0].quantity;
  }

  /** Placement fails exactly when some item finds its product short. */
  lemma {:induction false} PlaceFailsIff(rows: seq<Product>, items: seq<CartItem>)
    ensures Place(rows, items).Err? <==> exists j :: Short(rows, items, j)
    decreases |items|
  {
    if items != [] {
      var rows1 := Next(rows, items[0]);
      var rest := items[1..];
      PlaceFirstItem(rows, items);
      if !Short(rows, items, 0) {
        PlaceFailsIff(rows1, rest);
        if exists j :: Short(rows1, rest, j) {
          var j1 :| Short(rows1, rest, j1);
          ShortShift(rows, items, j1 + 1);
        }
        if exists j :: Short(rows, items, j) {
          var j :| Short(rows, items, j);
          ShortShift(rows, items, j);
        }
      }
    }
  }

  /** Item j is the first short item, and name is its product's name. */
  predicate NamesFirstShort(rows: seq<Product>, items: seq<CartItem>, j: int, name: string) {
    && Short(rows, items, j)
    && (forall j' :: 0 <= j' < j ==> !Short(rows, items, j'))
    && match ProductIndex(rows, items[j].productId)
       case None => false
       case Some(i) => name == rows[i].productName
  }

  /** A failed placement names the product of the first item that finds its product short. */
  lemma {:induction false} PlaceFailureNames(rows: seq<Product>, items: seq<CartItem>)
    requires Place(rows, items).Err?
    ensures exists j :: NamesFirstShort(rows, items, j, Place(rows, items).error)
    decreases |items|
  {
    var rows1 := Next(rows, items[0]);
    var rest := items[1..];
    var name := Place(rows, items).error;
    PlaceFirstItem(rows, items);
    if Short(rows, items, 0) {
      assert NamesFirstShort(rows, items, 0, name);
    } else {
      PlaceFailureNames(rows1, rest);
      var j1 :| NamesFirstShort(rows1, rest, j1, name);
      SameButStockIds(rows, rows1);
      ShortShift(rows, items, j1 + 1);
      forall j' | 1 <= j' < j1 + 1 ensures !Short(rows, items, j') {
        ShortShift(rows, items, j');
      }
      assert rest[j1] == items[j1 + 1];
      assert NamesFirstShort(rows, items, j1 + 1, name);
    }
  }

  // One step of the loop: what Place does with item k.

  lemma PlaceSkip(rows: seq<Product>, items: seq<CartItem>, k: nat)
    requires k < |items| && ProductIndex(rows, items[k].productId).None?
    ensures Place(rows, items[k..]) == Place(rows, items[k + 1..])
  {
    assert items[k..][0] == items[k] && items[k..][1..] == items[k + 1..];
  }

  lemma PlaceShortAt(rows: seq<Product>, items: seq<CartItem>, k: nat, i: nat)
    requires k < |items| && ProductIndex(rows, items[k].productId) == Some(i)
    requires rows[i].stockQuantity < items[k].quantity
    ensures Place(rows, items[k..]) == Err(rows[i].productName)
  {
    assert items[k..][0] == items[k];
  }

  lemma PlaceTake(whole: Result<(seq<Product>, seq<Line>), string>, rows: seq<Product>, items: seq<CartItem>,
                  k: nat, i: nat, lines: seq<Line>)
    requires k < |items| && ProductIndex(rows, items[k].productId) == Some(i)
    requires rows[i].stockQuantity >= items[k].quantity
    requires whole == Prepend(lines, Place(rows, items[k..]))
    ensures whole ==
      Prepend(lines + [Line(rows[i].productId, items[k].quantity, rows[i].price)],
              Place(Decrement(rows, i, items[k].quantity), items[k + 1..]))
  {
    assert items[k..][0] == items[k] && items[k..][1..] == items[k + 1..];
    var line := Line(rows[i].productId, items[k].quantity, rows[i].price);
    PrependPrepend(lines, [line], Place(Decrement(rows, i, items[k].quantity), items[k + 1..]));
  }

  /** An order of A×3 at 10.00 and B×2 at 20.00 from stocks 5 and 2 costs 70.00 and leaves stocks 2 and 0. */
  lemma PlaceExample(t: Timestamp)
    ensures var a := Product(1, "A", None, None, 10.0, 5, None, t, t);
      var b := Product(2, "B", None, None, 20.0, 2, None, t, t);
      var result := Place([a, b], [CartItem(1, 3), CartItem(2, 2)]);
      result.Ok? &&
      Total(result.value.1) == 70.0 &&
      result.value.0 == [a.(stockQuantity := 2), b.(stockQuantity := 0)]
  {
    var a := Product(1, "A", None, None, 10.0, 5, None, t, t);
    var b := Product(2, "B", None, None, 20.0, 2, None, t, t);
    assert ProductIds([a, b]) == [1, 2];
    assert ProductIds([a.(stockQuantity := 2), b]) == [1, 2];
    assert IndexOf([1, 2], 2) == Some(1);
    var a2 := a.(stockQuantity := 2);
    var b0 := b.(stockQuantity := 0);
    assert ProductIds([a2, b]) == [1, 2];
    assert Decrement([a, b], 0, 3) == [a2, b];
    assert Decrement([a2, b], 1, 2) == [a2, b0];
    assert Place([a2, b0], []) == Ok(([a2, b0], []));
    assert [CartItem(2, 2)][1..] == [] && [CartItem(1, 3), CartItem(2, 2)][1..] == [CartItem(2, 2)];
    assert ProductIndex([a2, b], 2) == Some(1);
    assert ProductIndex([a, b], 1) == Some(0);
    var lb, la := Line(2, 2, 20.0), Line(1, 3, 10.0);
    assert [lb] + [] == [lb] && [la] + [lb] == [la, lb];
    assert Place([a2, b], [CartItem(2, 2)]) == Prepend([lb], Place([a2, b0], []));
    assert Place([a2, b], [CartItem(2, 2)]) == Ok(([a2, b0], [lb]));
    assert Place([a, b], [CartItem(1, 3), CartItem(2, 2)]) == Prepend([la], Place([a2, b], [CartItem(2, 2)]));
    assert Place([a, b], [CartItem(1, 3), CartItem(2, 2)]) == Ok(([a2, b0], [la, lb]));
    assert Total([Line(2, 2, 20.0)]) == 40.0;
  }

  /** A product with stock 1 cannot take an order of 2: the order fails naming it. */
  lemma ShortExample(t: Timestamp)
    ensures var a := Product(1, "A", None, None, 10.0, 1, None, t, t);
      Place([a], [CartItem(1, 2)]) == Err("A")
  {
    var a := Product(1, "A", None, None, 10.0, 1, None, t, t);
    assert ProductIds([a]) == [1];
  }

  /** The transactionDetails rows recorded for lines, with identities from firstId on. */
  function Details(transactionId: int, firstId: int, lines: seq<Line>): (ds: seq<TransactionDetail>)
    ensures |ds| == |lines|
  {
    if lines == [] then []
    else
      var l := lines[|lines| - 1];
      Details(transactionId, firstId, lines[..|lines| - 1]) +
      [TransactionDetail(firstId + |lines| - 1, transactionId, l.productId, l.quantity, l.unitPrice, Subtotal(l))]
  }

  lemma PrependPrepend(lines: seq<Line>, more: seq<Line>, r: Result<(seq<Product>, seq<Line>), string>)
    ensures Prepend(lines, Prepend(more, r)) == Prepend(lines + more, r)
  {
    match r {
      case Err(_) =>
      case Ok((rows, rest)) => assert lines + (more + rest) == (lines + more) + rest;
    }
  }

  lemma DetailsAppend(transactionId: int, firstId: int, lines: seq<Line>, l: Line)
    ensures Details(transactionId, firstId, lines + [l]) == Details(transactionId, firstId, lines) +
      [TransactionDetail(firstId + |lines|, transactionId, l.productId, l.quantity, l.unitPrice, Subtotal(l))]
  {
    assert (lines + [l])[..|lines|] == lines;
  }

  /** Appending the detail rows of a transaction keeps every key below the next identity value. */
  lemma {:induction false} DetailsBelow(ds: seq<TransactionDetail>, transactionId: int, firstId: int, lines: seq<Line>)
    requires Below(DetailIds(ds), firstId)
    ensures Below(DetailIds(ds + Details(transactionId, firstId, lines)), firstId + |lines|)
    decreases |lines|
  {
    if lines != [] {
      var init := lines[..|lines| - 1];
      var l := lines[|lines| - 1];
      DetailsBelow(ds, transactionId, firstId, init);
      var before := ds + Details(transactionId, firstId, init);
      var all := ds + Details(transactionId, firstId, lines);
      assert all == before + [all[|all| - 1]];
      assert all[|all| - 1].transactionDetailId == firstId + |lines| - 1;
      forall x | x in DetailIds(all) ensures x < firstId + |lines| {
        var i :| 0 <= i < |all| && DetailIds(all)[i] == x;
        if i < |before| {
          assert all[i] == before[i] && DetailIds(before)[i] in DetailIds(before);
        }
      }
    } else {
      assert ds + Details(transactionId, firstId, lines) == ds;
    }
  }

  /** Appending the detail rows of a transaction keeps the keys distinct when the old ones are below the first new one. */
  lemma {:induction false} DetailsDistinct(ds: seq<TransactionDetail>, transactionId: int, firstId: int, lines: seq<Line>)
    requires Distinct(DetailIds(ds)) && Below(DetailIds(ds), firstId)
    ensures Distinct(DetailIds(ds + Details(transactionId, firstId, lines)))
    decreases |lines|
  {
    if lines != [] {
      var init := lines[..|lines| - 1];
      DetailsDistinct(ds, transactionId, firstId, init);
      DetailsBelow(ds, transactionId, firstId, init);
      var before := ds + Details(transactionId, firstId, init);
      var all := ds + Details(transactionId, firstId, lines);
      assert all == before + [all[|all| - 1]];
      DetailIdsAppend(before, all[|all| - 1]);
      FreshKey(DetailIds(before), firstId + |init|);
    } else {
      assert ds + Details(transactionId, firstId, lines) == ds;
    }
  }

  /**
   * The tables TransactionsController reads and writes, with the next values
   * of the two identity columns. One object, used by one request at a time.
   */
  class TransactionsController {
    var products: seq<Product>
    var transactions: seq<PurchaseTransaction>
    var details: seq<TransactionDetail>
    var nextTransactionId: int
    var nextDetailId: int

    ghost predicate Valid()
      reads this
    {
      && Distinct(ProductIds(products))
      && Distinct(TransactionIds(transactions)) && Distinct(DetailIds(details))
      && Below(TransactionIds(transactions), nextTransactionId)
      && Below(DetailIds(details), nextDetailId)
    }

    /**
     * The tables as the database holds them: product keys distinct, and each
     * identity column's next value above every key of its table.
     */
    constructor (products: seq<Product>, transactions: seq<PurchaseTransaction>, details: seq<TransactionDetail>,
                 nextTransactionId: int, nextDetailId: int)
      requires Distinct(ProductIds(products))
      requires Distinct(TransactionIds(transactions)) && Distinct(DetailIds(details))
      requires Below(TransactionIds(transactions), nextTransactionId) && Below(DetailIds(details), nextDetailId)
      ensures Valid()
      ensures this.products == products && this.transactions == transactions && this.details == details
      ensures this.nextTransactionId == nextTransactionId && this.nextDetailId == nextDetailId
    {
      this.products := products;
      this.transactions := transactions;
      this.details := details;
      this.nextTransactionId := nextTransactionId;
      this.nextDetailId := nextDetailId;
    }

    /**
     * CreateTransaction. An empty cart is refused before any write. Otherwise
     * either everything commits (header, lines, stock) or, on a product short
     * of stock, the state is exactly what it was before.
     */
    method CreateTransaction(request: CreateTransactionRequest, now: Timestamp) returns (r: Result<Receipt, string>)
      requires Valid()
      modifies this
      ensures Valid()
      ensures request.items == [] ==> r == Err(CartEmptyMessage) && unchanged(this)
      ensures request.items != [] && Place(old(products), request.items).Err? ==>
        && r == Err(NotEnoughStockMessage(Place(old(products), request.items).error))
        && products == old(products) && transactions == old(transactions) && details == old(details)
        && nextTransactionId == old(nextTransactionId) && nextDetailId == old(nextDetailId)
      ensures request.items != [] && Place(old(products), request.items).Ok? ==>
        var (rows, lines) := Place(old(products), request.items).value;
        var id := old(nextTransactionId);
        && r == Ok(Receipt(id, Total(lines)))
        && products == rows
        && transactions == old(transactions) + [PurchaseTransaction(
             id, request.customerId, request.employeeId, now, request.paymentMethod, Some(Total(lines)), "Completed")]
        && details == old(details) + Details(id, old(nextDetailId), lines)
        && nextTransactionId == id + 1
        && nextDetailId == old(nextDetailId) + |lines|
    {
      if request.items == [] {
        return Err(CartEmptyMessage);
      }

      // BeginTransaction: what a rollback restores.
      var savedProducts, savedTransactions, savedDetails := products, transactions, details;
      var savedNextTransactionId, savedNextDetailId := nextTransactionId, nextDetailId;

      var header := PurchaseTransaction(
        nextTransactionId, request.customerId, request.employeeId, now, request.paymentMethod, None, "Completed");
      transactions := transactions + [header];
      nextTransactionId := nextTransactionId + 1;

      var outcome := RecordItems(request.items, header.transactionId);
      match outcome {
        case Err(name) =>
          // RollbackAsync
          products, transactions, details := savedProducts, savedTransactions, savedDetails;
          nextTransactionId, nextDetailId := savedNextTransactionId, savedNextDetailId;
          return Err(NotEnoughStockMessage(name));
        case Ok(total) =>
          transactions := transactions[|transactions| - 1 := header.(totalAmount := Some(total))];
          assert transactions == savedTransactions + [header.(totalAmount := Some(total))];
          BelowInsert(savedTransactions, header.(totalAmount := Some(total)), savedNextTransactionId);
          TransactionIdsAppend(savedTransactions, header.(totalAmount := Some(total)));
          FreshKey(TransactionIds(savedTransactions), savedNextTransactionId);
          PlaceOnlyChangesStock(savedProducts, request.items);
          SameButStockIds(savedProducts, products);
          DetailsBelow(savedDetails, header.transactionId, savedNextDetailId, Place(savedProducts, request.items).value.1);
          DetailsDistinct(savedDetails, header.transactionId, savedNextDetailId, Place(savedProducts, request.items).value.1);
          r := Ok(Receipt(header.transactionId, total));
      }
    }

    /**
     * The foreach loop of CreateTransaction: each item's product is looked up
     * (an unknown one is skipped); the first product short of stock stops the
     * loop with its name, leaving the writes made so far for the caller to roll
     * back; otherwise a detail row is added and the quantity taken off stock.
     */
    method RecordItems(items: seq<CartItem>, transactionId: int) returns (outcome: Result<Money, string>)
      modifies this`products, this`details, this`nextDetailId
      ensures Place(old(products), items).Err? ==> outcome == Err(Place(old(products), items).error)
      ensures Place(old(products), items).Ok? ==>
        var (rows, lines) := Place(old(products), items).value;
        && outcome == Ok(Total(lines))
        && products == rows
        && details == old(details) + Details(transactionId, old(nextDetailId), lines)
        && nextDetailId == old(nextDetailId) + |lines|
    {
      var total: Money := 0.0;
      ghost var lines: seq<Line> := [];
      var k := 0;
      assert items[k..] == items;
      ghost var whole := Place(products, items);
      match whole {
        case Err(_) =>
        case Ok((rows, rest)) => assert lines + rest == rest;
      }
      while k < |items|
        invariant 0 <= k <= |items|
        invariant whole == Prepend(lines, Place(products, items[k..]))
        invariant total == Total(lines)
        invariant details == old(details) + Details(transactionId, old(nextDetailId), lines)
        invariant nextDetailId == old(nextDetailId) + |lines|
      {
        var item := items[k];
        var found := ProductIndex(products, item.productId);
        if found.Some? {
          var i := found.value;
          if products[i].stockQuantity < item.quantity {
            PlaceShortAt(products, items, k, i);
            return Err(products[i].productName);
          }
          var line := Line(products[i].productId, item.quantity, products[i].price);
          var detail := TransactionDetail(
            nextDetailId, transactionId, products[i].productId, item.quantity, products[i].price, Subtotal(line));
          DetailsAppend(transactionId, old(nextDetailId), lines, line);
          ghost var recorded := Details(transactionId, old(nextDetailId), lines);
          assert recorded + [detail] == Details(transactionId, old(nextDetailId), lines + [line]);
          assert (old(details) + recorded) + [detail] == old(details) + (recorded + [detail]);
          details := details + [detail];
          nextDetailId := nextDetailId + 1;
          PlaceTake(whole, products, items, k, i, lines);
          TotalAppend(lines, line);
          lines := lines + [line];
          // product.StockQuantity -= item.Quantity
          products := Decrement(products, i, item.quantity);
          total := total + detail.subtotal;
        } else {
          PlaceSkip(products, items, k);
        }
        k := k + 1;
      }
      assert items[k..] == [] && lines + [] == lines;
      outcome := Ok(total);
    }
  }
}

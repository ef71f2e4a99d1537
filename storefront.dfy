/**
 * The shopping cart both storefront pages keep in the browser, as values: the
 * effect of adding a product and of the "+" and "-" buttons, and the order
 * request that checkout sends to the backend.
 */
module Storefront {
  import opened Wrappers
  import opened Seqs
  import opened Models
  import opened Transactions

  /** A cart entry: the product's key, its name and price when added, and the quantity. */
  datatype CartLine = CartLine(productId: int, name: string, price: Money, quantity: int)

  const CustomerRequiredMessage := "Please log in as a customer first."
  const PaymentMethod := "Credit"

  /** The employee every storefront order is booked to. */
  const StorefrontEmployeeId := 1

  /** The result of pressing checkout: refused before any request, or the request sent. */
  datatype CheckoutOutcome = NotCustomer | EmptyCart | Submitted(request: CreateTransactionRequest)
  {
    /** The message shown for a refusal. */
    function Message(): string
      requires !Submitted?
    {
      if NotCustomer? then CustomerRequiredMessage else CartEmptyMessage
    }
  }

  function CartIds(cart: seq<CartLine>): (ids: seq<int>)
    ensures |ids| == |cart| && forall k :: 0 <= k < |cart| ==> ids[k] == cart[k].productId
  {
    if cart == [] then [] else [cart[0].productId] + CartIds(cart[1..])
  }

  /** No product has two lines, and every quantity is at least 1. */
  predicate WellFormed(cart: seq<CartLine>) {
    Distinct(CartIds(cart)) && forall k :: 0 <= k < |cart| ==> cart[k].quantity >= 1
  }

  /** The quantity of a product in the cart: that of its first line, or 0 without one. */
  function QuantityOf(cart: seq<CartLine>, id: int): int {
    match IndexOf(CartIds(cart), id)
    case Some(k) => cart[k].quantity
    case None => 0
  }

  /** addToCart: one more of the product's line, or a new line with quantity 1 at the end. */
  function Added(cart: seq<CartLine>, p: Product): (r: seq<CartLine>)
    ensures p.productId in CartIds(cart) ==> CartIds(r) == CartIds(cart)
    ensures p.productId !in CartIds(cart) ==> CartIds(r) == CartIds(cart) + [p.productId]
  {
    match IndexOf(CartIds(cart), p.productId)
    case Some(k) =>
      var line := cart[k].(quantity := cart[k].quantity + 1);
      CartIdsUpdate(cart, k, line);
      cart[k := line]
    case None =>
      var line := CartLine(p.productId, p.productName, p.price, 1);
      CartIdsAppend(cart, line);
      cart + [line]
  }

  /** The "+" button: one more on the first line for the product; nothing without one. */
  function Incremented(cart: seq<CartLine>, id: int): (r: seq<CartLine>)
    ensures CartIds(r) == CartIds(cart)
    ensures id !in CartIds(cart) ==> r == cart
  {
    match IndexOf(CartIds(cart), id)
    case Some(k) =>
      var line := cart[k].(quantity := cart[k].quantity + 1);
      CartIdsUpdate(cart, k, line);
      cart[k := line]
    case None => cart
  }

  /** The "-" button: one fewer on the first line for the product, dropping the line at 0 or below. */
  function Decremented(cart: seq<CartLine>, id: int): (r: seq<CartLine>)
    ensures |r| == |cart| || |r| == |cart| - 1
    ensures id !in CartIds(cart) ==> r == cart
  {
    match IndexOf(CartIds(cart), id)
    case Some(k) =>
      if cart[k].quantity - 1 <= 0 then RemoveAt(cart, k)
      else cart[k := cart[k].(quantity := cart[k].quantity - 1)]
    case None => cart
  }

  /** The cart as the Items of the order request: same order, product keys and quantities. */
  function CheckoutItems(cart: seq<CartLine>): (items: seq<CartItem>)
    ensures |items| == |cart|
    ensures forall k :: 0 <= k < |cart| ==> items[k] == CartItem(cart[k].productId, cart[k].quantity)
  {
    if cart == [] then [] else [CartItem(cart[0].productId, cart[0].quantity)] + CheckoutItems(cart[1..])
  }

  /** The order a signed-in customer's cart becomes: booked to employee 1, paid by "Credit". */
  function CheckoutRequest(customerId: int, cart: seq<CartLine>): (r: CreateTransactionRequest)
    ensures r.customerId == customerId && r.employeeId == StorefrontEmployeeId && r.paymentMethod == PaymentMethod
    ensures r.items == CheckoutItems(cart)
  {
    CreateTransactionRequest(customerId, StorefrontEmployeeId, PaymentMethod, CheckoutItems(cart))
  }

  // Columns after the cart edits

  lemma CartIdsUpdate(cart: seq<CartLine>, k: nat, line: CartLine)
    requires k < |cart| && line.productId == cart[k].productId
    ensures CartIds(cart[k := line]) == CartIds(cart)
  {
    assert forall j :: 0 <= j < |cart| ==> CartIds(cart[k := line])[j] == CartIds(cart)[j];
  }

  lemma CartIdsAppend(cart: seq<CartLine>, line: CartLine)
    ensures CartIds(cart + [line]) == CartIds(cart) + [line.productId]
  {
    assert forall j :: 0 <= j < |cart| ==> (cart + [line])[j] == cart[j];
  }

  lemma CartIdsRemove(cart: seq<CartLine>, k: nat)
    requires k < |cart|
    ensures CartIds(RemoveAt(cart, k)) == RemoveAt(CartIds(cart), k)
  {
    var after := RemoveAt(cart, k);
    var ids, ids' := CartIds(after), RemoveAt(CartIds(cart), k);
    forall j | 0 <= j < |ids| ensures ids[j] == ids'[j] {
      if j < k {
        assert ids[j] == after[j].productId == cart[j].productId;
      } else {
        assert ids[j] == after[j].productId == cart[j + 1].productId;
      }
    }
  }

  /** A key not yet in a column is found at the end once appended. */
  lemma IndexOfAppended(ids: seq<int>, id: int)
    requires id !in ids
    ensures IndexOf(ids + [id], id) == Some(|ids|)
  {
    assert (ids + [id])[|ids|] == id;
    assert forall j :: 0 <= j < |ids| ==> (ids + [id])[j] == ids[j];
  }

  // The cart stays well formed

  lemma AddedWellFormed(cart: seq<CartLine>, p: Product)
    requires WellFormed(cart)
    ensures WellFormed(Added(cart, p))
  {
    match IndexOf(CartIds(cart), p.productId)
    case Some(k) =>
      CartIdsUpdate(cart, k, cart[k].(quantity := cart[k].quantity + 1));
    case None =>
      var line := CartLine(p.productId, p.productName, p.price, 1);
      CartIdsAppend(cart, line);
      var all := cart + [line];
      assert forall j :: 0 <= j < |cart| ==> all[j] == cart[j];
  }

  lemma IncrementedWellFormed(cart: seq<CartLine>, id: int)
    requires WellFormed(cart)
    ensures WellFormed(Incremented(cart, id))
  {
    match IndexOf(CartIds(cart), id)
    case Some(k) =>
      var after := cart[k := cart[k].(quantity := cart[k].quantity + 1)];
      assert Incremented(cart, id) == after;
      CartIdsUpdate(cart, k, after[k]);
      forall j | 0 <= j < |after| ensures after[j].quantity >= 1 {
        if j != k {
          assert after[j].quantity == cart[j].quantity;
        }
      }
    case None =>
  }

  lemma DecrementedWellFormed(cart: seq<CartLine>, id: int)
    requires WellFormed(cart)
    ensures WellFormed(Decremented(cart, id))
  {
    match IndexOf(CartIds(cart), id)
    case Some(k) =>
      if cart[k].quantity - 1 <= 0 {
        var after := RemoveAt(cart, k);
        assert Decremented(cart, id) == after;
        CartIdsRemove(cart, k);
        RemoveKeepsDistinct(CartIds(cart), k);
        forall j | 0 <= j < |after| ensures after[j].quantity >= 1 {
          if j < k {
            assert after[j].quantity == cart[j].quantity;
          } else {
            assert after[j].quantity == cart[j + 1].quantity;
          }
        }
      } else {
        var after := cart[k := cart[k].(quantity := cart[k].quantity - 1)];
        assert Decremented(cart, id) == after;
        CartIdsUpdate(cart, k, after[k]);
        forall j | 0 <= j < |after| ensures after[j].quantity >= 1 {
          if j != k {
            assert after[j].quantity == cart[j].quantity;
          }
        }
      }
    case None =>
  }

  // What the edits do to the quantities

  /** Adding a product raises its quantity by one and leaves every other product's as it was. */
  lemma AddedQuantity(cart: seq<CartLine>, p: Product, id: int)
    ensures QuantityOf(Added(cart, p), id) == QuantityOf(cart, id) + (if id == p.productId then 1 else 0)
  {
    match IndexOf(CartIds(cart), p.productId)
    case Some(k) =>
      var after := cart[k := cart[k].(quantity := cart[k].quantity + 1)];
      assert Added(cart, p) == after;
      CartIdsUpdate(cart, k, after[k]);
      match IndexOf(CartIds(cart), id) {
        case Some(j) =>
          assert QuantityOf(after, id) == after[j].quantity;
        case None =>
      }
    case None =>
      var line := CartLine(p.productId, p.productName, p.price, 1);
      var after := cart + [line];
      assert Added(cart, p) == after;
      CartIdsAppend(cart, line);
      if id == p.productId {
        IndexOfAppended(CartIds(cart), id);
        assert QuantityOf(after, id) == after[|cart|].quantity;
      } else {
        IndexOfOther(CartIds(cart), p.productId, id);
        match IndexOf(CartIds(cart), id) {
          case Some(j) =>
            assert QuantityOf(after, id) == after[j].quantity == cart[j].quantity;
          case None =>
        }
      }
  }

  /** Appending another key does not move a key's first position. */
  lemma IndexOfOther(ids: seq<int>, x: int, id: int)
    requires x != id
    ensures IndexOf(ids + [x], id) == IndexOf(ids, id)
  {
    assert forall j :: 0 <= j < |ids| ==> (ids + [x])[j] == ids[j];
    match IndexOf(ids, id)
    case Some(k) =>
    case None =>
  }

  /** Setting the quantity on the line found for id changes the quantity of id only. */
  lemma SetQuantity(cart: seq<CartLine>, id: int, k: nat, q: int, other: int)
    requires IndexOf(CartIds(cart), id) == Some(k)
    ensures QuantityOf(cart[k := cart[k].(quantity := q)], other) == if other == id then q else QuantityOf(cart, other)
  {
    var after := cart[k := cart[k].(quantity := q)];
    CartIdsUpdate(cart, k, after[k]);
    match IndexOf(CartIds(cart), other) {
      case Some(j) =>
        assert QuantityOf(after, other) == after[j].quantity;
      case None =>
    }
  }

  /** "+" raises the product's quantity by one when it has a line, and changes nothing else. */
  lemma IncrementedQuantity(cart: seq<CartLine>, id: int, other: int)
    ensures QuantityOf(Incremented(cart, id), other)
      == QuantityOf(cart, other) + (if other == id && id in CartIds(cart) then 1 else 0)
  {
    match IndexOf(CartIds(cart), id)
    case Some(k) =>
      SetQuantity(cart, id, k, cart[k].quantity + 1, other);
    case None =>
  }

  /** In a well-formed cart, "-" lowers the product's quantity by one (to 0 when its line goes) and changes nothing else. */
  lemma DecrementedQuantity(cart: seq<CartLine>, id: int, other: int)
    requires WellFormed(cart)
    ensures QuantityOf(Decremented(cart, id), other)
      == if other == id && id in CartIds(cart) then QuantityOf(cart, id) - 1 else QuantityOf(cart, other)
  {
    match IndexOf(CartIds(cart), id)
    case Some(k) =>
      DecrementedAt(cart, id, k, other);
    case None =>
  }

  lemma DecrementedAt(cart: seq<CartLine>, id: int, k: nat, other: int)
    requires Distinct(CartIds(cart)) && IndexOf(CartIds(cart), id) == Some(k) && cart[k].quantity >= 1
    ensures QuantityOf(Decremented(cart, id), other) == if other == id then cart[k].quantity - 1 else QuantityOf(cart, other)
  {
    if cart[k].quantity - 1 > 0 {
      DecrementKeepsLine(cart, id, k, other);
    } else if other == id {
      DecrementDropsLine(cart, id, k);
    } else {
      DecrementDropsOnlyLine(cart, id, k, other);
    }
  }

  lemma DecrementDropsLine(cart: seq<CartLine>, id: int, k: nat)
    requires Distinct(CartIds(cart)) && IndexOf(CartIds(cart), id) == Some(k) && cart[k].quantity == 1
    ensures QuantityOf(Decremented(cart, id), id) == 0
  {
    assert Decremented(cart, id) == RemoveAt(cart, k);
    RemovedLineGone(cart, k);
  }

  lemma DecrementDropsOnlyLine(cart: seq<CartLine>, id: int, k: nat, other: int)
    requires Distinct(CartIds(cart)) && IndexOf(CartIds(cart), id) == Some(k) && cart[k].quantity == 1 && other != id
    ensures QuantityOf(Decremented(cart, id), other) == QuantityOf(cart, other)
  {
    assert Decremented(cart, id) == RemoveAt(cart, k);
    RemoveOther(cart, k, other);
  }

  lemma DecrementKeepsLine(cart: seq<CartLine>, id: int, k: nat, other: int)
    requires IndexOf(CartIds(cart), id) == Some(k) && cart[k].quantity > 1
    ensures QuantityOf(Decremented(cart, id), other) == if other == id then cart[k].quantity - 1 else QuantityOf(cart, other)
  {
    SetQuantity(cart, id, k, cart[k].quantity - 1, other);
  }

  /** With distinct products, no line for the removed line's product remains. */
  lemma RemovedLineGone(cart: seq<CartLine>, k: nat)
    requires k < |cart| && Distinct(CartIds(cart))
    ensures QuantityOf(RemoveAt(cart, k), cart[k].productId) == 0
  {
    var after := RemoveAt(cart, k);
    forall j | 0 <= j < |after| ensures CartIds(after)[j] != cart[k].productId {
      if j < k {
        assert CartIds(after)[j] == CartIds(cart)[j];
      } else {
        assert CartIds(after)[j] == CartIds(cart)[j + 1];
      }
    }
  }

  /** Removing the line of one product leaves another product's quantity as it was. */
  lemma RemoveOther(cart: seq<CartLine>, k: nat, other: int)
    requires k < |cart| && Distinct(CartIds(cart)) && cart[k].productId != other
    ensures QuantityOf(RemoveAt(cart, k), other) == QuantityOf(cart, other)
  {
    if other in CartIds(cart) {
      RemoveOtherPresent(cart, k, other);
    } else {
      RemoveOtherAbsent(cart, k, other);
    }
  }

  lemma RemoveOtherPresent(cart: seq<CartLine>, k: nat, other: int)
    requires k < |cart| && Distinct(CartIds(cart)) && cart[k].productId != other && other in CartIds(cart)
    ensures QuantityOf(RemoveAt(cart, k), other) == QuantityOf(cart, other)
  {
    var after := RemoveAt(cart, k);
    var j := IndexOf(CartIds(cart), other).value;
    var j' := if j < k then j else j - 1;
    assert CartIds(after)[j'] == other && after[j'].quantity == cart[j].quantity by {
      assert after[j'] == cart[j];
    }
    assert Distinct(CartIds(after)) by {
      CartIdsRemove(cart, k);
      RemoveKeepsDistinct(CartIds(cart), k);
    }
    IndexOfDistinct(CartIds(after), j');
  }

  lemma RemoveOtherAbsent(cart: seq<CartLine>, k: nat, other: int)
    requires k < |cart| && other !in CartIds(cart)
    ensures QuantityOf(RemoveAt(cart, k), other) == 0
  {
    var after := RemoveAt(cart, k);
    forall i | 0 <= i < |after| ensures CartIds(after)[i] != other {
      if i < k {
        assert after[i] == cart[i];
      } else {
        assert after[i] == cart[i + 1];
      }
    }
  }

  // Round trips

  /** In a well-formed cart, "-" undoes adding a product, whether it had a line or not. */
  lemma DecrementUndoesAdd(cart: seq<CartLine>, p: Product)
    requires WellFormed(cart)
    ensures Decremented(Added(cart, p), p.productId) == cart
  {
    match IndexOf(CartIds(cart), p.productId)
    case Some(k) =>
      var added := cart[k := cart[k].(quantity := cart[k].quantity + 1)];
      assert Added(cart, p) == added;
      CartIdsUpdate(cart, k, added[k]);
      assert added[k].quantity - 1 == cart[k].quantity >= 1;
      assert added[k := added[k].(quantity := added[k].quantity - 1)] == cart;
    case None =>
      var line := CartLine(p.productId, p.productName, p.price, 1);
      assert Added(cart, p) == cart + [line];
      CartIdsAppend(cart, line);
      IndexOfAppended(CartIds(cart), p.productId);
      assert RemoveAt(cart + [line], |cart|) == cart;
  }

  /** For a product already in the cart, adding it again is the "+" button. */
  lemma AddIsIncrement(cart: seq<CartLine>, p: Product)
    requires p.productId in CartIds(cart)
    ensures Added(cart, p) == Incremented(cart, p.productId)
  {
  }

  /** A well-formed cart checks out as items with distinct products and positive quantities. */
  lemma CheckoutItemsValid(cart: seq<CartLine>)
    requires WellFormed(cart)
    ensures forall k :: 0 <= k < |cart| ==> CheckoutItems(cart)[k].quantity >= 1
    ensures forall a, b :: 0 <= a < b < |cart| ==> CheckoutItems(cart)[a].productId != CheckoutItems(cart)[b].productId
  {
    assert forall a, b :: 0 <= a < b < |cart| ==> CartIds(cart)[a] != CartIds(cart)[b];
  }

  /** cart.find and cart.findIndex on the product key: the position of the first line for id. */
  method FindLine(cart: seq<CartLine>, id: int) returns (index: Option<nat>)
    ensures index == IndexOf(CartIds(cart), id)
  {
    var k := 0;
    while k < |cart|
      invariant 0 <= k <= |cart|
      invariant forall j :: 0 <= j < k ==> cart[j].productId != id
    {
      if cart[k].productId == id {
        return Some(k);
      }
      k := k + 1;
    }
    return None;
  }

  /** The three sections of a page. */
  datatype Section = LoginSection | ShopSection | AdminSection

  predicate IsEmployee(user: Option<Account>) {
    user.Some? && user.value.UserType() == "Employee"
  }

  predicate IsCustomer(user: Option<Account>) {
    user.Some? && user.value.UserType() == "Customer"
  }

  /**
   * The sections showSection leaves visible: it hides all three, then shows
   * "login" or "shop" as asked, and for "admin" the admin section when an
   * employee is signed in, else the login section. Any other name shows none.
   */
  function Shown(section: string, user: Option<Account>): (r: set<Section>)
    ensures |r| <= 1
    ensures AdminSection in r ==> IsEmployee(user)
  {
    if section == "login" then {LoginSection}
    else if section == "shop" then {ShopSection}
    else if section == "admin" then (if IsEmployee(user) then {AdminSection} else {LoginSection})
    else {}
  }

  /** The admin section is shown exactly when asked for by a signed-in employee, and at most one section is. */
  lemma ShownGate(section: string, user: Option<Account>)
    ensures AdminSection in Shown(section, user) <==> section == "admin" && IsEmployee(user)
    ensures LoginSection in Shown(section, user) <==> section == "login" || (section == "admin" && !IsEmployee(user))
    ensures |Shown(section, user)| <= 1
  {
  }
}

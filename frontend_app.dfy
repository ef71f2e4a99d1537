/**
 * The storefront page (frontend/app.js): the signed-in user, the cart and
 * which sections are visible. It signs in against the backend, naming the
 * account type. The server's replies are parameters: a login reply is the
 * account it describes or None for a refusal, and a checkout reply is whether
 * the order was taken.
 */
module FrontendApp {
  import opened Wrappers
  import opened Models
  import opened Seqs
  import opened Storefront
  import BackendAuth
  import Transactions

  /** The page's globals and section visibility. */
  class Page {
    var cart: seq<CartLine>
    var currentUser: Option<Account>
    var visible: set<Section>

    /** The cart is well formed, and the admin section is visible only to a signed-in employee. */
    ghost predicate Valid()
      reads this
    {
      WellFormed(cart) && (AdminSection in visible ==> IsEmployee(currentUser))
    }

    /** The page as loaded: nobody signed in, an empty cart, and showSection("shop"). */
    constructor ()
      ensures Valid()
      ensures cart == [] && currentUser == None && visible == {ShopSection}
    {
      cart := [];
      currentUser := None;
      visible := {};
      new;
      ShowSection("shop");
    }

    /** showSection: exactly the sections Shown names become visible. */
    method ShowSection(section: string)
      requires WellFormed(cart)
      modifies this`visible
      ensures Valid()
      ensures visible == Shown(section, currentUser)
    {
      visible := {};
      if section == "login" {
        visible := visible + {LoginSection};
      }
      if section == "shop" {
        visible := visible + {ShopSection};
      }
      if section == "admin" {
        if currentUser.None? || currentUser.value.UserType() != "Employee" {
          visible := visible + {LoginSection};
        } else {
          visible := visible + {AdminSection};
        }
      }
    }

    /**
     * The login button: the request always goes out with the chosen account
     * type; on a successful reply the account becomes the current user and
     * the shop is shown. A refused reply changes nothing.
     */
    method Login(email: string, password: string, userType: string, reply: Option<Account>)
      returns (sent: BackendAuth.LoginRequest)
      requires Valid()
      modifies this`currentUser, this`visible
      ensures Valid()
      ensures sent == BackendAuth.LoginRequest(email, password, userType)
      ensures reply.None? ==> currentUser == old(currentUser) && visible == old(visible)
      ensures reply.Some? ==> currentUser == reply && visible == {ShopSection}
    {
      sent := BackendAuth.LoginRequest(email, password, userType);
      if reply.None? {
        return;
      }
      currentUser := reply;
      ShowSection("shop");
    }

    /** addToCart: the cart the Added function describes. */
    method AddToCart(product: Product)
      requires Valid()
      modifies this`cart
      ensures cart == Added(old(cart), product)
      ensures Valid()
    {
      AddedWellFormed(cart, product);
      var found := FindLine(cart, product.productId);
      if found.Some? {
        var k := found.value;
        cart := cart[k := cart[k].(quantity := cart[k].quantity + 1)];
      } else {
        cart := cart + [CartLine(product.productId, product.productName, product.price, 1)];
      }
    }

    /** The "+" button of the line for id. */
    method Increment(id: int)
      requires Valid()
      modifies this`cart
      ensures cart == Incremented(old(cart), id)
      ensures Valid()
    {
      IncrementedWellFormed(cart, id);
      var found := FindLine(cart, id);
      if found.Some? {
        var k := found.value;
        cart := cart[k := cart[k].(quantity := cart[k].quantity + 1)];
      }
    }

    /** The "-" button of the line for id. */
    method Decrement(id: int)
      requires Valid()
      modifies this`cart
      ensures cart == Decremented(old(cart), id)
      ensures Valid()
    {
      DecrementedWellFormed(cart, id);
      var found := FindLine(cart, id);
      if found.None? {
        return;
      }
      var k := found.value;
      var line := cart[k].(quantity := cart[k].quantity - 1);
      cart := cart[k := line];
      if cart[k].quantity <= 0 {
        RemoveAtUpdate(old(cart), k, line);
        cart := RemoveAt(cart, k);
      }
    }

    /**
     * The checkout button: refused unless a customer is signed in, then
     * refused for an empty cart; otherwise the cart is sent as an order booked
     * to employee 1 and paid by "Credit", and emptied if the order is taken.
     */
    method Checkout(accepted: bool) returns (outcome: CheckoutOutcome)
      requires Valid()
      modifies this`cart
      ensures Valid()
      ensures outcome == NotCustomer <==> !IsCustomer(currentUser)
      ensures outcome == EmptyCart <==> IsCustomer(currentUser) && old(cart) == []
      ensures outcome.Submitted? ==> outcome.request == CheckoutRequest(currentUser.value.id, old(cart))
      ensures cart == if outcome.Submitted? && accepted then [] else old(cart)
    {
      if currentUser.None? || currentUser.value.UserType() != "Customer" {
        return NotCustomer;
      }
      if |cart| == 0 {
        return EmptyCart;
      }
      var user := currentUser.value;
      outcome := Submitted(Transactions.CreateTransactionRequest(user.id, StorefrontEmployeeId, PaymentMethod, CheckoutItems(cart)));
      if accepted {
        cart := [];
      }
    }
  }
}

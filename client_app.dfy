/**
 * The single-page shop and management console (client/app.js): the page's
 * state is the signed-in user, the cart and which sections are visible. The
 * server's replies are parameters: a login reply is the account it describes
 * or None for a refusal, and a checkout reply is whether the order was taken.
 */
module ClientApp {
  import opened Wrappers
  import opened Models
  import opened Seqs
  import opened Storefront
  import ApiAuth
  import Transactions

  const MissingCredentialsMessage := "Please enter both email and password."
  const ManagerRole := "Manager"

  // Status badge colours.
  const Gray := "#6c757d"
  const Yellow := "#ffc107"
  const Teal := "#17a2b8"
  const Blue := "#007bff"
  const Green := "#28a745"
  const Red := "#dc3545"

  /** The status names the badge knows, in their older and current spellings. */
  const KnownStatuses: set<string> :=
    {"Pending", "Confirm", "Confirmed", "Process", "Processing", "Shipped", "Done", "Completed", "Cancel", "Cancelled"}

  /** The older status names and the current names they stand for. */
  const Renamed: map<string, string> :=
    map["Confirm" := "Confirmed", "Process" := "Processing", "Done" := "Completed", "Cancel" := "Cancelled"]

  /** A status in its current spelling. */
  function Current(status: string): string {
    if status in Renamed then Renamed[status] else status
  }

  /** The status a transaction's badge shows: its own, or "Pending" when it has none. */
  function BadgeStatus(status: string): (shown: string)
    ensures shown != ""
    ensures status == "" ==> shown == "Pending"
    ensures status != "" ==> shown == status
  {
    if status == "" then "Pending" else status
  }

  /** The badge colour of a transaction's status; gray for a status it does not know. */
  function StatusColor(status: string): (color: string)
    ensures color == Gray <==> status !in KnownStatuses
  {
    if status == "Pending" then Yellow
    else if status == "Confirm" || status == "Confirmed" then Teal
    else if status == "Process" || status == "Processing" then Blue
    else if status == "Shipped" then Green
    else if status == "Done" || status == "Completed" then Green
    else if status == "Cancel" || status == "Cancelled" then Red
    else Gray
  }

  /** An older status name gets the colour of the name that replaced it. */
  lemma RenamedSameColor(status: string)
    ensures StatusColor(status) == StatusColor(Current(status))
    ensures Current(status) in KnownStatuses <==> status in KnownStatuses
  {
  }

  /** The page's globals and section visibility. */
  class Page {
    var cart: seq<CartLine>
    var currentUser: Option<Account>
    var visible: set<Section>
    var usersTabShown: bool

    /**
     * The cart is well formed, and the admin section is visible only to a
     * signed-in employee, with the Users tab shown exactly for a manager.
     */
    ghost predicate Valid()
      reads this
    {
      && WellFormed(cart)
      && (AdminSection in visible ==>
            IsEmployee(currentUser) && (usersTabShown <==> currentUser.value.role == Some(ManagerRole)))
    }

    /** The page as loaded: nobody signed in, an empty cart, and showSection("shop"). */
    constructor (usersTabShown: bool)
      ensures Valid()
      ensures cart == [] && currentUser == None && visible == {ShopSection} && this.usersTabShown == usersTabShown
    {
      cart := [];
      currentUser := None;
      visible := {};
      this.usersTabShown := usersTabShown;
      new;
      ShowSection("shop");
    }

    /**
     * showSection: exactly the sections Shown names become visible. Opening
     * the admin section as an employee shows the Users tab for a manager and
     * hides it otherwise; every other call leaves the tab as it was.
     */
    method ShowSection(section: string)
      requires WellFormed(cart)
      modifies this`visible, this`usersTabShown
      ensures Valid()
      ensures visible == Shown(section, currentUser)
      ensures usersTabShown ==
        if section == "admin" && IsEmployee(currentUser) then currentUser.value.role == Some(ManagerRole)
        else old(usersTabShown)
    {
      visible := {};
      if section == "login" {
        visible := visible + {LoginSection};
      }
      if section == "shop" {
        visible := visible + {ShopSection};
      }
      if section == "admin" {
        if currentUser.None? || currentUser.value.UserType() != "Employee" {
          visible := visible + {LoginSection};
        } else {
          visible := visible + {AdminSection};
          if currentUser.value.role == Some(ManagerRole) {
            usersTabShown := true;
          } else {
            usersTabShown := false;
          }
        }
      }
    }

    /**
     * performLogin: an empty email or password sends nothing. Otherwise the
     * request is sent; on a successful reply the account becomes the current
     * user and the page opens the admin section for an employee, the shop for
     * a customer. A refused reply changes nothing.
     */
    method PerformLogin(email: string, password: string, reply: Option<Account>)
      returns (sent: Option<ApiAuth.LoginRequest>)
      requires Valid()
      modifies this`currentUser, this`visible, this`usersTabShown
      ensures Valid()
      ensures sent.None? <==> email == "" || password == ""
      ensures sent.Some? ==> sent.value == ApiAuth.LoginRequest(email, password)
      ensures sent.None? || reply.None? ==>
        currentUser == old(currentUser) && visible == old(visible) && usersTabShown == old(usersTabShown)
      ensures sent.Some? && reply.Some? ==>
        && currentUser == reply
        && visible == (if reply.value.EmployeeAccount? then {AdminSection} else {ShopSection})
        && (reply.value.EmployeeAccount? ==> (usersTabShown <==> reply.value.role == Some(ManagerRole)))
    {
      if email == "" || password == "" {
        return None;
      }
      sent := Some(ApiAuth.LoginRequest(email, password));
      if reply.None? {
        return;
      }
      currentUser := reply;
      if reply.value.UserType() == "Employee" {
        ShowSection("admin");
      } else {
        ShowSection("shop");
      }
    }

    /** addToCart: the cart the Added function describes. */
    method AddToCart(product: Product)
      requires Valid()
      modifies this`cart
      ensures cart == Added(old(cart), product)
      ensures Valid()
    {
      AddedWellFormed(cart, product);
      var found := FindLine(cart, product.productId);
      if found.Some? {
        var k := found.value;
        cart := cart[k := cart[k].(quantity := cart[k].quantity + 1)];
      } else {
        cart := cart + [CartLine(product.productId, product.productName, product.price, 1)];
      }
    }

    /** The "+" button of the line for id. */
    method Increment(id: int)
      requires Valid()
      modifies this`cart
      ensures cart == Incremented(old(cart), id)
      ensures Valid()
    {
      IncrementedWellFormed(cart, id);
      var found := FindLine(cart, id);
      if found.Some? {
        var k := found.value;
        cart := cart[k := cart[k].(quantity := cart[k].quantity + 1)];
      }
    }

    /** The "-" button of the line for id. */
    method Decrement(id: int)
      requires Valid()
      modifies this`cart
      ensures cart == Decremented(old(cart), id)
      ensures Valid()
    {
      DecrementedWellFormed(cart, id);
      var found := FindLine(cart, id);
      if found.None? {
        return;
      }
      var k := found.value;
      var line := cart[k].(quantity := cart[k].quantity - 1);
      cart := cart[k := line];
      if cart[k].quantity <= 0 {
        RemoveAtUpdate(old(cart), k, line);
        cart := RemoveAt(cart, k);
      }
    }

    /**
     * The checkout button: refused unless a customer is signed in, then
     * refused for an empty cart; otherwise the cart is sent as an order booked
     * to employee 1 and paid by "Credit", and emptied if the order is taken.
     */
    method Checkout(accepted: bool) returns (outcome: CheckoutOutcome)
      requires Valid()
      modifies this`cart
      ensures Valid()
      ensures outcome == NotCustomer <==> !IsCustomer(currentUser)
      ensures outcome == EmptyCart <==> IsCustomer(currentUser) && old(cart) == []
      ensures outcome.Submitted? ==> outcome.request == CheckoutRequest(currentUser.value.id, old(cart))
      ensures cart == if outcome.Submitted? && accepted then [] else old(cart)
    {
      if currentUser.None? || currentUser.value.UserType() != "Customer" {
        return NotCustomer;
      }
      if |cart| == 0 {
        return EmptyCart;
      }
      var user := currentUser.value;
      var employeeId := if user.UserType() == "Employee" then user.id else StorefrontEmployeeId;
      outcome := Submitted(Transactions.CreateTransactionRequest(user.id, employeeId, PaymentMethod, CheckoutItems(cart)));
      if accepted {
        cart := [];
      }
    }
  }
}

/**
 * The rows of the shop's database tables (customer, employee, product,
 * customerPurchaseTransaction, transactionDetails) as values.
 *
 * A nullable text column is an Option<string>. The Email and Password columns
 * are declared non-null strings and are plain strings here, so a NULL stored
 * in them is represented by "". That is how the console's sign-in treats it
 * (it skips a null email and reads a null password as ""); the storefront's
 * sign-in compares in SQL, where NULL never matches, and differs there.
 */
module Models {
  import opened Wrappers
  import opened Seqs
  import opened Text
  import opened Ordering

  /** C#'s decimal: an exact number. */
  type Money = real

  /** DateTime.Now, supplied by the caller. */
  type Timestamp = int

  datatype Product = Product(
    productId: int,
    productName: string,
    category: Option<string>,
    description: Option<string>,
    price: Money,
    stockQuantity: int,
    supplier: Option<string>,
    dateAdded: Timestamp,
    lastUpdated: Timestamp)

  datatype Customer = Customer(
    customerId: int,
    firstName: Option<string>,
    lastName: Option<string>,
    email: string,
    password: string,
    address: Option<string>,
    city: Option<string>,
    state: Option<string>,
    zipcode: Option<string>,
    customerPhone: Option<string>,
    registrationDate: Timestamp)

  datatype Employee = Employee(
    employeeId: int,
    firstName: Option<string>,
    lastName: Option<string>,
    email: string,
    password: string,
    employeePhone: Option<string>,
    role: Option<string>,
    hireDate: Timestamp)

  datatype PurchaseTransaction = PurchaseTransaction(
    transactionId: int,
    customerId: int,
    employeeId: int,
    transactionDate: Timestamp,
    paymentMethod: string,
    totalAmount: Option<Money>,
    status: string)

  datatype TransactionDetail = TransactionDetail(
    transactionDetailId: int,
    transactionId: int,
    productId: int,
    quantity: int,
    unitPrice: Money,
    subtotal: Money)

  // Key columns, projected so that Seqs.IndexOf can search them.

  function ProductIds(rows: seq<Product>): (ids: seq<int>)
    ensures |ids| == |rows| && forall i :: 0 <= i < |rows| ==> ids[i] == rows[i].productId
  {
    if rows == [] then [] else [rows[0].productId] + ProductIds(rows[1..])
  }

  function CustomerIds(rows: seq<Customer>): (ids: seq<int>)
    ensures |ids| == |rows| && forall i :: 0 <= i < |rows| ==> ids[i] == rows[i].customerId
  {
    if rows == [] then [] else [rows[0].customerId] + CustomerIds(rows[1..])
  }

  function EmployeeIds(rows: seq<Employee>): (ids: seq<int>)
    ensures |ids| == |rows| && forall i :: 0 <= i < |rows| ==> ids[i] == rows[i].employeeId
  {
    if rows == [] then [] else [rows[0].employeeId] + EmployeeIds(rows[1..])
  }

  function TransactionIds(rows: seq<PurchaseTransaction>): (ids: seq<int>)
    ensures |ids| == |rows| && forall i :: 0 <= i < |rows| ==> ids[i] == rows[i].transactionId
  {
    if rows == [] then [] else [rows[0].transactionId] + TransactionIds(rows[1..])
  }

  function DetailIds(rows: seq<TransactionDetail>): (ids: seq<int>)
    ensures |ids| == |rows| && forall i :: 0 <= i < |rows| ==> ids[i] == rows[i].transactionDetailId
  {
    if rows == [] then [] else [rows[0].transactionDetailId] + DetailIds(rows[1..])
  }

  // Lookups by primary key (FindAsync, FirstOrDefault on the key), as indices.

  function ProductIndex(rows: seq<Product>, id: int): Option<nat> {
    IndexOf(ProductIds(rows), id)
  }

  function CustomerIndex(rows: seq<Customer>, id: int): Option<nat> {
    IndexOf(CustomerIds(rows), id)
  }

  function EmployeeIndex(rows: seq<Employee>, id: int): Option<nat> {
    IndexOf(EmployeeIds(rows), id)
  }

  /** The error replies of the controllers. */
  datatype Failure = NotFound | BadRequest(message: string) | Unauthorized(message: string)

  /**
   * The signed-in user a login reply describes: userType "Employee" with the
   * id, the name "First Last" and the role, or userType "Customer" with the id
   * and the name.
   */
  datatype Account =
    | EmployeeAccount(id: int, name: string, role: Option<string>)
    | CustomerAccount(id: int, name: string)
  {
    function UserType(): string {
      if EmployeeAccount? then "Employee" else "Customer"
    }
  }

  /** Every key is below the next value of the identity column. */
  predicate Below(ids: seq<int>, next: int) {
    forall x :: x in ids ==> x < next
  }

  lemma ProductIdsAppend(rows: seq<Product>, p: Product)
    ensures ProductIds(rows + [p]) == ProductIds(rows) + [p.productId]
  {
    assert forall k :: 0 <= k < |rows| ==> (rows + [p])[k] == rows[k];
  }

  lemma TransactionIdsAppend(rows: seq<PurchaseTransaction>, t: PurchaseTransaction)
    ensures TransactionIds(rows + [t]) == TransactionIds(rows) + [t.transactionId]
  {
    assert forall k :: 0 <= k < |rows| ==> (rows + [t])[k] == rows[k];
  }

  lemma DetailIdsAppend(rows: seq<TransactionDetail>, d: TransactionDetail)
    ensures DetailIds(rows + [d]) == DetailIds(rows) + [d.transactionDetailId]
  {
    assert forall k :: 0 <= k < |rows| ==> (rows + [d])[k] == rows[k];
  }

  /** Replacing a row by one with the same key keeps the key column. */
  lemma ProductIdsReplace(rows: seq<Product>, i: nat, p: Product)
    requires i < |rows| && p.productId == rows[i].productId
    ensures ProductIds(rows[i := p]) == ProductIds(rows)
  {
    assert forall k :: 0 <= k < |rows| ==> ProductIds(rows[i := p])[k] == ProductIds(rows)[k];
  }

  /** A fresh identity value above every key keeps the keys distinct and below the advanced counter. */
  lemma FreshKey(ids: seq<int>, next: int)
    requires Distinct(ids) && Below(ids, next)
    ensures Distinct(ids + [next]) && Below(ids + [next], next + 1)
  {
    assert forall i :: 0 <= i < |ids| ==> ids[i] in ids && (ids + [next])[i] == ids[i];
  }

  /** Removing a key keeps the others below the counter. */
  lemma BelowRemove(ids: seq<int>, i: nat, next: int)
    requires Below(ids, next) && i < |ids|
    ensures Below(RemoveAt(ids, i), next)
  {
    RemoveAtMultiset(ids, i);
    forall x | x in RemoveAt(ids, i) ensures x in ids {
      assert x in multiset(RemoveAt(ids, i));
    }
  }

  /** A row inserted with the next identity value keeps the keys below the advanced counter. */
  lemma BelowInsert(rows: seq<PurchaseTransaction>, t: PurchaseTransaction, next: int)
    requires Below(TransactionIds(rows), next) && t.transactionId == next
    ensures Below(TransactionIds(rows + [t]), next + 1)
  {
    var all := rows + [t];
    forall x | x in TransactionIds(all) ensures x < next + 1 {
      var i :| 0 <= i < |all| && TransactionIds(all)[i] == x;
      if i < |rows| {
        assert all[i] == rows[i] && TransactionIds(rows)[i] in TransactionIds(rows);
      }
    }
  }

  function OrEmpty(s: Option<string>): string {
    if s.Some? then s.value else ""
  }

  /** The interpolation $"{FirstName} {LastName}", where null prints as nothing. */
  function FullName(first: Option<string>, last: Option<string>): (r: string)
    ensures |r| == |OrEmpty(first)| + 1 + |OrEmpty(last)|
    ensures r[..|OrEmpty(first)|] == OrEmpty(first)
    ensures r[|OrEmpty(first)|] == ' '
    ensures r[|OrEmpty(first)| + 1..] == OrEmpty(last)
  {
    OrEmpty(first) + " " + OrEmpty(last)
  }

  /** Ordering of a nullable text column: NULL first, then ordinal order. */
  predicate OptStrLe(a: Option<string>, b: Option<string>) {
    a.None? || (b.Some? && StrLe(a.value, b.value))
  }

  /** OrderBy(LastName).ThenBy(FirstName). */
  predicate NameKeyLe(last1: Option<string>, first1: Option<string>, last2: Option<string>, first2: Option<string>) {
    OptStrLe(last1, last2) && (OptStrLe(last2, last1) ==> OptStrLe(first1, first2))
  }

  lemma OptStrLeFacts(a: Option<string>, b: Option<string>, c: Option<string>)
    ensures OptStrLe(a, b) || OptStrLe(b, a)
    ensures OptStrLe(a, b) && OptStrLe(b, c) ==> OptStrLe(a, c)
    ensures OptStrLe(a, b) && OptStrLe(b, a) ==> a == b
  {
    if a.Some? && b.Some? {
      StrLeTotal(a.value, b.value);
      if StrLe(a.value, b.value) && StrLe(b.value, a.value) {
        StrLeAntisymmetric(a.value, b.value);
      }
    }
    if a.Some? && b.Some? && c.Some? && StrLe(a.value, b.value) && StrLe(b.value, c.value) {
      StrLeTransitive(a.value, b.value, c.value);
    }
  }

  /** The last-name-then-first-name key is total and transitive. */
  lemma NameKeyFacts(l1: Option<string>, f1: Option<string>, l2: Option<string>, f2: Option<string>,
                     l3: Option<string>, f3: Option<string>)
    ensures NameKeyLe(l1, f1, l2, f2) || NameKeyLe(l2, f2, l1, f1)
    ensures NameKeyLe(l1, f1, l2, f2) && NameKeyLe(l2, f2, l3, f3) ==> NameKeyLe(l1, f1, l3, f3)
  {
    OptStrLeFacts(l1, l2, l3);
    OptStrLeFacts(l2, l3, l1);
    OptStrLeFacts(l3, l1, l2);
    OptStrLeFacts(l2, l1, l3);
    OptStrLeFacts(f1, f2, f3);
    OptStrLeFacts(f2, f1, f3);
  }

  /** Products ordered by ProductName. */
  predicate ProductNameLe(a: Product, b: Product) {
    StrLe(a.productName, b.productName)
  }

  lemma ProductNameOrder()
    ensures TotalPreorder(ProductNameLe)
  {
    forall a: Product, b: Product ensures ProductNameLe(a, b) || ProductNameLe(b, a) {
      StrLeTotal(a.productName, b.productName);
    }
    forall a: Product, b: Product, c: Product | ProductNameLe(a, b) && ProductNameLe(b, c)
      ensures ProductNameLe(a, c)
    {
      StrLeTransitive(a.productName, b.productName, c.productName);
    }
  }
}

/**
 * The customer and employee tables of the management console's API: the
 * listings ordered by name, and create, update and delete with the
 * case-insensitive check that an email is not already registered.
 */
module Users {
  import opened Wrappers
  import opened Seqs
  import opened Text
  import opened Ordering
  import opened Models

  const EmailRequiredMessage := "Email is required."
  const EmailTakenMessage := "Email already registered."

  // Listings

  /** OrderBy(c => c.LastName).ThenBy(c => c.FirstName) on customers. */
  predicate CustomerNameLe(a: Customer, b: Customer) {
    NameKeyLe(a.lastName, a.firstName, b.lastName, b.firstName)
  }

  /** The same key on employees. */
  predicate EmployeeNameLe(a: Employee, b: Employee) {
    NameKeyLe(a.lastName, a.firstName, b.lastName, b.firstName)
  }

  lemma CustomerNameOrder()
    ensures TotalPreorder(CustomerNameLe)
  {
    forall a: Customer, b: Customer ensures CustomerNameLe(a, b) || CustomerNameLe(b, a) {
      NameKeyFacts(a.lastName, a.firstName, b.lastName, b.firstName, a.lastName, a.firstName);
    }
    forall a: Customer, b: Customer, c: Customer | CustomerNameLe(a, b) && CustomerNameLe(b, c)
      ensures CustomerNameLe(a, c)
    {
      NameKeyFacts(a.lastName, a.firstName, b.lastName, b.firstName, c.lastName, c.firstName);
    }
  }

  lemma EmployeeNameOrder()
    ensures TotalPreorder(EmployeeNameLe)
  {
    forall a: Employee, b: Employee ensures EmployeeNameLe(a, b) || EmployeeNameLe(b, a) {
      NameKeyFacts(a.lastName, a.firstName, b.lastName, b.firstName, a.lastName, a.firstName);
    }
    forall a: Employee, b: Employee, c: Employee | EmployeeNameLe(a, b) && EmployeeNameLe(b, c)
      ensures EmployeeNameLe(a, c)
    {
      NameKeyFacts(a.lastName, a.firstName, b.lastName, b.firstName, c.lastName, c.firstName);
    }
  }

  /** GetCustomers: every customer, by last name and then first name. */
  function GetCustomers(rows: seq<Customer>): (r: seq<Customer>)
    ensures multiset(r) == multiset(rows)
    ensures SortedBy(r, CustomerNameLe)
  {
    CustomerNameOrder();
    SortBy(rows, CustomerNameLe)
  }

  /** GetEmployees: every employee, by last name and then first name. */
  function GetEmployees(rows: seq<Employee>): (r: seq<Employee>)
    ensures multiset(r) == multiset(rows)
    ensures SortedBy(r, EmployeeNameLe)
  {
    EmployeeNameOrder();
    SortBy(rows, EmployeeNameLe)
  }

  // Emails

  function CustomerEmails(rows: seq<Customer>): (emails: seq<string>)
    ensures |emails| == |rows| && forall k :: 0 <= k < |rows| ==> emails[k] == rows[k].email
  {
    if rows == [] then [] else [rows[0].email] + CustomerEmails(rows[1..])
  }

  function EmployeeEmails(rows: seq<Employee>): (emails: seq<string>)
    ensures |emails| == |rows| && forall k :: 0 <= k < |rows| ==> emails[k] == rows[k].email
  {
    if rows == [] then [] else [rows[0].email] + EmployeeEmails(rows[1..])
  }

  /** No two rows have emails that are equal ignoring case. */
  predicate UniqueIgnoringCase(emails: seq<string>) {
    forall i, j :: 0 <= i < j < |emails| ==> Fold(emails[i]) != Fold(emails[j])
  }

  /** Some row other than the one keyed except has an email equal to email ignoring case. */
  predicate Taken(emails: seq<string>, keys: seq<int>, email: string, except: Option<int>)
    requires |keys| == |emails|
  {
    exists k :: 0 <= k < |emails| && Fold(emails[k]) == Fold(email) && Some(keys[k]) != except
  }

  /**
   * FirstOrDefault(e => e.Email.ToLower() == email.ToLower() && e.ID != except):
   * the first such row, or None when there is none.
   */
  function FindEmail(emails: seq<string>, keys: seq<int>, email: string, except: Option<int>): (r: Option<nat>)
    requires |keys| == |emails|
    ensures r.None? <==> !Taken(emails, keys, email, except)
    ensures r.Some? ==> r.value < |emails| && Fold(emails[r.value]) == Fold(email) && Some(keys[r.value]) != except
  {
    if emails == [] then None
    else if Fold(emails[0]) == Fold(email) && Some(keys[0]) != except then Some(0)
    else
      match FindEmail(emails[1..], keys[1..], email, except)
      case None =>
        assert forall k :: 1 <= k < |emails| ==> emails[k] == emails[1..][k - 1] && keys[k] == keys[1..][k - 1];
        None
      case Some(k) => Some(k + 1)
  }

  /** Adding an email not taken, ignoring case, keeps the emails unique. */
  lemma AddKeepsUnique(emails: seq<string>, keys: seq<int>, email: string)
    requires |keys| == |emails| && UniqueIgnoringCase(emails) && !Taken(emails, keys, email, None)
    ensures UniqueIgnoringCase(emails + [email])
  {
    var all := emails + [email];
    forall i, j | 0 <= i < j < |all| ensures Fold(all[i]) != Fold(all[j]) {
      if j == |emails| {
        assert all[i] == emails[i];
      } else {
        assert all[i] == emails[i] && all[j] == emails[j];
      }
    }
  }

  /**
   * Changing the email of row i keeps the emails unique when the new email is
   * the old one up to case, or when no other row has it ignoring case.
   */
  lemma ChangeKeepsUnique(emails: seq<string>, keys: seq<int>, i: nat, email: string)
    requires |keys| == |emails| && i < |emails| && Distinct(keys) && UniqueIgnoringCase(emails)
    requires Fold(emails[i]) == Fold(email) || !Taken(emails, keys, email, Some(keys[i]))
    ensures UniqueIgnoringCase(emails[i := email])
  {
    var all := emails[i := email];
    forall a, b | 0 <= a < b < |all| ensures Fold(all[a]) != Fold(all[b]) {
      if a == i {
        assert all[b] == emails[b] && keys[b] != keys[i];
      } else if b == i {
        assert all[a] == emails[a] && keys[a] != keys[i];
      }
    }
  }

  /** Removing a row keeps the emails unique. */
  lemma RemoveKeepsUnique(emails: seq<string>, i: nat)
    requires i < |emails| && UniqueIgnoringCase(emails)
    ensures UniqueIgnoringCase(RemoveAt(emails, i))
  {
    var r := RemoveAt(emails, i);
    forall a, b | 0 <= a < b < |r| ensures Fold(r[a]) != Fold(r[b]) {
      var a', b' := if a < i then a else a + 1, if b < i then b else b + 1;
      assert r[a] == emails[a'] && r[b] == emails[b'] && a' < b';
    }
  }

  // Rows after UpdateCustomer and UpdateEmployee

  /**
   * Names, email, password, address, city, state, zipcode and phone come from
   * the request; CustomerID and RegistrationDate stay.
   */
  function RevisedCustomer(c: Customer, updated: Customer): (r: Customer)
    ensures r.customerId == c.customerId && r.registrationDate == c.registrationDate
    ensures r.firstName == updated.firstName && r.lastName == updated.lastName
    ensures r.email == updated.email && r.password == updated.password
    ensures r.address == updated.address && r.city == updated.city && r.state == updated.state
    ensures r.zipcode == updated.zipcode && r.customerPhone == updated.customerPhone
  {
    c.(firstName := updated.firstName, lastName := updated.lastName, email := updated.email,
       password := updated.password, address := updated.address, city := updated.city,
       state := updated.state, zipcode := updated.zipcode, customerPhone := updated.customerPhone)
  }

  /** Names, email, password, phone and role come from the request; EmployeeID and HireDate stay. */
  function RevisedEmployee(e: Employee, updated: Employee): (r: Employee)
    ensures r.employeeId == e.employeeId && r.hireDate == e.hireDate
    ensures r.firstName == updated.firstName && r.lastName == updated.lastName
    ensures r.email == updated.email && r.password == updated.password
    ensures r.employeePhone == updated.employeePhone && r.role == updated.role
  {
    e.(firstName := updated.firstName, lastName := updated.lastName, email := updated.email,
       password := updated.password, employeePhone := updated.employeePhone, role := updated.role)
  }

  // Columns after the row operations

  lemma CustomerColumnsAppend(rows: seq<Customer>, c: Customer)
    ensures CustomerIds(rows + [c]) == CustomerIds(rows) + [c.customerId]
    ensures CustomerEmails(rows + [c]) == CustomerEmails(rows) + [c.email]
  {
    assert forall k :: 0 <= k < |rows| ==> (rows + [c])[k] == rows[k];
  }

  lemma CustomerColumnsReplace(rows: seq<Customer>, i: nat, c: Customer)
    requires i < |rows| && c.customerId == rows[i].customerId
    ensures CustomerIds(rows[i := c]) == CustomerIds(rows)
    ensures CustomerEmails(rows[i := c]) == CustomerEmails(rows)[i := c.email]
  {
    assert forall k :: 0 <= k < |rows| ==> CustomerIds(rows[i := c])[k] == CustomerIds(rows)[k];
  }

  lemma CustomerIdsRemove(rows: seq<Customer>, i: nat)
    requires i < |rows|
    ensures CustomerIds(RemoveAt(rows, i)) == RemoveAt(CustomerIds(rows), i)
  {
    var after := RemoveAt(rows, i);
    var ids, ids' := CustomerIds(after), RemoveAt(CustomerIds(rows), i);
    forall k | 0 <= k < |ids| ensures ids[k] == ids'[k] {
      if k < i {
        assert ids[k] == after[k].customerId == rows[k].customerId;
      } else {
        assert ids[k] == after[k].customerId == rows[k + 1].customerId;
      }
    }
  }

  lemma CustomerEmailsRemove(rows: seq<Customer>, i: nat)
    requires i < |rows|
    ensures CustomerEmails(RemoveAt(rows, i)) == RemoveAt(CustomerEmails(rows), i)
  {
    var after := RemoveAt(rows, i);
    var emails, emails' := CustomerEmails(after), RemoveAt(CustomerEmails(rows), i);
    forall k | 0 <= k < |emails| ensures emails[k] == emails'[k] {
      if k < i {
        assert emails[k] == after[k].email == rows[k].email;
      } else {
        assert emails[k] == after[k].email == rows[k + 1].email;
      }
    }
  }

  lemma EmployeeColumnsAppend(rows: seq<Employee>, e: Employee)
    ensures EmployeeIds(rows + [e]) == EmployeeIds(rows) + [e.employeeId]
    ensures EmployeeEmails(rows + [e]) == EmployeeEmails(rows) + [e.email]
  {
    assert forall k :: 0 <= k < |rows| ==> (rows + [e])[k] == rows[k];
  }

  lemma EmployeeColumnsReplace(rows: seq<Employee>, i: nat, e: Employee)
    requires i < |rows| && e.employeeId == rows[i].employeeId
    ensures EmployeeIds(rows[i := e]) == EmployeeIds(rows)
    ensures EmployeeEmails(rows[i := e]) == EmployeeEmails(rows)[i := e.email]
  {
    assert forall k :: 0 <= k < |rows| ==> EmployeeIds(rows[i := e])[k] == EmployeeIds(rows)[k];
  }

  lemma EmployeeIdsRemove(rows: seq<Employee>, i: nat)
    requires i < |rows|
    ensures EmployeeIds(RemoveAt(rows, i)) == RemoveAt(EmployeeIds(rows), i)
  {
    var after := RemoveAt(rows, i);
    var ids, ids' := EmployeeIds(after), RemoveAt(EmployeeIds(rows), i);
    forall k | 0 <= k < |ids| ensures ids[k] == ids'[k] {
      if k < i {
        assert ids[k] == after[k].employeeId == rows[k].employeeId;
      } else {
        assert ids[k] == after[k].employeeId == rows[k + 1].employeeId;
      }
    }
  }

  lemma EmployeeEmailsRemove(rows: seq<Employee>, i: nat)
    requires i < |rows|
    ensures EmployeeEmails(RemoveAt(rows, i)) == RemoveAt(EmployeeEmails(rows), i)
  {
    var after := RemoveAt(rows, i);
    var emails, emails' := EmployeeEmails(after), RemoveAt(EmployeeEmails(rows), i);
    forall k | 0 <= k < |emails| ensures emails[k] == emails'[k] {
      if k < i {
        assert emails[k] == after[k].email == rows[k].email;
      } else {
        assert emails[k] == after[k].email == rows[k + 1].email;
      }
    }
  }

  /** Deleting a row keeps the keys distinct. */
  lemma CustomerRemoveKeepsDistinct(rows: seq<Customer>, i: nat)
    requires i < |rows| && Distinct(CustomerIds(rows))
    ensures Distinct(CustomerIds(RemoveAt(rows, i)))
  {
    CustomerIdsRemove(rows, i);
    RemoveKeepsDistinct(CustomerIds(rows), i);
  }

  /** Deleting a row keeps the keys below the counter. */
  lemma CustomerRemoveKeepsBelow(rows: seq<Customer>, i: nat, next: int)
    requires i < |rows| && Below(CustomerIds(rows), next)
    ensures Below(CustomerIds(RemoveAt(rows, i)), next)
  {
    CustomerIdsRemove(rows, i);
    BelowRemove(CustomerIds(rows), i, next);
  }

  /** Deleting a row keeps unique emails unique. */
  lemma CustomerRemoveKeepsUnique(rows: seq<Customer>, i: nat)
    requires i < |rows| && UniqueIgnoringCase(CustomerEmails(rows))
    ensures UniqueIgnoringCase(CustomerEmails(RemoveAt(rows, i)))
  {
    CustomerEmailsRemove(rows, i);
    RemoveKeepsUnique(CustomerEmails(rows), i);
  }

  /** Deleting a row keeps the keys distinct. */
  lemma EmployeeRemoveKeepsDistinct(rows: seq<Employee>, i: nat)
    requires i < |rows| && Distinct(EmployeeIds(rows))
    ensures Distinct(EmployeeIds(RemoveAt(rows, i)))
  {
    EmployeeIdsRemove(rows, i);
    RemoveKeepsDistinct(EmployeeIds(rows), i);
  }

  /** Deleting a row keeps the keys below the counter. */
  lemma EmployeeRemoveKeepsBelow(rows: seq<Employee>, i: nat, next: int)
    requires i < |rows| && Below(EmployeeIds(rows), next)
    ensures Below(EmployeeIds(RemoveAt(rows, i)), next)
  {
    EmployeeIdsRemove(rows, i);
    BelowRemove(EmployeeIds(rows), i, next);
  }

  /** Deleting a row keeps unique emails unique. */
  lemma EmployeeRemoveKeepsUnique(rows: seq<Employee>, i: nat)
    requires i < |rows| && UniqueIgnoringCase(EmployeeEmails(rows))
    ensures UniqueIgnoringCase(EmployeeEmails(RemoveAt(rows, i)))
  {
    EmployeeEmailsRemove(rows, i);
    RemoveKeepsUnique(EmployeeEmails(rows), i);
  }

  /**
   * Deleting the customer found for id takes away exactly that row: no row with
   * that key remains, and every row with another key is still there.
   */
  lemma DeleteCustomerRemovesExactly(rows: seq<Customer>, id: int)
    requires Distinct(CustomerIds(rows)) && CustomerIndex(rows, id).Some?
    ensures var after := RemoveAt(rows, CustomerIndex(rows, id).value);
      && id !in CustomerIds(after)
      && (forall x :: x in rows && x.customerId != id ==> x in after)
      && multiset(after) + multiset{rows[CustomerIndex(rows, id).value]} == multiset(rows)
  {
    var i := CustomerIndex(rows, id).value;
    var after := RemoveAt(rows, i);
    CustomerIdsRemove(rows, i);
    RemoveAtMultiset(rows, i);
    forall x | x in rows && x.customerId != id ensures x in after {
      var k :| 0 <= k < |rows| && rows[k] == x;
      if k < i {
        assert after[k] == x;
      } else {
        assert k != i && after[k - 1] == x;
      }
    }
    forall k | 0 <= k < |after| ensures CustomerIds(after)[k] != id {
      if k < i {
        assert CustomerIds(after)[k] == CustomerIds(rows)[k];
      } else {
        assert CustomerIds(after)[k] == CustomerIds(rows)[k + 1];
      }
    }
  }

  /**
   * Deleting the employee found for id takes away exactly that row: no row with
   * that key remains, and every row with another key is still there.
   */
  lemma DeleteEmployeeRemovesExactly(rows: seq<Employee>, id: int)
    requires Distinct(EmployeeIds(rows)) && EmployeeIndex(rows, id).Some?
    ensures var after := RemoveAt(rows, EmployeeIndex(rows, id).value);
      && id !in EmployeeIds(after)
      && (forall x :: x in rows && x.employeeId != id ==> x in after)
      && multiset(after) + multiset{rows[EmployeeIndex(rows, id).value]} == multiset(rows)
  {
    var i := EmployeeIndex(rows, id).value;
    var after := RemoveAt(rows, i);
    EmployeeIdsRemove(rows, i);
    RemoveAtMultiset(rows, i);
    forall x | x in rows && x.employeeId != id ensures x in after {
      var k :| 0 <= k < |rows| && rows[k] == x;
      if k < i {
        assert after[k] == x;
      } else {
        assert k != i && after[k - 1] == x;
      }
    }
    forall k | 0 <= k < |after| ensures EmployeeIds(after)[k] != id {
      if k < i {
        assert EmployeeIds(after)[k] == EmployeeIds(rows)[k];
      } else {
        assert EmployeeIds(after)[k] == EmployeeIds(rows)[k + 1];
      }
    }
  }

  /**
   * The customer and employee tables as the API's UsersController sees them,
   * with the next values of their identity columns.
   */
  class UsersController {
    var customers: seq<Customer>
    var employees: seq<Employee>
    var nextCustomerId: int
    var nextEmployeeId: int

    ghost predicate Valid()
      reads this
    {
      && Distinct(CustomerIds(customers)) && Below(CustomerIds(customers), nextCustomerId)
      && Distinct(EmployeeIds(employees)) && Below(EmployeeIds(employees), nextEmployeeId)
    }

    constructor (customers: seq<Customer>, employees: seq<Employee>, nextCustomerId: int, nextEmployeeId: int)
      requires Distinct(CustomerIds(customers)) && Below(CustomerIds(customers), nextCustomerId)
      requires Distinct(EmployeeIds(employees)) && Below(EmployeeIds(employees), nextEmployeeId)
      ensures Valid()
      ensures this.customers == customers && this.employees == employees
      ensures this.nextCustomerId == nextCustomerId && this.nextEmployeeId == nextEmployeeId
    {
      this.customers := customers;
      this.employees := employees;
      this.nextCustomerId := nextCustomerId;
      this.nextEmployeeId := nextEmployeeId;
    }

    /**
     * CreateCustomer: a blank email is refused, then an email already
     * registered ignoring case; otherwise the customer is added with a new key
     * and today's RegistrationDate.
     */
    method CreateCustomer(customer: Customer, now: Timestamp) returns (r: Result<Customer, Failure>)
      requires Valid()
      modifies this
      ensures Valid() && employees == old(employees) && nextEmployeeId == old(nextEmployeeId)
      ensures IsBlank(customer.email) ==>
        r == Err(BadRequest(EmailRequiredMessage)) && customers == old(customers) && nextCustomerId == old(nextCustomerId)
      ensures !IsBlank(customer.email) && Taken(CustomerEmails(old(customers)), CustomerIds(old(customers)), customer.email, None) ==>
        r == Err(BadRequest(EmailTakenMessage)) && customers == old(customers) && nextCustomerId == old(nextCustomerId)
      ensures !IsBlank(customer.email) && !Taken(CustomerEmails(old(customers)), CustomerIds(old(customers)), customer.email, None) ==>
        var created := customer.(customerId := old(nextCustomerId), registrationDate := now);
        && r == Ok(created)
        && customers == old(customers) + [created]
        && nextCustomerId == old(nextCustomerId) + 1
      ensures UniqueIgnoringCase(CustomerEmails(old(customers))) ==> UniqueIgnoringCase(CustomerEmails(customers))
    {
      if IsBlank(customer.email) {
        return Err(BadRequest(EmailRequiredMessage));
      }
      var existing := FindEmail(CustomerEmails(customers), CustomerIds(customers), customer.email, None);
      if existing.Some? {
        return Err(BadRequest(EmailTakenMessage));
      }
      var created := customer.(customerId := nextCustomerId, registrationDate := now);
      CustomerColumnsAppend(customers, created);
      FreshKey(CustomerIds(customers), nextCustomerId);
      if UniqueIgnoringCase(CustomerEmails(customers)) {
        AddKeepsUnique(CustomerEmails(customers), CustomerIds(customers), created.email);
      }
      customers := customers + [created];
      nextCustomerId := nextCustomerId + 1;
      r := Ok(created);
    }

    /** CreateEmployee: as CreateCustomer, on the employee table, setting HireDate. */
    method CreateEmployee(employee: Employee, now: Timestamp) returns (r: Result<Employee, Failure>)
      requires Valid()
      modifies this
      ensures Valid() && customers == old(customers) && nextCustomerId == old(nextCustomerId)
      ensures IsBlank(employee.email) ==>
        r == Err(BadRequest(EmailRequiredMessage)) && employees == old(employees) && nextEmployeeId == old(nextEmployeeId)
      ensures !IsBlank(employee.email) && Taken(EmployeeEmails(old(employees)), EmployeeIds(old(employees)), employee.email, None) ==>
        r == Err(BadRequest(EmailTakenMessage)) && employees == old(employees) && nextEmployeeId == old(nextEmployeeId)
      ensures !IsBlank(employee.email) && !Taken(EmployeeEmails(old(employees)), EmployeeIds(old(employees)), employee.email, None) ==>
        var created := employee.(employeeId := old(nextEmployeeId), hireDate := now);
        && r == Ok(created)
        && employees == old(employees) + [created]
        && nextEmployeeId == old(nextEmployeeId) + 1
      ensures UniqueIgnoringCase(EmployeeEmails(old(employees))) ==> UniqueIgnoringCase(EmployeeEmails(employees))
    {
      if IsBlank(employee.email) {
        return Err(BadRequest(EmailRequiredMessage));
      }
      var existing := FindEmail(EmployeeEmails(employees), EmployeeIds(employees), employee.email, None);
      if existing.Some? {
        return Err(BadRequest(EmailTakenMessage));
      }
      var created := employee.(employeeId := nextEmployeeId, hireDate := now);
      EmployeeColumnsAppend(employees, created);
      FreshKey(EmployeeIds(employees), nextEmployeeId);
      if UniqueIgnoringCase(EmployeeEmails(employees)) {
        AddKeepsUnique(EmployeeEmails(employees), EmployeeIds(employees), created.email);
      }
      employees := employees + [created];
      nextEmployeeId := nextEmployeeId + 1;
      r := Ok(created);
    }

    /** DeleteCustomer: NotFound for an unknown key; otherwise that row is removed. */
    method DeleteCustomer(id: int) returns (r: Result<(), Failure>)
      requires Valid()
      modifies this`customers
      ensures Valid()
      ensures CustomerIndex(old(customers), id).None? ==> r == Err(NotFound) && customers == old(customers)
      ensures CustomerIndex(old(customers), id).Some? ==>
        r == Ok(()) && customers == RemoveAt(old(customers), CustomerIndex(old(customers), id).value)
      ensures UniqueIgnoringCase(CustomerEmails(old(customers))) ==> UniqueIgnoringCase(CustomerEmails(customers))
    {
      var found := CustomerIndex(customers, id);
      if found.None? {
        return Err(NotFound);
      }
      var i := found.value;
      CustomerRemoveKeepsDistinct(customers, i);
      CustomerRemoveKeepsBelow(customers, i, nextCustomerId);
      if UniqueIgnoringCase(CustomerEmails(customers)) {
        CustomerRemoveKeepsUnique(customers, i);
      }
      var after := RemoveAt(customers, i);
      assert Distinct(CustomerIds(after)) && Below(CustomerIds(after), nextCustomerId);
      customers := after;
      r := Ok(());
    }

    /** DeleteEmployee: NotFound for an unknown key; otherwise that row is removed. */
    method DeleteEmployee(id: int) returns (r: Result<(), Failure>)
      requires Valid()
      modifies this`employees
      ensures Valid()
      ensures EmployeeIndex(old(employees), id).None? ==> r == Err(NotFound) && employees == old(employees)
      ensures EmployeeIndex(old(employees), id).Some? ==>
        r == Ok(()) && employees == RemoveAt(old(employees), EmployeeIndex(old(employees), id).value)
      ensures UniqueIgnoringCase(EmployeeEmails(old(employees))) ==> UniqueIgnoringCase(EmployeeEmails(employees))
    {
      var found := EmployeeIndex(employees, id);
      if found.None? {
        return Err(NotFound);
      }
      var i := found.value;
      EmployeeRemoveKeepsDistinct(employees, i);
      EmployeeRemoveKeepsBelow(employees, i, nextEmployeeId);
      if UniqueIgnoringCase(EmployeeEmails(employees)) {
        EmployeeRemoveKeepsUnique(employees, i);
      }
      var after := RemoveAt(employees, i);
      assert Distinct(EmployeeIds(after)) && Below(EmployeeIds(after), nextEmployeeId);
      employees := after;
      r := Ok(());
    }

    /**
     * UpdateCustomer: a blank email is refused first, then an unknown key.
     * When the email changes other than in case, it is refused if another
     * customer has it ignoring case. Otherwise the row is revised in place.
     */
    method UpdateCustomer(id: int, updated: Customer) returns (r: Result<Customer, Failure>)
      requires Valid()
      modifies this
      ensures Valid() && employees == old(employees)
      ensures nextCustomerId == old(nextCustomerId) && nextEmployeeId == old(nextEmployeeId)
      ensures IsBlank(updated.email) ==>
        r == Err(BadRequest(EmailRequiredMessage)) && customers == old(customers)
      ensures !IsBlank(updated.email) && CustomerIndex(old(customers), id).None? ==>
        r == Err(NotFound) && customers == old(customers)
      ensures !IsBlank(updated.email) && CustomerIndex(old(customers), id).Some? ==>
        var i := CustomerIndex(old(customers), id).value;
        if Fold(old(customers)[i].email) != Fold(updated.email)
           && Taken(CustomerEmails(old(customers)), CustomerIds(old(customers)), updated.email, Some(id))
        then r == Err(BadRequest(EmailTakenMessage)) && customers == old(customers)
        else
          && customers == old(customers)[i := RevisedCustomer(old(customers)[i], updated)]
          && r == Ok(customers[i])
      ensures UniqueIgnoringCase(CustomerEmails(old(customers))) ==> UniqueIgnoringCase(CustomerEmails(customers))
    {
      if IsBlank(updated.email) {
        return Err(BadRequest(EmailRequiredMessage));
      }
      var found := CustomerIndex(customers, id);
      if found.None? {
        return Err(NotFound);
      }
      var i := found.value;
      if Fold(customers[i].email) != Fold(updated.email) {
        var existing := FindEmail(CustomerEmails(customers), CustomerIds(customers), updated.email, Some(id));
        if existing.Some? {
          return Err(BadRequest(EmailTakenMessage));
        }
      }
      var row := RevisedCustomer(customers[i], updated);
      CustomerColumnsReplace(customers, i, row);
      if UniqueIgnoringCase(CustomerEmails(customers)) {
        ChangeKeepsUnique(CustomerEmails(customers), CustomerIds(customers), i, updated.email);
      }
      customers := customers[i := row];
      r := Ok(row);
    }

    /** UpdateEmployee: as UpdateCustomer, on the employee table. */
    method UpdateEmployee(id: int, updated: Employee) returns (r: Result<Employee, Failure>)
      requires Valid()
      modifies this
      ensures Valid() && customers == old(customers)
      ensures nextCustomerId == old(nextCustomerId) && nextEmployeeId == old(nextEmployeeId)
      ensures IsBlank(updated.email) ==>
        r == Err(BadRequest(EmailRequiredMessage)) && employees == old(employees)
      ensures !IsBlank(updated.email) && EmployeeIndex(old(employees), id).None? ==>
        r == Err(NotFound) && employees == old(employees)
      ensures !IsBlank(updated.email) && EmployeeIndex(old(employees), id).Some? ==>
        var i := EmployeeIndex(old(employees), id).value;
        if Fold(old(employees)[i].email) != Fold(updated.email)
           && Taken(EmployeeEmails(old(employees)), EmployeeIds(old(employees)), updated.email, Some(id))
        then r == Err(BadRequest(EmailTakenMessage)) && employees == old(employees)
        else
          && employees == old(employees)[i := RevisedEmployee(old(employees)[i], updated)]
          && r == Ok(employees[i])
      ensures UniqueIgnoringCase(EmployeeEmails(old(employees))) ==> UniqueIgnoringCase(EmployeeEmails(employees))
    {
      if IsBlank(updated.email) {
        return Err(BadRequest(EmailRequiredMessage));
      }
      var found := EmployeeIndex(employees, id);
      if found.None? {
        return Err(NotFound);
      }
      var i := found.value;
      if Fold(employees[i].email) != Fold(updated.email) {
        var existing := FindEmail(EmployeeEmails(employees), EmployeeIds(employees), updated.email, Some(id));
        if existing.Some? {
          return Err(BadRequest(EmailTakenMessage));
        }
      }
      var row := RevisedEmployee(employees[i], updated);
      EmployeeColumnsReplace(employees, i, row);
      if UniqueIgnoringCase(EmployeeEmails(employees)) {
        ChangeKeepsUnique(EmployeeEmails(employees), EmployeeIds(employees), i, updated.email);
      }
      employees := employees[i := row];
      r := Ok(row);
    }
  }
}

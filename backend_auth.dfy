/**
 * Sign-in of the storefront's backend: the caller names the table by
 * UserType, and the first row of that table whose email and password both
 * equal the request's exactly is the account.
 */
module BackendAuth {
  import opened Wrappers
  import opened Seqs
  import opened Models

  /** UserType defaults to "Customer" when the request leaves it out. */
  const DefaultUserType := "Customer"

  datatype LoginRequest = LoginRequest(email: string, password: string, userType: string)

  function EmployeeCredentials(rows: seq<Employee>): (creds: seq<(string, string)>)
    ensures |creds| == |rows| && forall k :: 0 <= k < |rows| ==> creds[k] == (rows[k].email, rows[k].password)
  {
    if rows == [] then [] else [(rows[0].email, rows[0].password)] + EmployeeCredentials(rows[1..])
  }

  function CustomerCredentials(rows: seq<Customer>): (creds: seq<(string, string)>)
    ensures |creds| == |rows| && forall k :: 0 <= k < |rows| ==> creds[k] == (rows[k].email, rows[k].password)
  {
    if rows == [] then [] else [(rows[0].email, rows[0].password)] + CustomerCredentials(rows[1..])
  }

  /**
   * Login: for UserType "Employee" the first employee with exactly this email
   * and password, for any other UserType the first such customer; None is
   * the bare 401 Unauthorized reply.
   */
  function Login(employees: seq<Employee>, customers: seq<Customer>, request: LoginRequest): (r: Option<Account>)
    ensures r.Some? ==> (r.value.EmployeeAccount? <==> request.userType == "Employee")
  {
    if request.userType == "Employee" then
      match IndexOf(EmployeeCredentials(employees), (request.email, request.password))
      case Some(k) => Some(EmployeeAccount(employees[k].employeeId, FullName(employees[k].firstName, employees[k].lastName), employees[k].role))
      case None => None
    else
      match IndexOf(CustomerCredentials(customers), (request.email, request.password))
      case Some(k) => Some(CustomerAccount(customers[k].customerId, FullName(customers[k].firstName, customers[k].lastName)))
      case None => None
  }

  /** Some row of the table the request names has exactly its email and password. */
  predicate Registered(employees: seq<Employee>, customers: seq<Customer>, request: LoginRequest) {
    if request.userType == "Employee" then
      exists k :: 0 <= k < |employees| && employees[k].email == request.email && employees[k].password == request.password
    else
      exists k :: 0 <= k < |customers| && customers[k].email == request.email && customers[k].password == request.password
  }

  /** The reply is Unauthorized exactly when no row of the named table has both credentials. */
  lemma LoginSucceedsIff(employees: seq<Employee>, customers: seq<Customer>, request: LoginRequest)
    ensures Login(employees, customers, request).Some? <==> Registered(employees, customers, request)
  {
    if request.userType == "Employee" {
      if Registered(employees, customers, request) {
        var k :| 0 <= k < |employees| && employees[k].email == request.email && employees[k].password == request.password;
        assert EmployeeCredentials(employees)[k] == (request.email, request.password);
      }
    } else {
      if Registered(employees, customers, request) {
        var k :| 0 <= k < |customers| && customers[k].email == request.email && customers[k].password == request.password;
        assert CustomerCredentials(customers)[k] == (request.email, request.password);
      }
    }
  }

  /**
   * A successful reply is an employee account, with the role, exactly when
   * UserType is "Employee", and describes a row of that table with both
   * credentials.
   */
  lemma LoginAccount(employees: seq<Employee>, customers: seq<Customer>, request: LoginRequest)
    requires Login(employees, customers, request).Some?
    ensures Login(employees, customers, request).value.EmployeeAccount? <==> request.userType == "Employee"
    ensures request.userType == "Employee" ==>
      exists k ::
        && 0 <= k < |employees| && employees[k].email == request.email && employees[k].password == request.password
        && Login(employees, customers, request).value
           == EmployeeAccount(employees[k].employeeId, FullName(employees[k].firstName, employees[k].lastName), employees[k].role)
    ensures request.userType != "Employee" ==>
      exists k ::
        && 0 <= k < |customers| && customers[k].email == request.email && customers[k].password == request.password
        && Login(employees, customers, request).value
           == CustomerAccount(customers[k].customerId, FullName(customers[k].firstName, customers[k].lastName))
  {
    if request.userType == "Employee" {
      var k := IndexOf(EmployeeCredentials(employees), (request.email, request.password)).value;
      assert EmployeeCredentials(employees)[k] == (employees[k].email, employees[k].password);
    } else {
      var k := IndexOf(CustomerCredentials(customers), (request.email, request.password)).value;
      assert CustomerCredentials(customers)[k] == (customers[k].email, customers[k].password);
    }
  }

  /** UserType "Employee" consults only the employees, and any other UserType only the customers. */
  lemma LoginReadsOneTable(employees: seq<Employee>, customers: seq<Customer>,
                           otherEmployees: seq<Employee>, otherCustomers: seq<Customer>, request: LoginRequest)
    ensures request.userType == "Employee" ==>
      Login(employees, customers, request) == Login(employees, otherCustomers, request)
    ensures request.userType != "Employee" ==>
      Login(employees, customers, request) == Login(otherEmployees, customers, request)
  {
  }

  /** A request that leaves UserType out signs in as a customer, never as an employee. */
  lemma DefaultIsCustomer(employees: seq<Employee>, customers: seq<Customer>, email: string, password: string)
    ensures var r := Login(employees, customers, LoginRequest(email, password, DefaultUserType));
      r.Some? ==> r.value.CustomerAccount?
  {
    assert DefaultUserType != "Employee" by {
      assert DefaultUserType[0] != "Employee"[0];
    }
  }
}

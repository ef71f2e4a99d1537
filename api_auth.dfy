/**
 * Sign-in and sign-up of the management console's API. Login looks the email
 * up among the employees first and then among the customers, comparing the
 * trimmed stored email with the trimmed request email ignoring case, and the
 * password exactly. Register adds a customer unless one has exactly that email.
 */
module ApiAuth {
  import opened Wrappers
  import opened Seqs
  import opened Text
  import opened Models
  import opened Users

  const RegisteredMessage := "Registration successful!"

  /** The refusals of Login: 400 for missing credentials, 401 otherwise. */
  datatype LoginError = CredentialsRequired | InvalidPassword | NoAccount
  {
    function Status(): int {
      if CredentialsRequired? then 400 else 401
    }

    function Message(): string {
      match this
      case CredentialsRequired => "Email and password are required."
      case InvalidPassword => "Invalid password for this email."
      case NoAccount => "No account found with this email address."
    }
  }

  datatype LoginRequest = LoginRequest(email: string, password: string)

  /** The reply to a registration: userType "Customer", the new id and the name, with RegisteredMessage. */
  datatype Registration = Registration(id: int, name: string)

  /**
   * The key an email is compared by: trimmed, then case-folded, so that two
   * emails are equal under OrdinalIgnoreCase after Trim() exactly when their
   * keys are equal.
   */
  function MatchKey(s: string): (key: string)
  {
    Fold(Trim(s))
  }

  /** Only blank text has the empty key. */
  lemma MatchKeyBlank(s: string)
    ensures MatchKey(s) == [] <==> IsBlank(s)
  {
    TrimFacts(s);
  }

  /** The keys of a column of emails, one per row. */
  function MatchKeys(emails: seq<string>): (keys: seq<string>)
    ensures |keys| == |emails|
  {
    if emails == [] then [] else [MatchKey(emails[0])] + MatchKeys(emails[1..])
  }

  lemma {:induction false} MatchKeysAt(emails: seq<string>, k: nat)
    requires k < |emails|
    ensures MatchKeys(emails)[k] == MatchKey(emails[k])
  {
    if k > 0 {
      MatchKeysAt(emails[1..], k - 1);
    }
  }

  /** The key search finds the first row whose email has the key. */
  lemma FirstKey(emails: seq<string>, key: string, k: nat)
    requires k < |emails| && MatchKey(emails[k]) == key
    requires forall j :: 0 <= j < k ==> MatchKey(emails[j]) != key
    ensures IndexOf(MatchKeys(emails), key) == Some(k)
  {
    var keys := MatchKeys(emails);
    forall j | 0 <= j <= k ensures keys[j] == MatchKey(emails[j]) {
      MatchKeysAt(emails, j);
    }
    assert keys[k] in keys;
  }

  /** Some employee's stored email matches the request email. */
  predicate EmployeeEmailKnown(employees: seq<Employee>, email: string) {
    exists k :: 0 <= k < |employees| && MatchKey(employees[k].email) == MatchKey(email)
  }

  /** Some customer's stored email matches the request email. */
  predicate CustomerEmailKnown(customers: seq<Customer>, email: string) {
    exists k :: 0 <= k < |customers| && MatchKey(customers[k].email) == MatchKey(email)
  }

  /**
   * The lookup once the credentials are present, by the key of the request
   * email: the first employee whose email has that key decides (its password,
   * exactly, or InvalidPassword), then the first such customer likewise; with
   * neither, NoAccount.
   */
  function LookUp(employees: seq<Employee>, customers: seq<Customer>, key: string, password: string): (r: Result<Account, LoginError>)
    ensures r != Err(CredentialsRequired)
  {
    match IndexOf(MatchKeys(EmployeeEmails(employees)), key)
    case Some(k) =>
      var e := employees[k];
      if e.password == password then Ok(EmployeeAccount(e.employeeId, FullName(e.firstName, e.lastName), e.role))
      else Err(InvalidPassword)
    case None =>
      match IndexOf(MatchKeys(CustomerEmails(customers)), key)
      case Some(k) =>
        var c := customers[k];
        if c.password == password then Ok(CustomerAccount(c.customerId, FullName(c.firstName, c.lastName)))
        else Err(InvalidPassword)
      case None => Err(NoAccount)
  }

  /** Login: CredentialsRequired for a blank email or password, else the lookup by the email's key. */
  function Login(employees: seq<Employee>, customers: seq<Customer>, request: LoginRequest): (r: Result<Account, LoginError>)
    ensures r == Err(CredentialsRequired) <==> IsBlank(request.email) || IsBlank(request.password)
  {
    if IsBlank(request.email) || IsBlank(request.password) then Err(CredentialsRequired)
    else LookUp(employees, customers, MatchKey(request.email), request.password)
  }

  lemma EmployeeKeyIff(employees: seq<Employee>, email: string)
    ensures IndexOf(MatchKeys(EmployeeEmails(employees)), MatchKey(email)).Some? <==> EmployeeEmailKnown(employees, email)
  {
    var keys := MatchKeys(EmployeeEmails(employees));
    if EmployeeEmailKnown(employees, email) {
      var k :| 0 <= k < |employees| && MatchKey(employees[k].email) == MatchKey(email);
      MatchKeysAt(EmployeeEmails(employees), k);
    }
  }

  lemma CustomerKeyIff(customers: seq<Customer>, email: string)
    ensures IndexOf(MatchKeys(CustomerEmails(customers)), MatchKey(email)).Some? <==> CustomerEmailKnown(customers, email)
  {
    var keys := MatchKeys(CustomerEmails(customers));
    if CustomerEmailKnown(customers, email) {
      var k :| 0 <= k < |customers| && MatchKey(customers[k].email) == MatchKey(email);
      MatchKeysAt(CustomerEmails(customers), k);
    }
  }

  /** With the credentials present, the NoAccount reply comes exactly when neither table has a matching email. */
  lemma LoginNoAccount(employees: seq<Employee>, customers: seq<Customer>, request: LoginRequest)
    requires !IsBlank(request.email) && !IsBlank(request.password)
    ensures Login(employees, customers, request) == Err(NoAccount) <==>
      !EmployeeEmailKnown(employees, request.email) && !CustomerEmailKnown(customers, request.email)
  {
    EmployeeKeyIff(employees, request.email);
    CustomerKeyIff(customers, request.email);
  }

  /** An employee reply describes an employee whose email matches and whose password is exactly the one given. */
  lemma LoginEmployeeAccount(employees: seq<Employee>, customers: seq<Customer>, request: LoginRequest)
    requires Login(employees, customers, request).Ok? && Login(employees, customers, request).value.EmployeeAccount?
    ensures exists k ::
      && 0 <= k < |employees| && MatchKey(employees[k].email) == MatchKey(request.email)
      && employees[k].password == request.password
      && Login(employees, customers, request).value
         == EmployeeAccount(employees[k].employeeId, FullName(employees[k].firstName, employees[k].lastName), employees[k].role)
  {
    var k := IndexOf(MatchKeys(EmployeeEmails(employees)), MatchKey(request.email)).value;
    MatchKeysAt(EmployeeEmails(employees), k);
  }

  /**
   * A customer reply comes only when no employee's email matches, and
   * describes a customer whose email matches and whose password is exactly the
   * one given.
   */
  lemma LoginCustomerAccount(employees: seq<Employee>, customers: seq<Customer>, request: LoginRequest)
    requires Login(employees, customers, request).Ok? && Login(employees, customers, request).value.CustomerAccount?
    ensures !EmployeeEmailKnown(employees, request.email)
    ensures exists k ::
      && 0 <= k < |customers| && MatchKey(customers[k].email) == MatchKey(request.email)
      && customers[k].password == request.password
      && Login(employees, customers, request).value == CustomerAccount(customers[k].customerId, FullName(customers[k].firstName, customers[k].lastName))
  {
    EmployeeKeyIff(employees, request.email);
    var k := IndexOf(MatchKeys(CustomerEmails(customers)), MatchKey(request.email)).value;
    MatchKeysAt(CustomerEmails(customers), k);
  }

  /**
   * With the credentials present, the first employee whose email matches
   * decides the reply: its account when the password is exactly the one given,
   * InvalidPassword otherwise.
   */
  lemma LoginFirstEmployeeDecides(employees: seq<Employee>, customers: seq<Customer>, request: LoginRequest, k: nat)
    requires !IsBlank(request.email) && !IsBlank(request.password)
    requires k < |employees| && MatchKey(employees[k].email) == MatchKey(request.email)
    requires forall j :: 0 <= j < k ==> MatchKey(employees[j].email) != MatchKey(request.email)
    ensures Login(employees, customers, request) ==
      if employees[k].password == request.password
      then Ok(EmployeeAccount(employees[k].employeeId, FullName(employees[k].firstName, employees[k].lastName), employees[k].role))
      else Err(InvalidPassword)
  {
    FirstKey(EmployeeEmails(employees), MatchKey(request.email), k);
  }

  /**
   * With the credentials present and no employee's email matching, the first
   * customer whose email matches decides the reply: its account when the
   * password is exactly the one given, InvalidPassword otherwise.
   */
  lemma LoginFirstCustomerDecides(employees: seq<Employee>, customers: seq<Customer>, request: LoginRequest, k: nat)
    requires !IsBlank(request.email) && !IsBlank(request.password)
    requires !EmployeeEmailKnown(employees, request.email)
    requires k < |customers| && MatchKey(customers[k].email) == MatchKey(request.email)
    requires forall j :: 0 <= j < k ==> MatchKey(customers[j].email) != MatchKey(request.email)
    ensures Login(employees, customers, request) ==
      if customers[k].password == request.password
      then Ok(CustomerAccount(customers[k].customerId, FullName(customers[k].firstName, customers[k].lastName)))
      else Err(InvalidPassword)
  {
    EmployeeKeyIff(employees, request.email);
    FirstKey(CustomerEmails(customers), MatchKey(request.email), k);
  }

  /** Once an employee's email matches, the customers are never consulted. */
  lemma EmployeesFirst(employees: seq<Employee>, customers: seq<Customer>, others: seq<Customer>, request: LoginRequest)
    requires EmployeeEmailKnown(employees, request.email)
    ensures Login(employees, customers, request) == Login(employees, others, request)
  {
    EmployeeKeyIff(employees, request.email);
  }

  /** The request email is trimmed before the lookup: sending it trimmed changes nothing. */
  lemma LoginTrimsEmail(employees: seq<Employee>, customers: seq<Customer>, request: LoginRequest)
    ensures Login(employees, customers, request.(email := Trim(request.email))) == Login(employees, customers, request)
  {
    TrimIdempotent(request.email);
    TrimBlank(request.email);
  }

  /** Request emails with the same key, that is equal ignoring case after trimming, sign in alike. */
  lemma LoginIgnoresCase(employees: seq<Employee>, customers: seq<Customer>, request: LoginRequest, email: string)
    requires MatchKey(email) == MatchKey(request.email)
    ensures Login(employees, customers, request.(email := email)) == Login(employees, customers, request)
  {
    MatchKeyBlank(email);
    MatchKeyBlank(request.email);
  }

  /**
   * The password is compared exactly: once a request signs in, the same email
   * with any other password that is not blank is refused as InvalidPassword.
   */
  lemma LoginPasswordExact(employees: seq<Employee>, customers: seq<Customer>, request: LoginRequest, password: string)
    requires Login(employees, customers, request).Ok?
    requires password != request.password && !IsBlank(password)
    ensures Login(employees, customers, request.(password := password)) == Err(InvalidPassword)
  {
  }

  /** The customer table as the API's AuthController sees it for Register. */
  class AuthController {
    var customers: seq<Customer>
    var nextCustomerId: int

    ghost predicate Valid()
      reads this
    {
      Distinct(CustomerIds(customers)) && Below(CustomerIds(customers), nextCustomerId)
    }

    constructor (customers: seq<Customer>, nextCustomerId: int)
      requires Distinct(CustomerIds(customers)) && Below(CustomerIds(customers), nextCustomerId)
      ensures Valid() && this.customers == customers && this.nextCustomerId == nextCustomerId
    {
      this.customers := customers;
      this.nextCustomerId := nextCustomerId;
    }

    /**
     * Register: refused when a customer has exactly this email (ordinal ==,
     * not ignoring case); otherwise the customer is added with a new key and
     * today's RegistrationDate, and the reply names it.
     */
    method Register(customer: Customer, now: Timestamp) returns (r: Result<Registration, Failure>)
      requires Valid()
      modifies this
      ensures Valid()
      ensures customer.email in CustomerEmails(old(customers)) ==>
        r == Err(BadRequest(EmailTakenMessage)) && customers == old(customers) && nextCustomerId == old(nextCustomerId)
      ensures customer.email !in CustomerEmails(old(customers)) ==>
        var created := customer.(customerId := old(nextCustomerId), registrationDate := now);
        && customers == old(customers) + [created]
        && nextCustomerId == old(nextCustomerId) + 1
        && r == Ok(Registration(created.customerId, FullName(created.firstName, created.lastName)))
      ensures Distinct(CustomerEmails(old(customers))) ==> Distinct(CustomerEmails(customers))
    {
      if IndexOf(CustomerEmails(customers), customer.email).Some? {
        return Err(BadRequest(EmailTakenMessage));
      }
      var created := customer.(customerId := nextCustomerId, registrationDate := now);
      CustomerColumnsAppend(customers, created);
      FreshKey(CustomerIds(customers), nextCustomerId);
      customers := customers + [created];
      nextCustomerId := nextCustomerId + 1;
      r := Ok(Registration(created.customerId, FullName(created.firstName, created.lastName)));
    }
  }

  /**
   * Because Register compares emails exactly, it admits an email that differs
   * from a registered one only in case, after which the customer emails are no
   * longer unique ignoring case (the property UsersController keeps).
   */
  lemma RegisterAdmitsCaseVariant()
    ensures var ann := Customer(1, None, None, "ann@x.io", "pw", None, None, None, None, None, 0);
      && "Ann@x.io" !in CustomerEmails([ann])
      && UniqueIgnoringCase(CustomerEmails([ann]))
      && !UniqueIgnoringCase(CustomerEmails([ann, ann.(customerId := 2, email := "Ann@x.io")]))
  {
    var ann := Customer(1, None, None, "ann@x.io", "pw", None, None, None, None, None, 0);
    assert CustomerEmails([ann]) == ["ann@x.io"];
    assert CustomerEmails([ann, ann.(customerId := 2, email := "Ann@x.io")]) == ["ann@x.io", "Ann@x.io"];
    assert Fold("ann@x.io") == Fold("Ann@x.io");
  }
}

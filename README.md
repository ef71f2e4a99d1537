# CrimsonSports back office, modelled in Dafny

CrimsonSports is a sporting-goods shop. It has two ASP.NET Core services over one
MySQL database and two browser front ends:

- **backend**: the storefront's API. It has the product catalogue, order placement
  (`POST api/Transactions`) and a sign-in where the caller names the account type.
- **api**: the management console's API. It has the inventory views, customer and
  employee administration, and the console's sign-in and sign-up.
- **client/app.js**: the management console page.
- **frontend/app.js**: the storefront page.

This project models the controllers and the page logic and proves what they promise:

- **Data:** database tables are sequences of row values. Each controller is a class
  whose fields are the tables it reads and writes, plus the next value of each
  identity column.
- **Order placement:** `Transactions.TransactionsController.CreateTransaction` runs
  one unit of work. It inserts a header, then walks the cart. Unknown products are
  skipped. The first product short of stock rolls everything back. Otherwise each
  item takes its quantity off stock and records a line with a price snapshot.
  The loop is proved against the specification function `Transactions.Place`.
  Lemmas about `Place` give the rest:
  - the stock accounting;
  - failure exactly when some item is short;
  - the name in the failure message;
  - the recorded lines.
- **Catalogue, inventory and users:** listings are a filter plus a sort (a sorted
  permutation of the selected rows). Create, update and delete keep keys distinct and
  below the identity counter. The users controller also keeps emails unique
  ignoring case.
- **Sign-in:** the console's sign-in trims and case-folds the email, tries
  employees before customers and compares the password exactly. The storefront's
  sign-in looks in the one table the request names and compares both credentials
  exactly.
- **Browser pages:** both pages are classes (`ClientApp.Page`, `FrontendApp.Page`)
  holding the signed-in user, the cart and the visible sections. Their methods are
  proved against the cart functions of `Storefront`. The server's replies are
  method parameters.

Modules:

- `Wrappers`, `Seqs`, `Ordering`, `Text` (common.dfy): Option and Result, sequence
  search and removal, the sort, and trimming, case folding and ordering of text.
- `Models` (models.dfy): the rows, the key columns, the account a sign-in
  describes, and the sort keys.
- `Transactions`, `Products`, `Inventory`, `Users`, `ApiAuth`, `BackendAuth`: one
  per controller.
- `Storefront`, `ClientApp`, `FrontendApp`: the cart shared by both pages, then each
  page.

Two behaviours of the code worth knowing:

- **Register and case.** `AuthController.Register` (api/Controllers/AuthController.cs:164-165)
  compares emails with `==`, and the model reads that as exact comparison
  (`ApiAuth.AuthController.Register`). `ApiAuth.RegisterAdmitsCaseVariant` shows the
  consequence: an email differing only in case is admitted, which breaks the
  case-insensitive uniqueness that `Users.UsersController` keeps. Under MySQL's usual
  case-insensitive collation the database comparison would ignore case, so this is
  not logged as a finding.
- **Sign-in replies.** The console's Login has three refusals, and the model keeps
  them apart (`ApiAuth.LoginError`): 400 for a missing email or password, 401 for an
  email no account has, and 401 for a wrong password.

## Model

| member | source | states |
|---|---|---|
| Transactions.TransactionsController.CreateTransaction | backend/Controllers/TransactionsController.cs:34-88 | An empty item list is refused and nothing changes. If `Place` fails, the reply names the short product and every table and counter is as before (rollback). Otherwise stock becomes `Place`'s rows, one header with the next key and the lines' total is added, the detail rows are appended with fresh keys, and the reply is the header key and total. Product, transaction and detail keys each stay distinct, and transaction and detail keys stay below their counters. |
| Transactions.TransactionsController.RecordItems | backend/Controllers/TransactionsController.cs:57-81 | The loop over the items computes exactly `Place`. On failure it returns the first short product's name. On success it returns the total of the lines, the stock `Place` leaves, and one detail row per line with consecutive fresh keys. |
| Transactions.TransactionsController.constructor | backend/Data/AppDbContext.cs:21-29 | Stands for the three tables as the database holds them, with their key configuration: the given products, transactions and details, each table with distinct keys, and each identity counter above every key of its table. |
| Transactions.Place | backend/Controllers/TransactionsController.cs:57-81 | The specification of the loop over the items. A successful outcome has as many product rows as before and at most one line per item. Its other properties are the `Place…` lemmas below. |
| Transactions.TotalAppend | backend/Controllers/TransactionsController.cs:74-80 | The running total grows by each line's price × quantity. |
| Transactions.PlaceRecordsLines | backend/Controllers/TransactionsController.cs:57-75 | A successful order records exactly one line per item whose product exists, in item order, at that product's price. Unknown products are skipped. |
| Transactions.LinesForIgnoresStock | backend/Controllers/TransactionsController.cs:59-75 | Which lines are recorded does not depend on stock quantities. |
| Transactions.PlaceOnlyChangesStock | backend/Controllers/TransactionsController.cs:79 | A successful order changes nothing in the product table but stock quantities. |
| Transactions.PlaceStock | backend/Controllers/TransactionsController.cs:57-81 | On success, each product's stock falls by exactly the total quantity ordered of it. Products the order does not name keep their stock. |
| Transactions.PlaceStockNonNegative | backend/Controllers/TransactionsController.cs:62-66 | On success, no product the order names is left with negative stock. |
| Transactions.PlaceFailsIff | backend/Controllers/TransactionsController.cs:62-66 | The order fails if and only if some item asks for more than the stock left after the items before it. |
| Transactions.PlaceFailureNames | backend/Controllers/TransactionsController.cs:62-66 | A failed order names the product of the first short item. |
| Transactions.ShortShift | backend/Controllers/TransactionsController.cs:57-81 | Whether a later item is short, judged from the start, is the same as judged after the first item's decrement. |
| Transactions.PlaceFirstItem | backend/Controllers/TransactionsController.cs:59-79 | A short first item stops the order with its name. Otherwise the first item's line comes before the rest. |
| Transactions.OrderedUnmentioned | backend/Controllers/TransactionsController.cs:57-81 | A product no item names has 0 ordered. |
| Transactions.PlaceSkip | backend/Controllers/TransactionsController.cs:59-60 | An item whose product is unknown is skipped. |
| Transactions.PlaceShortAt | backend/Controllers/TransactionsController.cs:62-66 | An item whose product has less stock than it asks for ends placement with that product's name. |
| Transactions.PlaceTake | backend/Controllers/TransactionsController.cs:68-80 | An item with enough stock adds its line and takes its quantity off stock. |
| Transactions.PlaceExample | backend/Controllers/TransactionsController.cs:34-88 | With A at 10.00 (stock 5) and B at 20.00 (stock 2), the order A×3, B×2 costs 70.00 and leaves stocks 2 and 0. |
| Transactions.ShortExample | backend/Controllers/TransactionsController.cs:62-66 | With A at stock 1, an order of A×2 fails naming A. |
| Transactions.DetailsAppend | backend/Controllers/TransactionsController.cs:68-77 | Recording one more line appends one detail row with the next key, the transaction's key, the product, the quantity, the unit price and the subtotal. |
| Transactions.DetailsBelow | backend/Controllers/TransactionsController.cs:68-77 | Appending the detail rows keeps every detail key below the advanced identity counter. |
| Transactions.DetailsDistinct | backend/Controllers/TransactionsController.cs:68-77 | Appending the detail rows, numbered from a counter above every old key, keeps the detail keys distinct. |
| Transactions.SameButStockIds | backend/Controllers/TransactionsController.cs:79 | Changing only stock keeps the product key column. |
| Products.GetProducts | backend/Controllers/ProductsController.cs:21-37 | The listing is exactly the rows passing the active filters, each as often as in the table, sorted by name. A blank or missing filter takes no part. |
| Products.SearchHits | backend/Controllers/ProductsController.cs:25-28 | With an active search, every listed name contains the search text at some position. |
| Products.NoFilterListsAll | backend/Controllers/ProductsController.cs:21-37 | With no active filter, the listing is a permutation of the whole table. |
| Products.GetProduct | backend/Controllers/ProductsController.cs:41-46 | NotFound if and only if no row has the key. Otherwise the reply is a row with that key. |
| Products.Revised | backend/Controllers/ProductsController.cs:67-73 | An update takes name, category, description, price, stock and supplier from the request. It keeps the key and DateAdded and sets LastUpdated to now. |
| Products.RemoveIds | backend/Controllers/ProductsController.cs:83-88 | Deleting a row removes its key from the key column and keeps the others in order. |
| Products.DeleteRemovesExactly | backend/Controllers/ProductsController.cs:81-89 | Deleting the row for a key leaves no row with that key and keeps every other row. The table loses exactly that one row. |
| Products.ProductsController.constructor | backend/Data/AppDbContext.cs:23 | Stands for the product table with its primary key: it starts with distinct keys below the identity counter. |
| Products.ProductsController.CreateProduct | backend/Controllers/ProductsController.cs:50-58 | The product is appended with the next key and both dates set to now. Keys stay distinct and below the counter. |
| Products.ProductsController.UpdateProduct | backend/Controllers/ProductsController.cs:62-77 | NotFound for an unknown key, with no change. Otherwise that row alone is replaced by its revision, which is the reply. |
| Products.ProductsController.DeleteProduct | backend/Controllers/ProductsController.cs:81-89 | NotFound for an unknown key, with no change. Otherwise that row alone is removed. |
| Models.ProductNameOrder | backend/Controllers/ProductsController.cs:35 | Ordering by product name is total and transitive. |
| Models.NameKeyFacts | api/Controllers/UsersController.cs:23-26 | Ordering by last name, then first name (NULL first), is total and transitive. |
| Models.FreshKey | backend/Controllers/ProductsController.cs:55-56 | A row inserted with the identity counter's value keeps keys distinct and below the advanced counter. |
| Models.BelowRemove | backend/Controllers/ProductsController.cs:86-87 | Removing a key keeps the others below the counter. |
| Models.BelowInsert | backend/Controllers/TransactionsController.cs:43-50 | Inserting the transaction header with the next key keeps every key below the advanced counter. |
| Models.FullName | api/Controllers/AuthController.cs:62-68 | The displayed name is the first name, then one space, then the last name, with NULL printing as nothing. |
| Ordering.SortBy | backend/Controllers/ProductsController.cs:35 | The sorted rows are a permutation of the input, in ascending order of the key. |
| Inventory.GetInventory | api/Controllers/InventoryController.cs:21-27 | Every product, as a permutation of the table, sorted by name. |
| Inventory.GetLowStock | api/Controllers/InventoryController.cs:31-38 | Exactly the products with stock at most the threshold (10 by default), each as often as in the table, ascending by stock. |
| Inventory.StockOrder | api/Controllers/InventoryController.cs:35 | Ordering by stock quantity is total and transitive. |
| Inventory.InventoryController.constructor | api/Data/AppDbContext.cs:23 | Stands for the product table with its primary key: it starts with distinct keys. |
| Inventory.InventoryController.UpdateStock | api/Controllers/InventoryController.cs:42-52 | NotFound for an unknown key, with no change. Otherwise that product's stock becomes the given quantity (no range check) and LastUpdated becomes now. Nothing else changes. |
| Inventory.UpdateStockEffect | api/Controllers/InventoryController.cs:44-49 | After the update the key still finds the same row, which has the new stock. Every other row is as before. |
| Users.GetCustomers | api/Controllers/UsersController.cs:21-28 | Every customer, as a permutation of the table, sorted by last name and then first name. |
| Users.GetEmployees | api/Controllers/UsersController.cs:32-39 | Every employee, as a permutation of the table, sorted by last name and then first name. |
| Users.CustomerNameOrder | api/Controllers/UsersController.cs:23-26 | The customers' name key is a total preorder. |
| Users.EmployeeNameOrder | api/Controllers/UsersController.cs:34-37 | The employees' name key is a total preorder. |
| Users.FindEmail | api/Controllers/UsersController.cs:132-133 | Finds nothing if and only if no row other than the excepted key has the email ignoring case. A found row has the email ignoring case and is not the excepted row. |
| Users.AddKeepsUnique | api/Controllers/UsersController.cs:51-61 | Adding an email no row has, ignoring case, keeps the emails unique ignoring case. |
| Users.ChangeKeepsUnique | api/Controllers/UsersController.cs:137-148 | Changing a row's email keeps the emails unique ignoring case, when the change is only in case or no other row has the new email. |
| Users.RemoveKeepsUnique | api/Controllers/UsersController.cs:95-99 | Removing a row keeps the emails unique ignoring case. |
| Users.RevisedCustomer | api/Controllers/UsersController.cs:140-148 | Names, email, password, address, city, state, zipcode and phone come from the request. The key and RegistrationDate stay. |
| Users.RevisedEmployee | api/Controllers/UsersController.cs:177-182 | Names, email, password, phone and role come from the request. The key and HireDate stay. |
| Users.CustomerColumnsAppend | api/Controllers/UsersController.cs:59-61 | Appending a customer appends its key and email to the columns. |
| Users.CustomerColumnsReplace | api/Controllers/UsersController.cs:140-148 | Revising a customer keeps the key column and replaces just its email. |
| Users.CustomerIdsRemove | api/Controllers/UsersController.cs:95-99 | Deleting a customer removes just its key from the key column. |
| Users.CustomerEmailsRemove | api/Controllers/UsersController.cs:95-99 | Deleting a customer removes just its email from the email column. |
| Users.EmployeeColumnsAppend | api/Controllers/UsersController.cs:84-86 | Appending an employee appends its key and email to the columns. |
| Users.EmployeeColumnsReplace | api/Controllers/UsersController.cs:177-182 | Revising an employee keeps the key column and replaces just its email. |
| Users.EmployeeIdsRemove | api/Controllers/UsersController.cs:108-112 | Deleting an employee removes just its key from the key column. |
| Users.EmployeeEmailsRemove | api/Controllers/UsersController.cs:108-112 | Deleting an employee removes just its email from the email column. |
| Users.CustomerRemoveKeepsDistinct | api/Controllers/UsersController.cs:95-99 | Deleting a customer keeps the keys distinct. |
| Users.CustomerRemoveKeepsBelow | api/Controllers/UsersController.cs:95-99 | Deleting a customer keeps the keys below the counter. |
| Users.CustomerRemoveKeepsUnique | api/Controllers/UsersController.cs:95-99 | Deleting a customer keeps the emails unique ignoring case. |
| Users.EmployeeRemoveKeepsDistinct | api/Controllers/UsersController.cs:108-112 | Deleting an employee keeps the keys distinct. |
| Users.EmployeeRemoveKeepsBelow | api/Controllers/UsersController.cs:108-112 | Deleting an employee keeps the keys below the counter. |
| Users.EmployeeRemoveKeepsUnique | api/Controllers/UsersController.cs:108-112 | Deleting an employee keeps the emails unique ignoring case. |
| Users.DeleteCustomerRemovesExactly | api/Controllers/UsersController.cs:93-102 | Deleting the customer for a key leaves no row with that key and keeps every other row. The table loses exactly that row. |
| Users.DeleteEmployeeRemovesExactly | api/Controllers/UsersController.cs:106-115 | Deleting the employee for a key leaves no row with that key and keeps every other row. The table loses exactly that row. |
| Users.UsersController.constructor | api/Data/AppDbContext.cs:21-22 | Stands for the customer and employee tables with their primary keys: both start with distinct keys below their counters. |
| Users.UsersController.CreateCustomer | api/Controllers/UsersController.cs:43-64 | A blank email is refused. Otherwise an email a customer already has, ignoring case, is refused. Otherwise the customer is appended with the next key and RegistrationDate now. Refusals change nothing. Emails unique ignoring case stay so. |
| Users.UsersController.CreateEmployee | api/Controllers/UsersController.cs:68-89 | The same on the employee table, with HireDate now. |
| Users.UsersController.DeleteCustomer | api/Controllers/UsersController.cs:93-102 | NotFound for an unknown key, with no change. Otherwise that row is removed. Unique emails stay unique. |
| Users.UsersController.DeleteEmployee | api/Controllers/UsersController.cs:106-115 | NotFound for an unknown key, with no change. Otherwise that row is removed. Unique emails stay unique. |
| Users.UsersController.UpdateCustomer | api/Controllers/UsersController.cs:119-152 | A blank email is refused first, then an unknown key. An email changed other than in case is refused if another customer has it ignoring case. Otherwise the row alone is revised. Unique emails stay unique. |
| Users.UsersController.UpdateEmployee | api/Controllers/UsersController.cs:156-186 | The same on the employee table. |
| Text.TrimFacts | api/Controllers/AuthController.cs:36-37 | A trimmed text is empty exactly when the text is blank. Otherwise it starts and ends with a non-space. |
| Text.TrimIdempotent | api/Controllers/AuthController.cs:36-37 | Trimming twice is trimming once. |
| Text.ContainsIff | backend/Controllers/ProductsController.cs:27 | A name contains the search text exactly when the text occurs at some position. |
| Text.FoldChars | api/Controllers/UsersController.cs:52 | Case folding lowers each ASCII capital and keeps every other character. |
| ApiAuth.MatchKeyBlank | api/Controllers/AuthController.cs:36-37 | Only a blank email has the empty match key. |
| ApiAuth.MatchKeysAt | api/Controllers/AuthController.cs:51-53 | Each row's match key is its email trimmed and folded. |
| ApiAuth.LookUp | api/Controllers/AuthController.cs:51-151 | The lookup never yields the missing-credentials refusal. |
| ApiAuth.Login | api/Controllers/AuthController.cs:26-158 | The 400 missing-credentials reply comes if and only if the email or password is blank. |
| ApiAuth.EmployeeKeyIff | api/Controllers/AuthController.cs:51-53 | The key search finds an employee if and only if some employee's trimmed email equals the trimmed request email ignoring case. |
| ApiAuth.CustomerKeyIff | api/Controllers/AuthController.cs:95-97 | The same for customers. |
| ApiAuth.LoginNoAccount | api/Controllers/AuthController.cs:137-151 | With credentials present, the unknown-email 401 comes exactly when neither table has a matching email. |
| ApiAuth.LoginEmployeeAccount | api/Controllers/AuthController.cs:51-68 | An employee reply describes an employee whose email matches and whose password is exactly the one given, with that employee's id, full name and role. |
| ApiAuth.LoginCustomerAccount | api/Controllers/AuthController.cs:95-111 | A customer reply comes only when no employee matches, and describes a customer whose email matches and whose password is exactly the one given. |
| ApiAuth.EmployeesFirst | api/Controllers/AuthController.cs:51-88 | Once an employee's email matches, the customer table does not affect the reply. |
| ApiAuth.LoginTrimsEmail | api/Controllers/AuthController.cs:36-37 | Trimming the request email first changes nothing. |
| ApiAuth.LoginIgnoresCase | api/Controllers/AuthController.cs:51-53 | Request emails equal ignoring case after trimming sign in alike. |
| ApiAuth.FirstKey | api/Controllers/AuthController.cs:51-53 | The key search finds the first row whose trimmed, folded email equals the key. |
| ApiAuth.LoginFirstEmployeeDecides | api/Controllers/AuthController.cs:51-88 | With both credentials present, the first employee whose email matches decides the reply: its account (id, full name, role) when the password is exactly the one given, the wrong-password 401 otherwise. |
| ApiAuth.LoginFirstCustomerDecides | api/Controllers/AuthController.cs:93-128 | With both credentials present and no employee matching, the first customer whose email matches decides the reply: its account (id, full name) when the password is exactly the one given, the wrong-password 401 otherwise. |
| ApiAuth.LoginPasswordExact | api/Controllers/AuthController.cs:59-60 | Once a request signs in, the same email with any other non-blank password is refused for a wrong password. |
| ApiAuth.AuthController.constructor | api/Data/AppDbContext.cs:21 | Stands for the customer table with its primary key: it starts with distinct keys below the counter. |
| ApiAuth.AuthController.Register | api/Controllers/AuthController.cs:161-183 | Refused if a customer has exactly this email, with no change. Otherwise the customer is appended with the next key and RegistrationDate now, and the reply carries its id and full name. Exactly-distinct emails stay so. |
| ApiAuth.RegisterAdmitsCaseVariant | api/Controllers/AuthController.cs:164-170 | An email differing from a registered one only in case is admitted, and the emails are then no longer unique ignoring case. |
| BackendAuth.EmployeeCredentials | backend/Controllers/AuthController.cs:30-31 | Each employee's email and password pair, in table order. |
| BackendAuth.Login | backend/Controllers/AuthController.cs:26-57 | A successful reply is an employee account exactly when UserType is "Employee". Its full behaviour is stated by the three lemmas below. |
| BackendAuth.LoginSucceedsIff | backend/Controllers/AuthController.cs:26-57 | The reply is 401 if and only if no row of the table the request names has exactly its email and password. |
| BackendAuth.LoginAccount | backend/Controllers/AuthController.cs:30-55 | A successful reply is an employee account exactly when UserType is "Employee", and it describes a row of that table with both credentials. |
| BackendAuth.LoginReadsOneTable | backend/Controllers/AuthController.cs:28-55 | UserType "Employee" consults only the employees, and any other UserType only the customers. |
| BackendAuth.DefaultIsCustomer | backend/Controllers/AuthController.cs:22 | A request without UserType never signs in as an employee. |
| Storefront.CheckoutItems | client/app.js:364-367 | The order items are the cart's lines in order, with their product keys and quantities. |
| Storefront.CheckoutRequest | client/app.js:369-377 | The order is booked to the signed-in customer and employee 1, paid by "Credit", with the cart as items. |
| Storefront.Added | client/app.js:280-291 | addToCart keeps the product column when the product already has a line, and otherwise appends the product to it. |
| Storefront.Incremented | client/app.js:318-326 | "+" keeps the product column, and changes nothing when the product has no line. |
| Storefront.Decremented | client/app.js:329-340 | "-" keeps the number of lines or drops one, and changes nothing when the product has no line. |
| Storefront.AddedWellFormed | client/app.js:280-291 | Adding a product keeps the cart free of duplicate products and of quantities below 1. |
| Storefront.IncrementedWellFormed | client/app.js:318-326 | "+" keeps the cart well formed. |
| Storefront.DecrementedWellFormed | client/app.js:329-340 | "-" keeps the cart well formed, dropping a line that reaches 0. |
| Storefront.AddedQuantity | client/app.js:280-291 | Adding a product raises its quantity by one and leaves every other product's quantity as it was. |
| Storefront.IncrementedQuantity | client/app.js:318-326 | "+" raises the product's quantity by one when it has a line and changes nothing else. |
| Storefront.DecrementedQuantity | client/app.js:329-340 | In a well-formed cart, "-" lowers the product's quantity by one, to 0 when its line goes, and changes nothing else. |
| Storefront.DecrementedAt | client/app.js:329-340 | "-" on the product's line sets that product's quantity one lower and leaves the others. |
| Storefront.DecrementDropsLine | client/app.js:336-338 | "-" on a line of quantity 1 leaves the product with quantity 0. |
| Storefront.DecrementDropsOnlyLine | client/app.js:336-338 | Dropping that line leaves every other product's quantity. |
| Storefront.DecrementKeepsLine | client/app.js:329-340 | "-" on a line above 1 lowers just that quantity. |
| Storefront.SetQuantity | client/app.js:318-340 | Setting the quantity on the line found for a product changes that product's quantity only. |
| Storefront.RemovedLineGone | client/app.js:336-338 | After a line is removed, its product has quantity 0. |
| Storefront.RemoveOther | client/app.js:336-338 | Removing one product's line keeps another product's quantity. |
| Storefront.RemoveOtherPresent | client/app.js:336-338 | The same, for a product with a line. |
| Storefront.RemoveOtherAbsent | client/app.js:336-338 | The same, for a product without a line. |
| Storefront.DecrementUndoesAdd | client/app.js:280-340 | In a well-formed cart, "-" undoes adding a product, whether it had a line or not. |
| Storefront.AddIsIncrement | client/app.js:280-326 | For a product already in the cart, adding it again is the "+" button. |
| Storefront.CheckoutItemsValid | client/app.js:364-367 | A well-formed cart checks out as items with distinct products and quantities of at least 1. |
| Storefront.CartIdsUpdate | client/app.js:318-326 | Changing a line's quantity keeps the cart's product column. |
| Storefront.CartIdsAppend | client/app.js:285-290 | A new line appends its product to the column. |
| Storefront.CartIdsRemove | client/app.js:336-338 | Removing a line removes just its product from the column. |
| Storefront.IndexOfAppended | client/app.js:285-290 | A new product's line is found at the end. |
| Storefront.IndexOfOther | client/app.js:285-290 | Appending another product's line does not move a product's first line. |
| Storefront.FindLine | client/app.js:281 | The search returns the position of the first line for the product, or none when it has no line. |
| Storefront.Shown | client/app.js:1145-1171 | showSection leaves at most one section visible, and the admin section only for a signed-in employee. |
| Storefront.ShownGate | client/app.js:1145-1171 | The admin section is shown exactly when asked for by a signed-in employee. The login section is shown when asked for, or instead of the admin section. At most one section is shown. |
| ClientApp.BadgeStatus | client/app.js:719 | The badge never shows an empty status. A status that is present is shown as is, and a missing one shows "Pending". |
| ClientApp.StatusColor | client/app.js:734-740 | The badge is gray exactly for a status outside the ten known names. |
| ClientApp.RenamedSameColor | client/app.js:734-740 | An older status name has the colour of its current name, and is known exactly when that name is known. |
| ClientApp.Page.constructor | client/app.js:1176 | The page loads with nobody signed in, an empty cart and only the shop section visible. |
| ClientApp.Page.ShowSection | client/app.js:1145-1171 | Exactly the sections `Shown` names become visible. Opening the admin section as an employee shows the Users tab exactly for a manager. Any other call leaves the tab as it was. |
| ClientApp.Page.PerformLogin | client/app.js:23-117 | Nothing is sent exactly when the email or password is empty. A refusal changes nothing. On success the account becomes the current user, and the page opens the admin section for an employee (the Users tab for a manager) or the shop for a customer. |
| ClientApp.Page.AddToCart | client/app.js:280-291 | The cart becomes `Added` of the old cart and stays well formed. |
| ClientApp.Page.Increment | client/app.js:318-326 | The cart becomes `Incremented` of the old cart and stays well formed. |
| ClientApp.Page.Decrement | client/app.js:329-340 | The cart becomes `Decremented` of the old cart and stays well formed. |
| ClientApp.Page.Checkout | client/app.js:345-412 | Refused unless a customer is signed in, then refused for an empty cart. Otherwise it sends `CheckoutRequest` of the cart. The cart is emptied only when the order is taken. |
| FrontendApp.Page.constructor | frontend/app.js:260 | The page loads with nobody signed in, an empty cart and only the shop section visible. |
| FrontendApp.Page.ShowSection | frontend/app.js:240-256 | Exactly the sections `Shown` names become visible. |
| FrontendApp.Page.Login | frontend/app.js:23-52 | The request always carries email, password and UserType. A refusal changes nothing. On success the account becomes the current user and the shop section opens. |
| FrontendApp.Page.AddToCart | frontend/app.js:95-108 | The cart becomes `Added` of the old cart and stays well formed. |
| FrontendApp.Page.Increment | frontend/app.js:133-141 | The cart becomes `Incremented` of the old cart and stays well formed. |
| FrontendApp.Page.Decrement | frontend/app.js:144-155 | The cart becomes `Decremented` of the old cart and stays well formed. |
| FrontendApp.Page.Checkout | frontend/app.js:160-207 | Refused unless a customer is signed in, then refused for an empty cart. Otherwise it sends `CheckoutRequest` of the cart. The cart is emptied only when the order is taken. |

## Left out

- HTTP routing, JSON (de)serialisation, the DOM, `fetch`, `alert` and rendering are
  not modelled. Server replies to the pages are method parameters: a login reply is
  the account or None, and a checkout reply is whether the order was taken.
- `DateTime.Now` is a `Timestamp` parameter.
- C# `decimal` is an exact `real`, and decimal overflow is not modelled. The pages'
  JavaScript floating-point totals and `toFixed` formatting are not modelled.
- Concurrency and database isolation are not modelled. One controller object
  serves one request at a time.
- Only failures the code raises itself are modelled. Store failures (foreign keys
  on delete, exceptions turned into 500 replies) are not.
- A MySQL auto-increment column can skip values after a rollback. The model
  restores the counter instead. A key sent in a create request is ignored; every
  insert takes the counter's value.
- Text comparisons are ordinal. This covers the name filter, ordering and
  equality in the catalogue, the backend sign-in and Register. The database's
  collation (usually case-insensitive, ignoring trailing spaces) is not modelled.
- `ToLower` and `OrdinalIgnoreCase` are modelled as ASCII case folding.
  `string.IsNullOrWhiteSpace` and `Trim` are modelled with ASCII white space only.
- A missing item list in an order is the empty list.
- BackendAuth.Login: the Email and Password columns are plain strings, so a NULL
  in them is modelled as "". The storefront's sign-in compares them in SQL
  (backend/Controllers/AuthController.cs:31 and 46), where NULL never matches,
  and the request's fields default to "" (lines 20-21). So for a row whose
  Password is NULL and a request with an empty password, the code replies 401
  while `Login`, `LoginSucceedsIff` and `LoginAccount` sign the row in. They
  are exact for rows without NULL credentials. The console's sign-in skips a
  NULL email and reads a NULL password as "", which is what the model does.
- Ties in `ORDER BY` keep table order here; SQL leaves their order open.
- The debug endpoints and the diagnostic payloads of the console's 401 replies,
  including the message building in client/app.js:66-103, are not modelled.
  Only which refusal comes is.
- PlaceStockNonNegative: integers are unbounded. C# `int` is 32 bits and
  wraps, and no check rejects a negative quantity. With stock 5 and quantity
  −2147483648, the stock check at backend/Controllers/TransactionsController.cs:62
  passes and the subtraction at line 79 wraps to a negative stock. The model
  computes 2147483653 instead. The lemma holds only where no overflow occurs;
  `PlaceStock`'s accounting likewise.
- CreateTransactionRequest: a request that omits PaymentMethod gets "Credit"
  when the JSON is read (backend/Controllers/TransactionsController.cs:29). JSON
  reading is not modelled, so such a request arrives with paymentMethod "Credit".
- ClientApp.Page.constructor: the Users tab's initial display is a constructor
  parameter, and the tab element is assumed to exist.
- ApiAuth.LoginPasswordExact: Dafny proves it from `Login`'s definition alone.
  It is stated for completeness, with no proof of its own.
- Rendering of the transaction list, product grids and forms in the pages is not
  modelled. Only the status badge logic is.

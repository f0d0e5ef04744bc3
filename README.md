# Cosmetics e-commerce backend: a verified model of its service layer

This project models the business logic of a Spring Boot shop for cosmetics in Dafny:

- **Orders.** Placing an order reserves stock item by item, snapshots each product's effective price, sums the total and stores the order as PENDING. Cancelling gives the stock back. The status setter marks a cash-on-delivery order PAID on delivery. Only the owner or an administrator may read or cancel an order.
- **Products.** Views are counted, the category and brand must exist, deletion is soft, and the stock level can be adjusted freely. A search picks one query by a fixed precedence, and the paging defaults are modelled.
- **Accounts.** New customers start PENDING. Administrators approve or reject them, and login is refused until approval. Administrators are always approved: by the entity's persist and update hooks and by `createAdmin`. The last administrator and one's own account cannot be deleted. A request filter stops unapproved customers on the order, cart and checkout endpoints.
- **Categories and brands.** Names are unique, deletion is soft, and an entry can be re-activated. The two services are the same code, so one module models both.
- **Chat.** Each customer has one room. Customer messages raise the unread counter, and reading resets it.
- **Bulk import.** Spreadsheet rows are validated one by one through tolerant cell parsers. Each row ends up in a success list or an error list, and one bad row never stops the others.
- **Analytics.** The integer parts of the analytics: sales per category, per-brand totals, the order status distribution, dashboard counters and the best-seller list.

Repositories are modelled as `Store.Table<T>` objects: a map from id to record plus the next free id. Service methods take the tables they use as parameters and declare in `modifies` the ones they write. Every service class is transactional, so every modelled operation is atomic: an error leaves every table as it was. Money is counted in integer cents. The signed-in user is an explicit id parameter. Clocks, password hashing, JWT creation and the authentication manager are replaced by parameters (`now`, `encodedPassword`, `passwordMatches`, `token`, `currentMatches`).

Modules, one per source file plus shared helpers:

- `Wrappers`: Option and Result.
- `Text`: the java.lang.String and Integer operations the services use, namely trim, blank, startsWith, lower-casing, and integer parsing and printing.
- `Decimals`: the part of BigDecimal the import parsers use.
- `Store`: the repository table.
- `ProductEntity`, `UserEntity`: the two entities.
- `Catalog`: the category and brand services.
- `ProductService`, `OrderService`, `AuthService`, `UserApprovalService`, `AdminManagementService`, `ChatService`, `UserApprovalFilter`, `BulkUploadService`, `AnalyticsService`.

## Model

| member | source | states |
|---|---|---|
| Store.Table.Insert | src/main/java/com/cosmetics/ecommerce/service/CategoryService.java:58 | saving a new entity stores it under a fresh identity and changes no other row |
| ProductEntity.NewProduct | src/main/java/com/cosmetics/ecommerce/entity/Product.java:32-57 | a new product has stock 0, is active and not featured, has zero views and sales, and has no discount, category or brand |
| ProductEntity.EffectivePrice | src/main/java/com/cosmetics/ecommerce/entity/Product.java:76-83 | the price paid is never above the list price; it is the discount price exactly when that is strictly lower (hasDiscount), else the list price |
| ProductEntity.HasDiscount | src/main/java/com/cosmetics/ecommerce/entity/Product.java:76-78 | a discount counts only when present and strictly below the price |
| ProductEntity.IsInStock | src/main/java/com/cosmetics/ecommerce/entity/Product.java:86-88 | in stock iff at least one unit is left |
| ProductEntity.Adjust | src/main/java/com/cosmetics/ecommerce/service/OrderService.java:83-84 | moving units between stock and sold keeps stock + sold constant, changes stock by exactly the delta, and touches no other field or the price |
| ProductEntity.AdjustCompose | src/main/java/com/cosmetics/ecommerce/service/OrderService.java:205-210 | a sale followed by its return leaves the product unchanged; a zero adjustment is the identity |
| UserEntity.NewUser | src/main/java/com/cosmetics/ecommerce/entity/User.java:46-61 | a new user is an active CUSTOMER, not approved, PENDING, with no approval data |
| UserEntity.OnCreate | src/main/java/com/cosmetics/ecommerce/entity/User.java:79-89 | the persist hook makes every ADMIN approved with status APPROVED and leaves a customer untouched |
| UserEntity.OnUpdate | src/main/java/com/cosmetics/ecommerce/entity/User.java:92-101 | the update hook re-approves an ADMIN found unapproved and leaves customers and approved users untouched |
| UserEntity.Authorities | src/main/java/com/cosmetics/ecommerce/entity/User.java:107-109 | a user has exactly one authority |
| UserEntity.HasRoleIffRole | src/main/java/com/cosmetics/ecommerce/entity/User.java:107-109 | hasRole('ADMIN') holds iff the role is ADMIN, and hasRole('CUSTOMER') iff it is CUSTOMER |
| UserEntity.FindByUsername | src/main/java/com/cosmetics/ecommerce/service/AuthService.java:83-84 | with unique usernames the lookup finds the one user with that name, and finds nothing iff no user has it |
| UserEntity.InsertKeepsInvariants | src/main/java/com/cosmetics/ecommerce/entity/User.java:26-30 | inserting a user with a free username and email (approved if ADMIN) keeps the unique columns unique and every admin approved |
| UserEntity.ReplaceKeepsInvariants | src/main/java/com/cosmetics/ecommerce/entity/User.java:26-30 | rewriting a user with the same username, email and role keeps both table invariants |
| UserEntity.OnUpdateRestoresAdmin | src/main/java/com/cosmetics/ecommerce/entity/User.java:96-100 | saving an administrator whose approval was taken away gives the approval back |
| UserEntity.IsEnabled | src/main/java/com/cosmetics/ecommerce/entity/User.java:137-139 | an account is enabled only when it is both active and approved |
| UserEntity.IsAccountNonLocked | src/main/java/com/cosmetics/ecommerce/entity/User.java:127-129 | an account is unlocked exactly when it is enabled: locking and disabling are the same test |
| Text.TrimStart | src/main/java/com/cosmetics/ecommerce/service/BulkUploadService.java:141 | the result is a suffix of the input; every char removed is at most a space, and the first char kept is not |
| Text.TrimEnd | src/main/java/com/cosmetics/ecommerce/service/BulkUploadService.java:141 | the result is a prefix of the input; every char removed is at most a space, and the last char kept is not |
| Text.Trim | src/main/java/com/cosmetics/ecommerce/service/BulkUploadService.java:141 | String.trim: the result is the infix of the input that neither starts nor ends with a trimmed char |
| Text.BlankIffTrimEmpty | src/main/java/com/cosmetics/ecommerce/service/BulkUploadService.java:90 | a string is blank iff its trim is empty (the test behind name.trim().isEmpty()) |
| Text.TrimIdempotent | src/main/java/com/cosmetics/ecommerce/service/BulkUploadService.java:141 | trimming twice is trimming once |
| Text.LowerCase | src/main/java/com/cosmetics/ecommerce/service/BulkUploadService.java:192 | lower-casing keeps the length and lower-cases each char |
| Text.DigitChar | src/main/java/com/cosmetics/ecommerce/service/BulkUploadService.java:143 | a digit value is printed as the digit that reads back as that value |
| Text.NatToString | src/main/java/com/cosmetics/ecommerce/service/BulkUploadService.java:143 | a natural number prints as a non-empty digit string |
| Text.NatToStringRoundTrip | src/main/java/com/cosmetics/ecommerce/service/BulkUploadService.java:143 | reading back the printed digits of n gives n |
| Text.ParseInt | src/main/java/com/cosmetics/ecommerce/service/BulkUploadService.java:176 | Integer.parseInt only ever yields a 32-bit value |
| Text.IntToStringParseInt | src/main/java/com/cosmetics/ecommerce/service/BulkUploadService.java:176 | every 32-bit integer survives printing and Integer.parseInt |
| Text.ParseIntRejectsOverflow | src/main/java/com/cosmetics/ecommerce/service/BulkUploadService.java:174-179 | a digit string is rejected exactly when its value exceeds Integer.MAX_VALUE |
| Decimals.Clamp | src/main/java/com/cosmetics/ecommerce/service/BulkUploadService.java:173 | narrowing keeps in-range values and moves others to the nearest bound |
| Decimals.ToInt | src/main/java/com/cosmetics/ecommerce/service/BulkUploadService.java:173 | the (int) cast: the integer part when it fits in 32 bits, otherwise the nearer bound |
| Decimals.ToCentsExact | src/main/java/com/cosmetics/ecommerce/entity/Product.java:26-27 | a value with at most two decimals is stored in the scale-2 column exactly |
| Decimals.ToCentsPositive | src/main/java/com/cosmetics/ecommerce/entity/Product.java:26-27 | a positive price is never stored negative, and is stored positive when it has at most two decimals |
| Decimals.ToCents | src/main/java/com/cosmetics/ecommerce/entity/Product.java:26-30 | a price with at most two decimals is stored exactly, scaled to cents; finer prices are rounded as ToCentsRounds states |
| Decimals.ToCentsRounds | src/main/java/com/cosmetics/ecommerce/entity/Product.java:26-30 | a price with more than two decimals is stored as the nearest cent, halves away from zero, keeping its sign |
| Decimals.ToLong | src/main/java/com/cosmetics/ecommerce/service/BulkUploadService.java:143 | the `(long)` cast: the integer part when it fits in 64 bits, otherwise the nearer bound |
| Decimals.TruncateIntegral | src/main/java/com/cosmetics/ecommerce/service/BulkUploadService.java:173 | an integral value is its own integer part, and (int) keeps it when it fits |
| Decimals.TinyPositiveStoredAsZero | src/main/java/com/cosmetics/ecommerce/service/BulkUploadService.java:93-95 | a price of 0.001 passes the positivity check yet is stored as 0.00 |
| Decimals.ExponentAt | src/main/java/com/cosmetics/ecommerce/service/BulkUploadService.java:159 | the position of the first exponent indicator, or the length |
| Decimals.DotAt | src/main/java/com/cosmetics/ecommerce/service/BulkUploadService.java:159 | the position of the first '.', or the length |
| Decimals.ParseDecimal | src/main/java/com/cosmetics/ecommerce/service/BulkUploadService.java:159 | new BigDecimal(s) accepts only non-empty text, and a negative value only after a leading '-' |
| Decimals.DecimalRoundTrip | src/main/java/com/cosmetics/ecommerce/service/BulkUploadService.java:159 | every decimal printed in scientific notation parses back to itself |
| Catalog.FindByName | src/main/java/com/cosmetics/ecommerce/service/BulkUploadService.java:107-112 | with unique names the lookup finds the one entry with that name, and nothing iff the name is unused |
| Catalog.Get | src/main/java/com/cosmetics/ecommerce/service/CategoryService.java:40-45 | the entry when the id is stored, otherwise a not-found error naming the id |
| Catalog.ActiveIds | src/main/java/com/cosmetics/ecommerce/service/CategoryService.java:32-37 | exactly the ids of active entries |
| Catalog.WithActiveProperties | src/main/java/com/cosmetics/ecommerce/service/CategoryService.java:82-96 | delete and activate keep every record and name, set only the flag of one entry, are idempotent, and keep names unique |
| Catalog.Create | src/main/java/com/cosmetics/ecommerce/service/CategoryService.java:48-60 | fails iff the name is taken, changing nothing; otherwise stores a new active entry under a fresh id; names stay unique |
| Catalog.Update | src/main/java/com/cosmetics/ecommerce/service/CategoryService.java:63-79 | fails for an unknown id, or for a rename to another entry's name; keeping the name is allowed; overwrites name, description and picture only |
| Catalog.Delete | src/main/java/com/cosmetics/ecommerce/service/CategoryService.java:82-88 | fails iff the id is unknown; otherwise only clears the entry's active flag |
| Catalog.Activate | src/main/java/com/cosmetics/ecommerce/service/CategoryService.java:91-97 | fails iff the id is unknown; otherwise only sets the entry's active flag |
| ProductService.CreatedProduct | src/main/java/com/cosmetics/ecommerce/service/ProductService.java:131-143 | a created product carries every request field, is active, not featured unless asked, and has no views or sales |
| ProductService.UpdatedProduct | src/main/java/com/cosmetics/ecommerce/service/ProductService.java:160-174 | an update carries every request field, keeps isFeatured when the request leaves it null, and keeps counters and the active flag |
| ProductService.GetProductById | src/main/java/com/cosmetics/ecommerce/service/ProductService.java:82-91 | fails iff the id is unknown; otherwise returns the product with exactly one more view, and stores it |
| ProductService.CreateProduct | src/main/java/com/cosmetics/ecommerce/service/ProductService.java:124-148 | a missing category fails first, then a missing brand, with nothing stored; otherwise the created product is stored under a fresh id |
| ProductService.UpdateProduct | src/main/java/com/cosmetics/ecommerce/service/ProductService.java:150-183 | the product, then the category, then the brand must exist; on success the product is overwritten in place; the low-stock alert fires iff the update succeeds with stock below 10 |
| ProductService.DeleteProduct | src/main/java/com/cosmetics/ecommerce/service/ProductService.java:186-192 | fails iff the id is unknown; otherwise only the active flag is cleared and the record stays |
| ProductService.UpdateStock | src/main/java/com/cosmetics/ecommerce/service/ProductService.java:195-201 | fails iff the id is unknown; otherwise adds the signed quantity to the stock, with no lower bound, and changes nothing else |
| ProductService.IsInStockFor | src/main/java/com/cosmetics/ecommerce/service/ProductService.java:204-209 | fails iff the product is unknown; otherwise true iff stock is at least the required quantity |
| ProductService.IsInStockForOne | src/main/java/com/cosmetics/ecommerce/entity/Product.java:86-88 | asking for one unit agrees with the entity's isInStock (stock > 0) |
| ProductService.SelectQuery | src/main/java/com/cosmetics/ecommerce/service/ProductService.java:40-79 | the first filter present wins: non-blank keyword, category and brand, category, brand, both price bounds, else all active products |
| ProductService.Matches | src/main/java/com/cosmetics/ecommerce/repository/ProductRepository.java:17-37 | every query selects active products only, and the unfiltered query selects all of them |
| ProductService.CreatePageable | src/main/java/com/cosmetics/ecommerce/service/ProductService.java:220-237 | defaults sortBy createdAt, page 0 and size 12; ascending iff the order equals "asc" ignoring case; a blank sort property, a negative page or a size below 1 is an error |
| ProductService.DefaultPageable | src/main/java/com/cosmetics/ecommerce/service/ProductService.java:220-237 | an empty request reads page 0 of 12, newest first |
| ProductService.SearchProducts | src/main/java/com/cosmetics/ecommerce/service/ProductService.java:40-79 | fails iff the paging fails; otherwise exactly the products the selected query matches |
| ProductService.SearchOnlyActive | src/main/java/com/cosmetics/ecommerce/service/ProductService.java:44-78 | every search result is an active product, and a keyword result contains the keyword in its name, ignoring case |
| OrderService.LineRequests | src/main/java/com/cosmetics/ecommerce/service/OrderService.java:69-72 | each line records the product id and quantity it was made from |
| OrderService.SubtotalSumAppend | src/main/java/com/cosmetics/ecommerce/service/OrderService.java:75-80 | adding a line adds its subtotal to the total |
| OrderService.Reserve | src/main/java/com/cosmetics/ecommerce/service/OrderService.java:59-86 | a successful reservation keeps every product row, makes one line per requested item in order, and names only stored products |
| OrderService.ReserveOne | src/main/java/com/cosmetics/ecommerce/service/OrderService.java:60-85 | an unknown product fails as not found, too little stock as insufficient stock with the name; otherwise only that product changes, its quantity moves from stock to sold leaving stock non-negative, and the line snapshots the effective price (never above the list price) and price times quantity |
| OrderService.ReserveStopsAtFirstError | src/main/java/com/cosmetics/ecommerce/service/OrderService.java:60-66 | once a prefix of the items fails, the whole request fails with the same error |
| OrderService.ReserveAccounting | src/main/java/com/cosmetics/ecommerce/service/OrderService.java:83-84 | after success each product has moved exactly its total ordered quantity from stock to sold |
| OrderService.ReserveExtend | src/main/java/com/cosmetics/ecommerce/service/OrderService.java:59-86 | one more item runs one more pass of the loop |
| OrderService.ReserveSucceedsIff | src/main/java/com/cosmetics/ecommerce/service/OrderService.java:60-66 | success exactly when every item names a stored product whose stock, less what earlier items took, covers its quantity |
| OrderService.ReserveLastStep | src/main/java/com/cosmetics/ecommerce/service/OrderService.java:64-66 | the last item succeeds exactly when its stock check passes |
| OrderService.ReserveLeavesOrderedStockNonNegative | src/main/java/com/cosmetics/ecommerce/service/OrderService.java:64-66 | every product named in a successful order keeps a non-negative stock |
| OrderService.ReservePreservesStockNonNegative | src/main/java/com/cosmetics/ecommerce/service/OrderService.java:64-84 | placing an order never drives any stock level below zero |
| OrderService.ReservePrices | src/main/java/com/cosmetics/ecommerce/service/OrderService.java:73-77 | each line's unit price is the product's effective price at that point, and its subtotal is price times quantity |
| OrderService.ReserveTotal | src/main/java/com/cosmetics/ecommerce/service/OrderService.java:73-89 | the order total (sum of subtotals) is the order's value at effective prices |
| OrderService.Restore | src/main/java/com/cosmetics/ecommerce/service/OrderService.java:205-210 | giving lines back keeps every product row |
| OrderService.RestoreOne | src/main/java/com/cosmetics/ecommerce/service/OrderService.java:205-210 | a line whose product exists moves its quantity from sold back to stock; no other product changes and no row appears or disappears |
| OrderService.RestoreAccounting | src/main/java/com/cosmetics/ecommerce/service/OrderService.java:205-210 | giving lines back moves, for each product, its total quantity from sold back to stock |
| OrderService.CancelUndoesCreate | src/main/java/com/cosmetics/ecommerce/service/OrderService.java:205-210 | cancelling restores every stock level and sold count to its value before the order |
| OrderService.ReserveLine | src/main/java/com/cosmetics/ecommerce/service/OrderService.java:60-85 | one loop pass computes the step of the reference reservation |
| OrderService.ReserveItems | src/main/java/com/cosmetics/ecommerce/service/OrderService.java:59-86 | the loop computes the reference reservation, and its running total is the sum of the line subtotals |
| OrderService.LinkedAfterReserve | src/main/java/com/cosmetics/ecommerce/service/OrderService.java:59-92 | after a reservation every stored order line, and every new one, names a stored product |
| OrderService.UniqueAfterInsert | src/main/java/com/cosmetics/ecommerce/service/OrderService.java:91 | storing an order under an unused order number keeps order numbers unique |
| OrderService.CreateOrder | src/main/java/com/cosmetics/ecommerce/service/OrderService.java:35-96 | an unknown caller or a failing reservation changes nothing; success commits the reservation and stores a PENDING, payment-PENDING order with the reserved lines and their total |
| OrderService.GetOrderById | src/main/java/com/cosmetics/ecommerce/service/OrderService.java:106-118 | not found for an unknown id; access denied unless the caller owns the order or is ADMIN; otherwise the order |
| OrderService.FindByOrderNumber | src/main/java/com/cosmetics/ecommerce/service/OrderService.java:122-123 | finds the order with that number iff one exists |
| OrderService.GetOrderByOrderNumber | src/main/java/com/cosmetics/ecommerce/service/OrderService.java:121-133 | an unused number is not found, an unknown caller is refused, a caller who neither owns the order found by number nor is an ADMIN is denied access; otherwise that order |
| OrderService.WithStatus | src/main/java/com/cosmetics/ecommerce/service/OrderService.java:157-166 | any status is set; payment becomes PAID iff the new status is DELIVERED and the method is cash on delivery, and nothing else changes |
| OrderService.ReopenedOrderIsCancellable | src/main/java/com/cosmetics/ecommerce/service/OrderService.java:157-160 | no transition is checked: a cancelled or delivered order can be set back to PENDING and then cancelled again |
| OrderService.UpdateOrderStatus | src/main/java/com/cosmetics/ecommerce/service/OrderService.java:148-181 | an unknown caller, then an unknown order, is an error that changes nothing; otherwise the order is rewritten by the status rule |
| OrderService.CancelOrder | src/main/java/com/cosmetics/ecommerce/service/OrderService.java:185-214 | access errors as in getOrderById; only a PENDING or CONFIRMED order is cancelled, with its lines restored to stock; an error changes nothing, so a second cancel fails |
| OrderService.IdsWithStatus | src/main/java/com/cosmetics/ecommerce/service/OrderService.java:221-225 | exactly the orders with the given status |
| OrderService.OrderStatistics | src/main/java/com/cosmetics/ecommerce/service/OrderService.java:217-225 | the total counts every order, each of the five status counts is the number of orders with that status, and they add up to the total |
| OrderService.StatusCountsPartition | src/main/java/com/cosmetics/ecommerce/service/OrderService.java:220-225 | the five per-status counts add up to the number of orders |
| OrderService.StatusSetsCover | src/main/java/com/cosmetics/ecommerce/service/OrderService.java:220-225 | every order has one of the five statuses |
| AuthService.Registered | src/main/java/com/cosmetics/ecommerce/service/AuthService.java:44-58 | the stored user carries the request's credentials and contact fields and the encoded password |
| AuthService.RegisteredIsPendingCustomer | src/main/java/com/cosmetics/ecommerce/service/AuthService.java:51-56 | a registered user is an active CUSTOMER, not approved, PENDING, hence neither enabled nor unlocked |
| AuthService.Register | src/main/java/com/cosmetics/ecommerce/service/AuthService.java:32-76 | a taken username fails first, then a taken email, changing nothing; otherwise the pending customer is stored and the response has no token and asks for approval |
| AuthService.Login | src/main/java/com/cosmetics/ecommerce/service/AuthService.java:79-116 | unknown username is invalid credentials; an unapproved account is refused with the rejection reason (or the default) or the pending message; then the authentication manager refuses a locked (inactive) account, then a wrong password; otherwise a token |
| AuthService.LoginGate | src/main/java/com/cosmetics/ecommerce/service/AuthService.java:87-102 | login succeeds exactly for a known, approved, APPROVED and enabled (active) account whose password matches, and then carries the token; for an unapproved account the answer ignores the password |
| AuthService.RegisteredCannotLogin | src/main/java/com/cosmetics/ecommerce/service/AuthService.java:87-94 | a freshly registered customer is refused as pending, whatever the password |
| AuthService.ApprovedCanLogin | src/main/java/com/cosmetics/ecommerce/service/UserApprovalService.java:53-57 | once approved, an active user logs in with a correct password; a deactivated one is refused as locked |
| AuthService.CurrentUser | src/main/java/com/cosmetics/ecommerce/service/AuthService.java:156-161 | the signed-in user, or not found |
| AuthService.WithProfile | src/main/java/com/cosmetics/ecommerce/service/AuthService.java:128-135 | exactly the eight profile fields are taken from the request |
| AuthService.UpdateProfile | src/main/java/com/cosmetics/ecommerce/service/AuthService.java:125-139 | fails iff the caller is unknown; otherwise only the caller's profile fields change |
| AuthService.ChangePassword | src/main/java/com/cosmetics/ecommerce/service/AuthService.java:142-153 | fails for an unknown caller or a wrong current password, changing nothing; otherwise only the password changes |
| UserApprovalService.ApprovedBy | src/main/java/com/cosmetics/ecommerce/service/UserApprovalService.java:53-57 | approved, APPROVED, approvedBy the acting admin at the given time, reason cleared, nothing else changed |
| UserApprovalService.RejectedWith | src/main/java/com/cosmetics/ecommerce/service/UserApprovalService.java:76-80 | not approved, REJECTED, the reason stored, approval data cleared, nothing else changed |
| UserApprovalService.ApproveUser | src/main/java/com/cosmetics/ecommerce/service/UserApprovalService.java:41-65 | unknown user, then already APPROVED, fails and changes nothing; a REJECTED user can be approved; the invariants hold |
| UserApprovalService.RejectUser | src/main/java/com/cosmetics/ecommerce/service/UserApprovalService.java:67-88 | unknown user, then already REJECTED, fails and changes nothing; an APPROVED user can be rejected; a customer is stored as rejected |
| UserApprovalService.RejectedAdminStaysApproved | src/main/java/com/cosmetics/ecommerce/entity/User.java:92-101 | rejecting an administrator stores it approved again, with the reason kept |
| UserApprovalService.TransitionsAlternate | src/main/java/com/cosmetics/ecommerce/service/UserApprovalService.java:41-88 | approving and rejecting each overwrite the other's effect entirely |
| UserApprovalService.PendingUsers | src/main/java/com/cosmetics/ecommerce/service/UserApprovalService.java:26-31 | exactly the PENDING users |
| UserApprovalService.NonAdminUsers | src/main/java/com/cosmetics/ecommerce/service/UserApprovalService.java:33-39 | exactly the users who are not ADMIN |
| UserApprovalService.PendingAreListed | src/main/java/com/cosmetics/ecommerce/service/UserApprovalService.java:26-39 | every pending user also appears in the user list |
| UserApprovalService.IdsWithStatus | src/main/java/com/cosmetics/ecommerce/service/UserApprovalService.java:90-101 | exactly the users with the given status |
| UserApprovalService.UserStatistics | src/main/java/com/cosmetics/ecommerce/service/UserApprovalService.java:90-104 | the total is the number of users; pending, approved and rejected are the numbers of users with each status, and they add up to the total |
| UserApprovalService.StatusCountsPartition | src/main/java/com/cosmetics/ecommerce/service/UserApprovalService.java:90-101 | the three per-status counts add up to the number of users |
| UserApprovalService.StatusSetsCover | src/main/java/com/cosmetics/ecommerce/service/UserApprovalService.java:90-101 | every user has one of the three statuses |
| UserApprovalService.ApprovalMovesOneCount | src/main/java/com/cosmetics/ecommerce/service/UserApprovalService.java:41-65 | approving a pending user moves one count from pending to approved |
| AdminManagementService.AdminIds | src/main/java/com/cosmetics/ecommerce/service/AdminManagementService.java:68-73 | exactly the ADMIN users |
| AdminManagementService.CountAdmins | src/main/java/com/cosmetics/ecommerce/service/AdminManagementService.java:86 | the count is zero exactly when no user is an administrator |
| AdminManagementService.NewAdmin | src/main/java/com/cosmetics/ecommerce/service/AdminManagementService.java:42-58 | an active, approved, APPROVED ADMIN with the request's credentials, approved by its creator at the given time |
| AdminManagementService.NewAdminUnchangedByHook | src/main/java/com/cosmetics/ecommerce/entity/User.java:79-89 | the persist hook leaves a new administrator as createAdmin built it |
| AdminManagementService.CreateAdmin | src/main/java/com/cosmetics/ecommerce/service/AdminManagementService.java:27-66 | a taken username, then a taken email, fails and changes nothing; otherwise the administrator is stored and the admin count grows by one |
| AdminManagementService.AdminIdsAfterInsert | src/main/java/com/cosmetics/ecommerce/service/AdminManagementService.java:51-60 | storing an administrator adds exactly its id to the admins |
| AdminManagementService.AdminIdsAfterRemove | src/main/java/com/cosmetics/ecommerce/service/AdminManagementService.java:95 | removing an administrator takes exactly its id out of the admins |
| AdminManagementService.DeleteAdmin | src/main/java/com/cosmetics/ecommerce/service/AdminManagementService.java:75-96 | unknown target, deleting oneself, the last admin, then a non-admin target fail in that order; a success removes only the target and leaves at least one admin |
| AdminManagementService.Updated | src/main/java/com/cosmetics/ecommerce/service/AdminManagementService.java:106-122 | names and phone are always taken, the email as computed, and the password only when a non-empty one is given |
| AdminManagementService.UpdateKeepsInvariants | src/main/java/com/cosmetics/ecommerce/service/AdminManagementService.java:111-124 | storing an administrator whose email is its own or unused keeps both table invariants |
| AdminManagementService.UpdateAdmin | src/main/java/com/cosmetics/ecommerce/service/AdminManagementService.java:98-126 | unknown target, then a non-admin, then a changed email already in use fail and change nothing; otherwise the updated record is stored |
| ChatService.NewRoom | src/main/java/com/cosmetics/ecommerce/entity/ChatRoom.java:21-39 | a new room belongs to the user, is ACTIVE and has nothing unread |
| ChatService.GetOrCreateChatRoom | src/main/java/com/cosmetics/ecommerce/service/ChatService.java:22-30 | returns the user's room; creates one only when there is none, so a repeated call creates nothing; one room per user |
| ChatService.AfterMessage | src/main/java/com/cosmetics/ecommerce/service/ChatService.java:38-42 | the last-message time moves on, and the unread count rises by one iff the sender is USER |
| ChatService.SaveMessage | src/main/java/com/cosmetics/ecommerce/service/ChatService.java:32-47 | fails iff the room is unknown, changing nothing; otherwise the message is stored with its timestamp and the room updated |
| ChatService.MarkMessagesAsRead | src/main/java/com/cosmetics/ecommerce/service/ChatService.java:57-62 | fails iff the room is unknown; otherwise only its unread count becomes zero |
| ChatService.Read | src/main/java/com/cosmetics/ecommerce/service/ChatService.java:60 | the unread count is zero and nothing else changes |
| ChatService.CountFromUser | src/main/java/com/cosmetics/ecommerce/service/ChatService.java:40-42 | at most the number of messages |
| ChatService.UnreadCountsUserMessages | src/main/java/com/cosmetics/ecommerce/service/ChatService.java:40-60 | the unread count grows by exactly the number of customer messages, starting from zero after a read |
| ChatService.ReadIdempotent | src/main/java/com/cosmetics/ecommerce/service/ChatService.java:57-62 | marking as read twice is marking once, and keeps status and last-message time |
| ChatService.ActiveRooms | src/main/java/com/cosmetics/ecommerce/service/ChatService.java:53-55 | exactly the ACTIVE rooms |
| ChatService.MessagesOf | src/main/java/com/cosmetics/ecommerce/service/ChatService.java:49-51 | exactly the messages of the room |
| UserApprovalFilter.Filter | src/main/java/com/cosmetics/ecommerce/security/UserApprovalFilter.java:24-60 | forbidden exactly for an authenticated, non-anonymous, known CUSTOMER on a protected path who is not approved and APPROVED |
| UserApprovalFilter.RequiresApprovalExtends | src/main/java/com/cosmetics/ecommerce/security/UserApprovalFilter.java:62-67 | anything under a protected prefix is protected |
| UserApprovalFilter.RequiresApproval | src/main/java/com/cosmetics/ecommerce/security/UserApprovalFilter.java:62-67 | every protected path lies under /api/, and the public /api/products endpoints are not protected |
| UserApprovalFilter.FilterPasses | src/main/java/com/cosmetics/ecommerce/security/UserApprovalFilter.java:31-59 | no authentication, an anonymous one, an unprotected path, an unknown username or an ADMIN always passes |
| UserApprovalFilter.FilterAgreesWithLogin | src/main/java/com/cosmetics/ecommerce/security/UserApprovalFilter.java:49-54 | whoever login admits is never stopped, and a customer login refuses as pending or rejected is stopped on every protected path |
| BulkUploadService.CellString | src/main/java/com/cosmetics/ecommerce/service/BulkUploadService.java:136-149 | a missing or other cell gives null; a string cell gives its trimmed text; a numeric cell gives the decimal text of its (long) value; a boolean cell gives "true" or "false" |
| BulkUploadService.CellDecimal | src/main/java/com/cosmetics/ecommerce/service/BulkUploadService.java:151-166 | a missing, boolean or other cell gives null; a numeric cell gives its value; a string cell is trimmed and parsed by the BigDecimal constructor, null when it does not parse |
| BulkUploadService.CellInteger | src/main/java/com/cosmetics/ecommerce/service/BulkUploadService.java:168-183 | a missing, boolean or other cell gives null; a numeric cell goes through the (int) cast; a string cell is trimmed and parsed by Integer.parseInt, null when it does not parse; any value is a 32-bit integer |
| BulkUploadService.CellParsers | src/main/java/com/cosmetics/ecommerce/service/BulkUploadService.java:151-197 | typed integers and decimals read back as themselves; a string is true iff its trimmed lower-case text is true, yes or 1; a missing cell is false |
| BulkUploadService.CellBoolean | src/main/java/com/cosmetics/ecommerce/service/BulkUploadService.java:185-198 | true only for a present, readable cell; a boolean cell gives its value, a numeric cell is true iff it equals one |
| BulkUploadService.IntToStringTrimmed | src/main/java/com/cosmetics/ecommerce/service/BulkUploadService.java:176 | a printed integer has nothing to trim |
| BulkUploadService.DecimalStringTrimmed | src/main/java/com/cosmetics/ecommerce/service/BulkUploadService.java:159 | a printed decimal has nothing to trim |
| BulkUploadService.ParseRow | src/main/java/com/cosmetics/ecommerce/service/BulkUploadService.java:73-134 | a row is imported iff name, price > 0, stock >= 0, category and brand are present and both names are stored; otherwise the first failing check, in the order name, price, stock, category, brand, category lookup, brand lookup, gives the error; the product carries the name, description, price and discount price in cents, stock, image, size, weight, ingredients and featured flag of the row, is active, not yet viewed or sold, and links the named category and brand |
| BulkUploadService.ImportedPrice | src/main/java/com/cosmetics/ecommerce/service/BulkUploadService.java:93-95 | an imported product is never priced below zero, and above zero when the price has at most two decimals |
| BulkUploadService.Outcomes | src/main/java/com/cosmetics/ecommerce/service/BulkUploadService.java:50-68 | one outcome per data row |
| BulkUploadService.OutcomeAt | src/main/java/com/cosmetics/ecommerce/service/BulkUploadService.java:50-68 | the outcome of row k is the parse of row k alone |
| BulkUploadService.Report | src/main/java/com/cosmetics/ecommerce/service/BulkUploadService.java:50-70 | totalRows is the number of data rows and equals successes plus errors; every reported row number is a data row |
| BulkUploadService.Record | src/main/java/com/cosmetics/ecommerce/service/BulkUploadService.java:50-60 | recording a row adds exactly one entry |
| BulkUploadService.Saved | src/main/java/com/cosmetics/ecommerce/service/BulkUploadService.java:53-57 | one saved product per success entry |
| BulkUploadService.EveryRowReported | src/main/java/com/cosmetics/ecommerce/service/BulkUploadService.java:50-68 | row k is in the success list or the error list according to its own outcome, whatever the other rows are |
| BulkUploadService.Appended | src/main/java/com/cosmetics/ecommerce/service/BulkUploadService.java:55 | the saved products sit under consecutive fresh ids and every other row is unchanged |
| BulkUploadService.NextRow | src/main/java/com/cosmetics/ecommerce/service/BulkUploadService.java:50-68 | one more row records its outcome and saves its product if parsed |
| BulkUploadService.AppendedNext | src/main/java/com/cosmetics/ecommerce/service/BulkUploadService.java:55 | saving one more product stores it under the next id |
| BulkUploadService.ParseDataRow | src/main/java/com/cosmetics/ecommerce/service/BulkUploadService.java:53 | parsing data row i gives its outcome |
| BulkUploadService.UploadProducts | src/main/java/com/cosmetics/ecommerce/service/BulkUploadService.java:32-70 | the header is skipped; the report is the report of the data rows' outcomes, and exactly the parsed products are stored, in row order, under fresh ids |
| AnalyticsService.GroupSpec | src/main/java/com/cosmetics/ecommerce/repository/AnalyticsService.java:89-95 | a group exists iff some selling product falls in it, and holds that group's units sold and product count |
| AnalyticsService.CountBoundedBySold | src/main/java/com/cosmetics/ecommerce/repository/AnalyticsService.java:133-150 | a group never counts more products than units sold |
| AnalyticsService.GroupSpecAll | src/main/java/com/cosmetics/ecommerce/repository/AnalyticsService.java:89-95 | GroupSpec for every group name at once |
| AnalyticsService.CategoryDistribution | src/main/java/com/cosmetics/ecommerce/repository/AnalyticsService.java:86-96 | one entry per category having a product with sales; its value is the units sold in it, always positive |
| AnalyticsService.BrandPerformance | src/main/java/com/cosmetics/ecommerce/repository/AnalyticsService.java:129-160 | one entry per brand having a product with sales; total sold and number of selling products, with 1 <= count <= total |
| AnalyticsService.StatusDistribution | src/main/java/com/cosmetics/ecommerce/repository/AnalyticsService.java:221-229 | one entry per status some order has, counting the orders with it |
| AnalyticsService.StatusDistributionTotal | src/main/java/com/cosmetics/ecommerce/repository/AnalyticsService.java:224-228 | the distribution's counts add up to the number of orders |
| AnalyticsService.LowStockIds | src/main/java/com/cosmetics/ecommerce/repository/AnalyticsService.java:180-183 | exactly the products with stock below 10 |
| AnalyticsService.OutOfStockIds | src/main/java/com/cosmetics/ecommerce/repository/AnalyticsService.java:184-186 | exactly the products with stock zero |
| AnalyticsService.DashboardStats | src/main/java/com/cosmetics/ecommerce/repository/AnalyticsService.java:166-201 | totals of orders and products; pending and delivered are the status counts; low stock is the number of products with stock below 10 and out of stock the number with none, so out of stock <= low stock <= total products |
| AnalyticsService.SubsetSize | src/main/java/com/cosmetics/ecommerce/repository/AnalyticsService.java:180-186 | a subset is no larger than its superset |
| AnalyticsService.CategoryLabel | src/main/java/com/cosmetics/ecommerce/repository/AnalyticsService.java:73-74 | the category's name, or "Unknown" without one |
| AnalyticsService.BrandLabelAsWritten | src/main/java/com/cosmetics/ecommerce/repository/AnalyticsService.java:75-76 | the label as coded: fails (null dereference) exactly for a product with a category and no brand |
| AnalyticsService.BrandLabel | src/main/java/com/cosmetics/ecommerce/repository/AnalyticsService.java:75-76 | the brand's name, or "Unknown" without one |
| AnalyticsService.TopProducts | src/main/java/com/cosmetics/ecommerce/repository/AnalyticsService.java:58-80 | a negative limit fails; otherwise the first min(limit, 10) best sellers with their ids, sales and brand labels, in descending sales |
| AnalyticsService.TopProductsAsWritten | src/main/java/com/cosmetics/ecommerce/repository/AnalyticsService.java:58-80 | the list as coded fails exactly when a listed product has a category and no brand |
| AnalyticsService.TopProductsAgreeWhenConsistent | src/main/java/com/cosmetics/ecommerce/repository/AnalyticsService.java:73-76 | the coded and the corrected list agree when every listed product has both or neither reference |
| AnalyticsService.BrandLabelCounterexample | src/main/java/com/cosmetics/ecommerce/repository/AnalyticsService.java:75-76 | a branded product without category is labelled "Unknown", and a categorised product without brand fails the coded list |

## Left out

- Controllers, DTO mapping (ModelMapper, convertToDTO), HTTP status codes and response bodies: routing only. The role checks the controllers impose are not preconditions here; the services' own checks are modelled.
- EmailService and every notification call (order confirmation, low-stock alert mail, approval mails): asynchronous mail I/O. The low-stock alert of updateProduct is a boolean out-parameter.
- Revenue figures: the revenue in getOrderStatistics, the revenue summary, sales trend, monthly comparison and the revenue parts of getTopProducts, getBrandPerformance and getDashboardStats. They are double sums over time windows taken from the wall clock.
- Password hashing, JWT creation, AuthenticationManager and SecurityContextHolder: foreign library calls. Their results are parameters: the encoded password, whether the submitted password matches the stored one, the token, whether the current password matches, and the signed-in user's id.
- Timestamps: every LocalDateTime.now() is a `now` parameter. Product and order timestamps, which no rule reads, are not stored.
- Order numbers: createOrder never sets one, and the Order entity that would assign it is not part of this model. Here a fresh, unused string is a parameter.
- Order.java, OrderItem, OrderItemRequest and the Category/Brand entity files are not part of this model. Of the payment methods only cash on delivery is named; the others are one constructor. Item quantities are any integer, since no bound is visible.
- Paging and sorting of results: searchProducts, getAllProducts, the order listings, chat listings, getAllCategories/getAllBrands and the per-category/brand product pages. Listings are modelled as sets of ids; order and page slicing are not.
- ProductService.getFeaturedProducts, getTopSellingProducts and getLowStockProducts, and OrderService.getRecentOrders and getUserOrders: plain repository queries with no service logic.
- SQL LIKE and LOWER in the keyword search: modelled as infix after ASCII lower-casing. Case mapping beyond ASCII and LIKE wildcards in the keyword are not modelled.
- Integer.parseInt, Character.isWhitespace and String.toLowerCase: modelled on ASCII. Non-ASCII digits and letters are not handled.
- Apache POI workbook reading and generateTemplate: a workbook is a sequence of rows of optional typed cells. Numeric cells hold an exact decimal instead of a double.
- BigDecimal: exponent range limits and the scale-2 rounding of the database column (modelled as half away from zero) are not the library's.
- 32-bit wrap-around of Integer counters (viewCount, stockQuantity, soldCount, unreadCount) and of summingInt in the analytics: counters are unbounded.
- Concurrency and overselling between simultaneous orders: the model is single-threaded. Identity values consumed by a rolled-back insert are not modelled.
- Analytics maps are keyed by the enum itself rather than its name() string; HashMap iteration order is not modelled.
- The repository query findTop10ByIsActiveTrueOrderBySoldCountDesc: modelled by the precondition TopTenOrder on the ranked ids it returns.
- UserApprovalFilter: writing the 403 response body is not modelled; the filter yields a decision.
- ProductService.SearchProducts, ProductService.SelectQuery: the price bounds are whole cents. The source's bounds are Double, so sub-cent bounds and the double-to-decimal comparison of the BETWEEN query are not modelled.
- ProductService.CreateProduct, ProductService.UpdateProduct, BulkUploadService.UploadProducts: the column limits of the product table are not enforced. These are a name of at most 200 characters, a description of at most 2000, and prices of DECIMAL(10,2). A request or row over a limit is stored here. In the source the save fails, and in a bulk upload that failure marks the whole transaction rollback-only.
- ProductService.SearchProducts: the sort property is not checked against the product's attributes. In the source a sortBy that names no Product attribute makes the repository query fail; here the search succeeds.
- AuthService.UpdateProfile: the column limits of the users table are not enforced. These are 50 characters for the first and last name and 15 for the phone number. In the source a longer value makes the save fail and rolls the update back; here it is stored.
- ChatService.SaveMessage: the 2000-character limit of the message column is not enforced. In the source a longer message makes the insert fail; here it is stored.
- UserApprovalService.RejectUser, AuthService.Register, AdminManagementService.CreateAdmin, AdminManagementService.UpdateAdmin: the column limits of the users table are not enforced either. These are a rejection reason of at most 500 characters, a username of at most 50 and an email of at most 100.
- ChatService.SaveMessage: the source stores the message before looking the room up; the transaction rolls back on a missing room, so the model checks first.

## Findings

| source | as written | input that shows it | evidently intended | confidence | as-written member | corrected member |
|---|---|---|---|---|---|---|
| src/main/java/com/cosmetics/ecommerce/repository/AnalyticsService.java:75-76 | the brand label tests `getCategory() != null`, then reads `getBrand().getName()` | a best-selling product with a category and no brand: the null dereference fails the whole list. A product with a brand and no category is labelled "Unknown". Only rows written outside the services reach this case: createProduct and updateProduct require a brand id and look it up, and bulk import rejects a blank or unknown brand (ProductRequest.java:36-37, ProductService.java:128-129 and 157-158, BulkUploadService.java:102-112) | the brand's name when the product has a brand, otherwise "Unknown" | not executed | AnalyticsService.TopProductsAsWritten | AnalyticsService.TopProducts |

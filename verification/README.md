# GadgetHub marketplace core, modelled in Dafny

GadgetHub is a used-phone marketplace. Its Express server keeps three Mongo collections:

- users, each with an e-mail, a password hash, a role and a branch;
- products, each with a price, a category, a seller, a status and a branch of origin;
- transactions (orders), each with a buyer, a seller, a payment method, a price breakdown, a branch and a status.

This project models the business rules of the server's handlers over in-memory copies of those collections. It also models two pure helpers of the React client.

- `wrappers.dfy` (`Wrappers`): the `Option`, `Result` and `Outcome` types.
- `seqs.dfy` (`Seqs`): generic building blocks.
  - `Filter` is an order-keeping filter, as in `Array.prototype.filter`. The server's unsorted queries use it too; see "Left out".
  - `IndexWhere` is a first-match lookup, as in `findById` or `findOne`.
  - `SortNewestFirst` is `sort({createdAt: -1})`.
- `market.dfy` (`Market`): the records and the status strings the handlers compare against. It also holds the pure rules the mutating handlers apply:
  - routing a new user to a branch;
  - pricing a new order;
  - writing a status onto the stored product or order;
  - the store invariant (unique ids and unique e-mails).
- `store.dfy` (`Server`): the class `Store`, whose fields are the three collections plus the next fresh id. Its methods are the three handlers that change data:
  - `Register`
  - `CreateTransaction`
  - `UpdateStatus`
- `queries.dfy` (`Queries`): the read-only handlers, written as functions:
  - the product listing;
  - the role dashboards;
  - a user's orders as buyer and as seller;
  - the root's per-branch report of completed orders.

  This file also has the lemmas that relate the report to the completed orders, and those that relate booking and releasing a product to the listing.
- `client.dfy` (`Client`): `getDisplayName` and the marketplace category filter.

The status update is modelled the way the handler behaves. It writes any requested status over the current one. Only `Rejected` has a side effect: it makes the order's product `Available` again. The server has no transition table, no role checks, no check that the product is still `Available` before booking, and no rounding of the fee, so neither does the model.

Registration routes Bandung and Yogyakarta to the Bandung branch and Surabaya and Bali to Surabaya. Every other city goes to Jakarta, Medan included.

Prices are exact `real`s. The agent fee is `price * 0.05` exactly, which is five per cent of the price with no rounding.

## Model

| member | source | states |
|---|---|---|
| Market.BranchFor | gadgethub-project/server/server.js:162-164 | Bandung and Yogyakarta go to branch Bandung. Surabaya and Bali go to Surabaya. Every other location goes to Jakarta. The result is always one of these three branches. |
| Market.EmailTaken | gadgethub-project/server/server.js:160 | The e-mail counts as taken exactly when some stored user has it. |
| Market.FindProduct | gadgethub-project/server/server.js:179 | The lookup finds a product exactly when one has that id, and what it returns is a stored product with that id. |
| Market.FindTransaction | gadgethub-project/server/server.js:243 | The lookup finds an order exactly when one has that id, and what it returns is a stored order with that id. |
| Market.NewTransaction | gadgethub-project/server/server.js:186-194 | The new order's `basePrice` is the product's price. The agent fee is 5/100 of the price for `cod_agent` and 0 for any other method. `totalPrice` is base plus fee. Seller and branch are copied from the product. Status is `Pending`. |
| Market.SetProductStatus | gadgethub-project/server/server.js:196 | The product with the given id takes the new status. Every other product and every other field is unchanged. |
| Market.SetTransactionStatus | gadgethub-project/server/server.js:243 | The order with the given id takes the requested status, whatever it was before. Every other order and every other field is unchanged. |
| Market.BookThenReleaseRestores | gadgethub-project/server/server.js:244 | If the product was `Available`, booking it and then rejecting the order gives back the exact original product store. |
| Server.Store.constructor | gadgethub-project/server/server.js:52-68 | The store starts with the seeded users and products and no orders, and the store invariant holds. |
| Server.Store.Register | gadgethub-project/server/server.js:158-167 | It fails with `EmailExists` exactly when the e-mail is taken. It fails with `InvalidUser` exactly when the e-mail is empty and not taken, because the schema's `required` e-mail (server.js:9) rejects the insert. On either failure the user store is unchanged. It succeeds exactly when the e-mail is non-empty and not taken, and then appends exactly one `customer` with a fresh id, routed by `BranchFor`. Products and orders never change. E-mails stay unique. |
| Server.Store.CreateTransaction | gadgethub-project/server/server.js:177-198 | It fails with `SelfPurchase` exactly when the product's seller id equals the buyer id (ids are single-spelling numbers here; see "Left out"). A missing product gives `MissingRecord`. On either failure nothing changes. On success it appends exactly one order, built by `NewTransaction` from that product, books that product and changes no other product or user. |
| Server.Store.UpdateStatus | gadgethub-project/server/server.js:241-246 | The order takes the requested status with no check on its old one, and no other order changes. For `Rejected`, the order's product becomes `Available`. Any other status leaves every product unchanged. A missing order changes nothing, and fails only for `Rejected`. |
| Queries.ProductListing | gadgethub-project/server/server.js:169-174 | It returns exactly the `Available` products, with the branch condition applied only for a non-empty branch other than `Semua`. Each appears as often as in the store. The result is ordered by `createdAt`, newest first. |
| Queries.Dashboard | gadgethub-project/server/server.js:201-217 | `root` gets exactly the completed orders. `branch_admin` gets exactly its branch's orders. `agent` gets exactly its branch's orders that are `Assigned` and `cod_agent`. Any other role gets nothing. The model returns them in store order. |
| Queries.OrdersOf | gadgethub-project/server/server.js:220-230 | `buying` holds exactly the user's orders as buyer and `selling` exactly those as seller, with their multiplicities. Both are ordered newest first. |
| Queries.Report | gadgethub-project/server/server.js:233-239 | Every row counts at least one order. Its correctness is stated by the two lemmas below: each row is exactly its branch's completed orders, one row per such branch, and the rows add up to all completed orders. |
| Queries.ReportGroupsCompletedByBranch | gadgethub-project/server/server.js:233-239 | Each report row's `count` and `total` are the number and the summed `totalPrice` of exactly the completed orders of its branch. A branch has a row if and only if it has a completed order. No branch has two rows. |
| Queries.ReportAccountsForAllCompleted | gadgethub-project/server/server.js:234-237 | The row counts add up to the number of completed orders. The row totals add up to their summed `totalPrice`. |
| Queries.BookedProductNotListed | gadgethub-project/server/server.js:196 | Once a product is booked, it is in no product listing. |
| Queries.ReleasedProductListed | gadgethub-project/server/server.js:244 | Once a rejection releases a product, the unfiltered listing shows it again. |
| Seqs.SortNewestFirst | gadgethub-project/server/server.js:173 | The result is ordered by `createdAt`, largest first, and is a permutation of the input. |
| Client.LocalPart | gadgethub-project/client/src/App.jsx:13 | The result is a prefix of the e-mail with no '@', and it is either the whole e-mail or is followed by an '@'. |
| Client.DisplayName | gadgethub-project/client/src/App.jsx:11-14 | It returns 'User' for a missing or empty e-mail. Otherwise it returns the text before the first '@': a prefix with no '@' that is the whole e-mail or is followed by '@'. |
| Client.LocalPartUnique | gadgethub-project/client/src/App.jsx:13 | The three properties above determine the displayed name uniquely. |
| Client.DisplayNameWithoutAt | gadgethub-project/client/src/App.jsx:13 | A non-empty e-mail without '@' is displayed unchanged. |
| Client.CategoryFilter | gadgethub-project/client/src/App.jsx:206-212 | With 'All' it returns the product list itself. Otherwise it returns exactly the products of that category, each as often as in the list. Either way the result is a subsequence of the list, so relative order is kept. |

## Left out

- Login (`POST /api/login`, server.js:150-156) is not modelled. It rests on bcrypt's password comparison and JWT signing, both foreign libraries.
- Password hashing is not modelled. `Register` takes the hash that bcrypt produced as a parameter.
- The Mongo connection, `listen`, CORS and JSON middleware are not modelled.
- The seed data (server.js:52-146) is not modelled. The store's constructor takes whatever users and products the seeding stored.
- `populate` joins are not modelled. Queries return the stored order records; the linked product, buyer and seller documents are not embedded.
- Server.Store.CreateTransaction: the self-purchase guard (server.js:182) compares the seller's id as lower-case hex text with the `buyerId` text of the request. Another spelling of the seller's own id, such as upper-case hex, gets past the guard and is then cast to the seller's ObjectId, so the seller buys their own product. Ids in the model are natural numbers with one spelling, so the model refuses every self-purchase and does not capture this gap.
- Ids are natural numbers, and the store hands out fresh ones from a counter. The cast of every id taken from the request is not modelled: `productId` (server.js:179), the transaction `:id` (server.js:243), `:userId` (server.js:224, 227) and `buyerId` (server.js:189-190). Neither is the failure when one of them is not a valid ObjectId.
- The clock (`Date.now` for `createdAt`) is a parameter.
- Market.NewTransaction: the fee and the total are exact rationals. The server's IEEE-754 rounding of `price * 0.05` is not modelled, nor is the client's fee display.
- Register: the `location` passed to `User.create` is not part of the user schema, so Mongoose's strict schema drops it. The model stores no location.
- A missing product in `CreateTransaction`, or a missing order in a `Rejected` update, makes the handler throw on a null result. The model answers `MissingRecord` and leaves the store unchanged. It does not model the HTTP response of that crash.
- Reading a product and then booking it is not atomic in the server. Concurrent requests are not modelled.
- The product fields `desc`, `isBU` and `negotiable` are not modelled. No handler in the core reads or writes them.
- Seqs.SortNewestFirst: Mongo promises no order among records with equal `createdAt`. The contract leaves that order open as well.
- Queries.ReportGroupsCompletedByBranch: Mongo's `$group` promises no row order. The model lists rows in the order their branch first completes an order, and no stated property depends on that order.
- Queries.Dashboard: the queries use `find` with no `sort`, and Mongo promises no result order for that. The model returns the matching orders in store order; the membership clauses of its contract hold for any order, but the subsequence clause is a choice of the model, not a promise of the server.
- Queries.Dashboard: the `branch` query parameter is always given as a string. The case where it is absent, which Mongo treats as a match on null, is not modelled.
- All React components, routing, axios calls and localStorage are not modelled, apart from the two helpers in `Client`.

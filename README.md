# A verified model of a FastAPI shop backend

This project models, in Dafny, the core of a small e-commerce backend together with
two toy message services from the same repository.

The shop keeps categories, products, cart items, orders and reviews in a relational
store. The model keeps each table as a map from its autoincrement key to the row,
with one counter per table standing for the database sequence. All five tables live
in one `Models.Database` object. Its `Valid()` invariant says:

- every key is below its counter, and the counters start at 1;
- an order row knows its own key.

The router handlers become module-level methods that take that object. Each names in
`modifies` only the tables it writes. A raised `HTTPException` becomes `Failure(ApiError)`: the
constructor is the status code and the payload is the handler's `detail` text.
The checkout is the exception: its refusals are `Failure(CheckoutError)`, one
constructor per reason the handler stops (empty cart, missing product, inactive
product, not enough stock, no price, order not reloaded).

- **Checkout** (`Orders`). `checkout_order` loads the caller's cart lines in id
  order. It walks them once, checking each line against the *live* stock in this
  order: product missing or inactive, then quantity above stock, then no price.
  For each line that passes, it freezes the price into an order item, adds
  `quantity * price` to a running exact total, and lowers the product's stock.
  It then inserts the order, deletes the cart and commits.
  - The handler loop is the method `BuildOrder`. It is proved equal to the left
    fold `Build` over the lines.
  - `CheckoutOrder` works on a copy of the product rows, the session, and writes
    the store only at the commit. So every refusal leaves the store unchanged.
  - Lemmas about `Build` prove the promises listed in the table below.
  - `list_orders` becomes three pure pieces: a newest-first sort (`NewestFirst`),
    an offset/limit window (`Window`) and `ListOrders`. `get_order` becomes the
    owner-scoped lookup `GetOrder`.
- **Schemas** (`Schemas`). Each pydantic constraint is a predicate:
  - `ValidCategoryCreate`: app/schemas.py:13.
  - `ValidProductCreate`: app/schemas.py:36-41.
  - `ValidProductResponse`: app/schemas.py:70.
  - `ValidProductList`: app/schemas.py:81-83.
  - `ValidUserCreate` and `SignupRole`: app/schemas.py:90-91.
  - `ValidUserUpdateRole` and `AssignableRole`: app/schemas.py:96.
  - `ValidGrade`, `ValidReviewCreate` and `ValidReviewResponse`: app/schemas.py:112 and 121.
  - `ValidCartItemBase` and `ValidCartItemUpdate`: app/schemas.py:129 and 135.
  - `ValidCart`: app/schemas.py:148-149.
  - `ValidOrderItem` and `ValidOrderResponse`: app/schemas.py:157-159 and 169.
  - `ValidOrderList`: app/schemas.py:179-181.

  `decimal_places=2` is `AtMostTwoDecimals`. FastAPI checks request bodies before
  the handler runs, so the handlers do not require them. The lemmas assume them
  where the property depends on them.
- **Reviews, categories, products** (`Reviews`, `Categories`, `Products`).
  - The guard order of each handler, the inserted or changed row, and the
    active-only listings.
  - The invariant that a user holds at most one active review per product.
  - Three faithful quirks:
    - `update_product` carries no `WHERE`, so it rewrites every product row.
    - `delete_category` checks only that the row exists, so deleting twice succeeds.
    - A checkout line whose product row is gone is an error, `ProductMissing`.
- **Message stores** (`Messages`, `MainMessages`, `CrudMessages`). Both services keep
  a `list[Message]` that is changed in place, so each is a class with a `seq`
  field.
  - Their search and max loops are proved against the specification functions
    `IndexOf` and `MaxId` in `Messages`.
  - The lemmas there show how ids behave: a created id is fresh and is found at
    the end, a delete removes exactly one entry, and a replace keeps the id.

Decimal money is Dafny `real`; "## Left out" says how that differs from Python's
`Decimal`. `created_at` is an abstract integer timestamp passed to the checkout as
`now`. Where the source issues a `SELECT` with no `ORDER BY`, the model returns rows
in ascending key order. The listings return each row with its key, as
`Tables.Entry(id, row)`, since the response models carry `id`.

Four details of the checkout:

- The stock error carries the product's name.
- A cart line whose product row is gone fails with `ProductMissing`.
- A product that appears on two lines is checked the second time against the
  stock the first line already took. Its stock then drops by the total demand
  over all its lines.
- The stock check and the decrement are a plain read-modify-write inside the loop.

## Model

| member | source | states |
|---|---|---|
| Tables.SelectWhere | app/routers/products.py:23-24 | SELECT ... WHERE lists every row satisfying the filter exactly once, with its key, in ascending key order, and nothing else |
| Tables.SelectionIsUnique | app/routers/products.py:23-24 | the listing contract fixes the result: two listings of the same table and filter are equal |
| Orders.UserCartIds | app/routers/orders.py:32-36 | the ids selected are exactly the stored cart items of the caller, in strictly ascending order |
| Orders.UserCart | app/routers/orders.py:32-36 | line i of the cart snapshot is the stored row of the caller's i-th cart-item id, so every line is the caller's |
| Orders.DeleteCartOf | app/routers/orders.py:64 | after the cart delete no line of the caller remains; every other user's line is kept unchanged |
| Orders.LineCheck | app/routers/orders.py:44-50 | a line passes exactly when its product exists, is active and has a price, and its quantity does not exceed the live stock |
| Orders.RejectionIsFinal | app/routers/orders.py:43-50 | once a prefix of the cart is refused, the whole checkout is refused with that same error (fail fast) |
| Orders.BuildKeepsKeys | app/routers/orders.py:43-60 | on success the session's product rows have exactly the stored product ids: checkout adds and removes no product |
| Orders.BuildStock | app/routers/orders.py:60 | on success each product's row is its stored row with the stock lowered by the total quantity its lines ask for, and no other field changed |
| Orders.BuildStockBounded | app/routers/orders.py:47-48 | on success every stock the checkout touched is left non-negative |
| Orders.BuildLinesOrderable | app/routers/orders.py:45-50 | on success every line's product exists, is active and has a price |
| Orders.BuildLength | app/routers/orders.py:43-58 | on success there is exactly one order item per cart line |
| Orders.BuildTotal | app/routers/orders.py:41-62 | on success there is one item per line and the order total is the sum of the item totals, starting from exact 0 |
| Orders.BuildItemAt | app/routers/orders.py:52-58 | on success item i is ItemFor of line i and its product's stored row: same product and quantity, the stored price frozen as unit price, quantity * unit price as line total |
| Orders.BuildLastItem | app/routers/orders.py:52-58 | on success the item list is that of all lines but the last, followed by the last line's item priced from the stored row |
| Orders.BuildSucceedsIff | app/routers/orders.py:43-50 | with non-negative quantities, checkout succeeds exactly when every line's product is orderable and no product is asked for more than its stock over all its lines |
| Orders.FirstFailingLineDecides | app/routers/orders.py:43-50 | checkout fails exactly when some line fails after all earlier lines passed; that line is unique and its check gives the error |
| Orders.FailingLineDecides | app/routers/orders.py:43-50 | a line that fails after all earlier lines passed gives the whole checkout its error |
| Orders.FailingLineIsUnique | app/routers/orders.py:43-50 | at most one line fails after all earlier lines passed |
| Orders.FailureHasFailingLine | app/routers/orders.py:43-50 | a refused checkout has a line that failed after all earlier lines passed |
| Orders.LoadOrderWithItems | app/routers/orders.py:18-27 | the reload finds an order exactly when its id is stored, and returns that row |
| Orders.BuildOrder | app/routers/orders.py:41-61 | the handler's loop over the lines, with its running total, item list and in-place stock decrements, yields exactly Build of the lines |
| Orders.Commit | app/routers/orders.py:62-65 | the order is added at the next id with the accumulated total and items, the session's product rows are stored, only the caller's cart lines are deleted, and Valid is kept |
| Orders.CheckoutOrder | app/routers/orders.py:30-70 | empty cart gives EmptyCart and a refused line gives its error, both with the store unchanged; success inserts the order at the next id with Build's items and total, stores Build's stock, deletes only the caller's cart, and keeps Valid |
| Orders.ScenarioSingleLine | app/routers/orders.py:47-60 | 2 units at 10.00 with stock 5 give one item of 20.00, total 20.00 and stock 3 |
| Orders.ScenarioNotEnoughStock | app/routers/orders.py:47-48 | 10 units against stock 3 are refused with "Not enough stock" naming the product |
| Orders.ScenarioRepeatedProduct | app/routers/orders.py:47-60 | two lines of 3 for a product with stock 5 pass singly but the second is refused against the stock the first took |
| Orders.ScenarioInactiveProduct | app/routers/orders.py:45-46 | a cart whose second line names an inactive product is refused with that product's id |
| Orders.SumTotalsNonNegative | app/routers/orders.py:41-53 | a total accumulated from non-negative line totals is non-negative |
| Orders.ItemMeetsSchema | app/schemas.py:157-159 | a line of at least one unit at a non-negative price gives an item the OrderItem response model accepts |
| Orders.CheckoutMeetsOrderSchema | app/schemas.py:157-169 | with cart quantities >= 1 and non-negative prices, the created order meets the OrderItem and Order response constraints |
| Orders.ItemKeepsCents | app/routers/orders.py:52 | a line total of a two-decimal price is two-decimal |
| Orders.SumTotalsKeepsCents | app/routers/orders.py:41-53 | a sum of two-decimal line totals is two-decimal |
| Orders.CheckoutKeepsCents | app/routers/orders.py:41-62 | with two-decimal stored prices, every line total and the order total are two-decimal: the exact arithmetic needs no rounding |
| Orders.CheckoutKeepsStockNonNegative | app/routers/orders.py:47-60 | a successful checkout over non-negative stocks leaves every stock non-negative |
| Orders.GetOrder | app/routers/orders.py:96-101 | an order is returned exactly when it exists and belongs to the caller; otherwise the same "Order not found" 404, so another user's order is indistinguishable from a missing one |
| Orders.UserOrderIds | app/routers/orders.py:80-86 | the caller's order ids are exactly the stored orders with that user id, ascending |
| Orders.Insert | app/routers/orders.py:87 | inserting one order gives one more row, headed by it or by the old head |
| Orders.InsertIsPermutation | app/routers/orders.py:87 | inserting adds exactly the one order: the result is a permutation of the rows plus it |
| Orders.InsertKeepsOrder | app/routers/orders.py:87 | inserting into a newest-first sequence keeps it newest first |
| Orders.NewestFirst | app/routers/orders.py:87 | ORDER BY created_at DESC is a permutation of the rows that is newest first |
| Orders.Window | app/routers/orders.py:88-89 | OFFSET/LIMIT returns at most limit rows, row i being row offset + i, and exactly the rows that exist past the offset |
| Orders.WindowOfSorted | app/routers/orders.py:87-89 | a window of a newest-first ordering of the rows is newest first and holds only those rows |
| Orders.ListOrders | app/routers/orders.py:73-93 | refused with 422 exactly when page < 1 or page_size outside 1..100; otherwise a valid OrderList whose total counts all the caller's orders and whose items are exactly the OFFSET (page - 1) * page_size, LIMIT page_size slice of the caller's orders sorted newest first |
| Orders.ListOrdersQuery | app/routers/orders.py:75-76 | an omitted page is 1 and an omitted page_size is 10, so only a parameter that is sent can be refused, and the reply echoes the page and size used |
| Orders.DefaultQueryIsNewestTen | app/routers/orders.py:74-91 | a query with no parameters lists the caller's ten newest orders, or all of them when there are fewer |
| Orders.EveryOrderIsOnItsPage | app/routers/orders.py:83-91 | paging loses nothing: the j-th of the caller's orders, newest first, is item j % page_size of page j / page_size + 1 |
| Schemas.SumKeepsCents | app/schemas.py:40 | the sum of two amounts with two decimals has two decimals |
| Schemas.ScaledKeepsCents | app/schemas.py:40 | a whole multiple of an amount with two decimals has two decimals |
| Schemas.NewUserCreate | app/schemas.py:91 | an omitted signup role defaults to "buyer", which is an accepted signup role |
| Schemas.SignupRolesAreAssignable | app/schemas.py:91-96 | signup roles are exactly the assignable roles other than "admin" |
| Categories.GetAllCategories | app/routers/categories.py:17-24 | the listing holds every active category exactly once, with its id and its stored row, in ascending id order, and nothing else |
| Categories.FromPayload | app/routers/categories.py:40 | a created or updated row takes the payload's name and parent id |
| Categories.Deactivate | app/routers/categories.py:83 | the soft delete clears only that row's active flag, keeping its name and parent, and changes no other row |
| Categories.DeactivateIdempotent | app/routers/categories.py:79-84 | deleting an already deleted category leaves the table as one delete did |
| Categories.DeactivateHides | app/routers/categories.py:22 | after a delete the category is no longer listed and every other category is listed as before |
| Categories.CreateCategory | app/routers/categories.py:27-46 | a named parent that is missing or inactive gives 400 "Parent category not found" with nothing inserted; otherwise an active row with the payload's fields is inserted at the next id |
| Categories.UpdateCategory | app/routers/categories.py:49-71 | a missing or inactive target gives 404, then a bad parent gives 400, both with no change; otherwise only the target's name and parent change |
| Categories.DeleteCategory | app/routers/categories.py:74-85 | only a missing row gives 404; any existing row, active or not, is deactivated |
| Products.GetAllProducts | app/routers/products.py:18-25 | the listing holds every active product exactly once, with its id and its stored row, in ascending id order, and nothing else |
| Products.GetProductsByCategory | app/routers/products.py:43-54 | 404 exactly when the category is missing or inactive; otherwise every active product of that category exactly once, with its id, in ascending id order, and nothing else |
| Products.GetProduct | app/routers/products.py:57-67 | a product is returned exactly when it exists and is active, else 404 |
| Products.WithPayload | app/routers/products.py:84 | an updated row takes every payload field and keeps its own active flag |
| Products.RewriteAll | app/routers/products.py:84-85 | the update statement, having no WHERE clause, rewrites every product row with the payload and removes or adds none |
| Products.RewriteAllMakesRowsAlike | app/routers/products.py:84 | after an update any two products agree on every field but the active flag |
| Products.RewriteAllIdempotent | app/routers/products.py:84-85 | repeating the same update changes nothing more |
| Products.DeactivateProduct | app/routers/products.py:100 | the soft delete clears only that row's active flag and changes no other row |
| Products.DeletedProductIsGone | app/routers/products.py:96-101 | a deleted product is no longer active, so a second delete finds nothing; other products keep their state |
| Products.NewProduct | app/routers/products.py:37 | a created row takes every payload field and is active |
| Products.PayloadRowsMeetResponse | app/schemas.py:36-41 | a valid payload yields created and rewritten rows that the Product response model accepts, with non-negative stock |
| Products.CreateProduct | app/routers/products.py:28-40 | a missing or inactive category gives 400 with nothing inserted; otherwise the payload's active row is inserted at the next id |
| Products.UpdateProduct | app/routers/products.py:70-88 | an inactive target gives 404, then an inactive category 400, both with no change; otherwise every product row is rewritten, the re-read target is returned, and orders keep their frozen prices |
| Products.DeleteProduct | app/routers/products.py:91-102 | a missing or inactive product gives 404 with no change; otherwise only its active flag is cleared and the reply names its id |
| Reviews.HasActiveReview | app/routers/reviews.py:48-50 | the duplicate query is true exactly when the user has an active review of the product |
| Reviews.GetReviews | app/routers/reviews.py:29-33 | the listing holds every active review exactly once, with its id and its stored row, in ascending id order, and nothing else |
| Reviews.NewReview | app/routers/reviews.py:42-44 | a new review carries the caller's id, the payload's product, grade and comment, and is active |
| Reviews.NewReviewMeetsResponse | app/schemas.py:112-121 | the stored review's grade meets the response model exactly when the payload met the request model |
| Reviews.InsertKeepsOneActive | app/routers/reviews.py:48-55 | inserting an active review for a pair with none keeps at most one active review per (user, product) |
| Reviews.DeactivateReview | app/routers/reviews.py:72 | the soft delete clears only that review's active flag and changes no other review |
| Reviews.DeactivateKeepsOneActive | app/routers/reviews.py:72 | a delete keeps the one-active-review invariant and frees the pair for a new review |
| Reviews.CreateReview | app/routers/reviews.py:36-58 | non-buyer 403, then missing or inactive product 404, then duplicate 400, all with no change; otherwise the caller's active review is inserted at the next id; the one-active-review invariant and valid grades are kept |
| Reviews.DeleteReview | app/routers/reviews.py:61-79 | missing or inactive 404, then neither author nor admin 403, both with no change; otherwise only that review is deactivated; both invariants are kept |
| Texts.DecimalText | crud.py:81 | the rendering of an integer is non-empty and starts with a minus sign exactly for negatives |
| Texts.NatTextRoundTrip | crud.py:81 | the digits of a natural number read back as that number |
| Texts.NatTextInjective | crud.py:81 | distinct natural numbers have distinct digit strings |
| Texts.DecimalTextInjective | crud.py:81 | distinct ids render as distinct texts, so a reply names its id unambiguously |
| Messages.MaxId | main.py:31 | the maximum id is at least every stored id and is one of them; -1 for an empty list |
| Messages.NextId | main.py:30-31 | the next id exceeds every stored id, is 0 for an empty list and is one past a stored id otherwise |
| Messages.IndexOf | main.py:44-48 | -1 exactly when no message has the id; otherwise the first position holding it |
| Messages.Remove | main.py:80 | pop(k) shortens the list by one and keeps the other messages in order |
| Messages.AppendFreshKeepsUnique | main.py:37-41 | appending a message with the next id keeps ids unique |
| Messages.CreatedIsFound | main.py:39-48 | the created message is found by its id at the end of the list |
| Messages.IndexOfAfterAbsent | main.py:44-48 | appending a message whose id is absent puts the first match at the end |
| Messages.DeleteRemovesId | main.py:77-80 | with unique ids, popping the match leaves no message with that id and keeps ids unique |
| Messages.ReplaceKeepsIndex | main.py:71-72 | replacing the match with the same id keeps ids unique and the match where it was |
| MainMessages.MessageService.constructor | main.py:27 | the list starts as the single message 0 "My first message" |
| MainMessages.MessageService.NextId | main.py:30-31 | the scan returns NextId of the list |
| MainMessages.MessageService.GetIndex | main.py:44-48 | the enumerate loop returns IndexOf the id |
| MainMessages.MessageService.GetMessages | main.py:33-35 | the whole list is returned |
| MainMessages.MessageService.CreateMessage | main.py:37-41 | exactly one message with the next id is appended, earlier entries unchanged, ids stay unique and the new id is found at the end |
| MainMessages.MessageService.GetMessage | main.py:50-55 | 404 exactly when no message has the id; otherwise the first match |
| MainMessages.MessageService.UpdateMessage | main.py:57-64 | 404 with no change when absent; no content leaves the list unchanged; otherwise only the match's content changes |
| MainMessages.MessageService.ReplaceMessage | main.py:66-73 | 404 with no change when absent; otherwise the match is replaced in place with the same id, length kept |
| MainMessages.MessageService.DeleteMessage | main.py:75-80 | 404 with no change when absent; otherwise exactly the match is removed, the rest kept in order |
| CrudMessages.MessageBoard.constructor | crud.py:20 | the list starts as the single message 0 "First post in FastAPI" |
| CrudMessages.MessageBoard.AllocateId | crud.py:61 | the max scan with default -1 gives NextId of the list |
| CrudMessages.MessageBoard.CreateMessage | crud.py:59-64 | exactly one message with the next id is appended and ids stay unique |
| CrudMessages.MessageBoard.CreateMessageForm | crud.py:31-36 | the form path allocates and appends exactly like the JSON path |
| CrudMessages.MessageBoard.ReadMessages | crud.py:47-49 | the whole list is returned |
| CrudMessages.MessageBoard.ReadMessage | crud.py:51-56 | 404 exactly when no message has the id; otherwise the first match |
| CrudMessages.MessageBoard.UpdateMessage | crud.py:66-73 | 404 with no change when absent; otherwise the first match is replaced with the same id and the new content, length kept |
| CrudMessages.MessageBoard.DeleteMessage | crud.py:76-82 | 404 with no change when absent; otherwise exactly the first match is removed and the reply names the id |
| CrudMessages.MessageBoard.DeleteMessages | crud.py:84-87 | the list is left empty |

## Left out

- HTTP routing, status codes beyond the error constructor, response serialisation, CORS, templates and static files are not modelled. The HTML pages of crud.py (lines 23-29 and 36) are left out; the detail page at crud.py:38-43 runs the same search as `ReadMessage`.
- Request-body validation by FastAPI (the 422 responses) is not modelled as a handler step. Payload predicates appear as hypotheses of the lemmas that need them.
- `update_product_rating` (app/routers/reviews.py:16-26) is left out. It is a floating-point SQL average. Products carry no rating field, and review creation and deletion do not recompute one.
- Authentication, password hashing, JWT handling and the user lookup (app/auth.py, app/routers/users.py) are left out. The caller is given as a `User(id, role)` value.
- `EmailStr` and `SecretStr` checking is library behaviour. Only the password length and role constraints are modelled.
- The SQLAlchemy models for categories, products, cart items, orders and users are not part of this model.
  - Created categories and products are assumed active by default, as reviews are (app/models/reviews.py:15).
  - The order status, updated_at, comment dates and image URLs are not modelled.
- Timestamps come from the clock. `created_at` is the parameter `now` of `CheckoutOrder`.
- Orders with equal `created_at` are listed in ascending id order. The SQL query leaves their order unspecified.
- Listings with no `ORDER BY` return rows in ascending id order.
- Money is exact: Dafny `real` never rounds. Python's `Decimal` rounds each `+` and `*` to the context precision, 28 significant digits by default. With two-decimal prices and integer quantities every result is a whole number of cents (`CheckoutKeepsCents`), which `Decimal` holds exactly while it has at most 28 digits. Larger amounts, where `Decimal` would round, are not modelled.
- Concurrency is not modelled: the model is sequential. Two concurrent checkouts racing on one product's stock are out of scope. The source does a plain read-modify-write with no locking.
- Sessions, commits and rollbacks are modelled only as "the store is written at the commit". A persistence failure cannot happen in the model, so the `LoadFailed` outcome of `CheckoutOrder` is never produced.
- The Cart schema (`ValidCart`) and the ProductList schema (`ValidProductList`) are stated as predicates only. No modelled handler returns a cart or a product list.
- BuildSucceedsIff: stated only for carts whose quantities are non-negative. The cart schema guarantees that, and with a negative quantity the stock taken by one line can re-enable a later line.

# E-commerce microservices: order placement and product CRUD in Dafny

This project models the two pieces of sequential logic in an e-commerce system built from three
HTTP microservices (order, product, user):

- **Order placement** (`OrderService.placeOrder`, `getOrderById`). The workflow first checks that
  the ordering user exists. It then walks the order's item map. For each product id and quantity
  it fetches the product and rejects a missing product or one with too little stock. Otherwise it
  subtracts the quantity, writes the product back and adds `price * quantity` to the running
  total. At the end it sets the total and the `PLACED` status, saves the order and appends the new
  order id to the user's order list.
- **Product CRUD** (`ProductService`). `addProduct` rejects a negative quantity. Get, update and
  delete each fail with "Product not found with id: N" when the id is absent. Update overwrites
  the five mutable fields.

## Structure

- `wrappers.dfy`, module `Wrappers`: `Option`, `Result` (a value or the exception a Java method
  throws) and `Outcome` (a `void` method that returns or throws).
- `java_lang.dfy`, module `JavaLang`: Java's 32-bit `int`, with its wrap-around subtraction `Sub`,
  and `Long.toString` (`LongToString`), which is what `"text" + id` appends to a message.
- `products.dfy`, module `Products`: the `Product` row, `ProductError` with the exact message
  texts, and class `ProductService` over a `map<int, Product>` table and an id counter.
- `orders.dfy`, module `Orders`: `OrderRequest`, `Order`, `OrderError` with the exact message
  texts, the item walk as functions, the lemmas about it, and class `OrderService`.
- `scenarios.dfy`, module `Scenarios`: client methods that replay the unit and integration tests
  using only the contracts (for example: 10.0 per unit, 5 in stock, 2 ordered gives a total of 20.0
  and leaves 3 in stock).

### The order workflow

`OrderService` holds the state the workflow reaches through its collaborators:

- `products` is the product table behind `ProductClient`;
- `userOrders` is the user service: a user exists exactly when it has an order-id list;
- `orders` and `nextOrderId` are the order repository and its generated ids.

`HashMap` iteration order is unspecified, so `PlaceOrder` takes it as a parameter `iteration`.
`IsIteration` requires every key of the item map exactly once.

The loop of `placeOrder` is specified by the functions `Step` (one pass of the loop body) and `Run`
(the loop over a prefix of the iteration). They produce a `Walk`: the product table, the running
total and the exception that stopped the loop, if any. `PlaceOrder` is proved to leave the table
exactly as `Run` does, whether the walk fails or not. `Run` is then related to three reference
definitions stated on the table before the order:

- `Available`: every product exists with enough stock;
- `Decremented`: each listed product has its quantity taken off, all others are unchanged;
- `Total`: the sum of unit price times quantity.

There is no rollback. When an item fails, the items processed before it stay decremented
(`FirstFailureDecides`). Requested quantities are not validated. A negative quantity passes the
stock check whenever the stock is at least that quantity, which holds for every non-negative
stock. It then raises the stock, wrapping past `Integer.MAX_VALUE` as Java's `int` subtraction
does (`NegativeQuantityRestocks`).

### Stock can become negative

- `updateProduct` stores whatever quantity it is given, a negative one included
  (ProductService.java:49; `UpdateProduct`).
- A negative requested quantity passes the stock check on any non-negative stock. It raises the
  stock and can wrap it past
  `Integer.MAX_VALUE` to a negative value (OrderService.java:53-58;
  `NegativeQuantityRestocks`).
- `RunKeepsStockNonNegative` proves that no stock becomes negative only when no requested
  quantity is negative and no stock is negative to begin with.

Product quantities are Java `int`s. The item map is `Map<Long, Integer>`, and the stock field is
taken to be an `int` as well.

## Model

| member | source | states |
|---|---|---|
| `JavaLang.Sub` | order-service/src/main/java/com/microservice/order_service/service/OrderService.java:58 | Java `int` subtraction: congruent to the exact difference modulo 2^32, and equal to it whenever the difference fits in 32 bits |
| `JavaLang.LongToString` | order-service/src/main/java/com/microservice/order_service/service/OrderService.java:39 | the id as the messages print it: non-empty, and it starts with '-' exactly for a negative id |
| `JavaLang.LongToStringValue` | order-service/src/main/java/com/microservice/order_service/service/OrderService.java:39 | the printed id reads back as the id (minus sign, then the decimal value of the digits) |
| `JavaLang.NatToStringValue` | order-service/src/main/java/com/microservice/order_service/service/OrderService.java:51 | the printed numeral's decimal value is the number printed |
| `Orders.OrderError.Message` | order-service/src/main/java/com/microservice/order_service/service/OrderService.java:39-54 | each order exception's message (lines 39, 51, 54 and the Order not found text of line 83) starts with its cause's fixed text (`Prefix`), and the rest reads back as the user, product or order id |
| `Products.ProductError.Message` | product-service/src/main/java/com/microservice/product_service/service/ProductService.java:24-38 | "Quantity cannot be negative" for a negative quantity; otherwise "Product not found with id: " followed by text that reads back as the id (lines 38 and 58) |
| `Orders.Step` | order-service/src/main/java/com/microservice/order_service/service/OrderService.java:49-61 | one loop pass: it succeeds exactly when the product exists with at least the requested stock. A missing product gives ProductNotFound and too little stock gives InsufficientQuantity. A failing pass changes neither the table nor the total. A passing one rewrites only that product, to `Take` of it, and adds its `LineTotal` at the old price. A walk that has already failed stays as it is |
| `Orders.Take` | order-service/src/main/java/com/microservice/order_service/service/OrderService.java:58 | only the quantity changes; the new quantity is congruent to stock minus request modulo 2^32, and equals it (and is non-negative) when 0 <= request <= stock |
| `Orders.LineTotal` | order-service/src/main/java/com/microservice/order_service/service/OrderService.java:61 | a zero quantity contributes nothing; a non-negative price and quantity contribute a non-negative amount; a negative quantity of a positively priced product contributes a negative amount |
| `JavaLang.NatToString` | order-service/src/main/java/com/microservice/order_service/service/OrderService.java:51 | the decimal numeral is made of digits only, is one character long exactly below 10, and has no leading zero |
| `Orders.MessageIdentifiesError` | order-service/src/main/java/com/microservice/order_service/service/OrderService.java:36-54 | two order exceptions with the same message text have the same cause and the same id |
| `Products.MessageIdentifiesError` | product-service/src/main/java/com/microservice/product_service/service/ProductService.java:23-38 | two product exceptions with the same message text have the same cause and the same id |
| `Orders.OrderService.PlaceOrder` | order-service/src/main/java/com/microservice/order_service/service/OrderService.java:32-72 | an unknown user fails with UserNotFound and changes nothing. Otherwise the product table becomes what the walk leaves, even when it fails. On failure nothing is saved and no user list changes. On success the order is saved under a fresh id with the walk's total and status PLACED, and that id is appended once to the orderer's list, with other users unchanged. It succeeds exactly when the user exists and every product is available, and then the table is `Decremented` and the total is `Total` |
| `Orders.OrderService.GetOrderById` | order-service/src/main/java/com/microservice/order_service/service/OrderService.java:81-84 | it succeeds exactly for a saved id and then returns that order, whose id is the one asked for; otherwise it fails with OrderNotFound of that id |
| `Orders.RunSucceeds` | order-service/src/main/java/com/microservice/order_service/service/OrderService.java:45-62 | the walk succeeds exactly when every product exists with at least the requested stock. On success the table has each ordered product's quantity reduced by its request and every other product unchanged, and the total is the sum of pre-order unit price times quantity |
| `Orders.RunStopsAfterFailure` | order-service/src/main/java/com/microservice/order_service/service/OrderService.java:49-55 | once an entry has failed, no later entry changes the table, the total or the error |
| `Orders.FirstFailureDecides` | order-service/src/main/java/com/microservice/order_service/service/OrderService.java:45-62 | the first failing entry decides the error: ProductNotFound for a missing product, InsufficientQuantity for too little stock. The table keeps the entries before it decremented (no rollback) and leaves the failing product and all later ones unchanged |
| `Orders.RunKeepsStockNonNegative` | order-service/src/main/java/com/microservice/order_service/service/OrderService.java:53-58 | with no negative stock and no negative request, the walk never makes a stock negative, whether it fails or not |
| `Orders.NegativeQuantityRestocks` | order-service/src/main/java/com/microservice/order_service/service/OrderService.java:53-58 | a negative requested quantity passes the stock check on any stock at least that quantity, so on every non-negative stock. It lowers the total when the price is positive, and raises the stock by its magnitude or wraps it negative past Integer.MAX_VALUE |
| `Orders.TotalPermutation` | order-service/src/main/java/com/microservice/order_service/service/OrderService.java:45-61 | in exact arithmetic, the total price over the same set of products is the same in every visiting order |
| `Orders.IterationOrderIrrelevant` | order-service/src/main/java/com/microservice/order_service/service/OrderService.java:45-62 | for any two iteration orders of the item map, the walk succeeds for both or for neither, and on success the resulting table and (in exact arithmetic) the total are equal |
| `Products.ProductService.AddProduct` | product-service/src/main/java/com/microservice/product_service/service/ProductService.java:21-27 | a negative quantity fails with "Quantity cannot be negative" and changes nothing. Otherwise the product is stored under a fresh id and returned, nothing else changes, a later get returns it, and non-negative stock is preserved |
| `Products.ProductService.GetProductById` | product-service/src/main/java/com/microservice/product_service/service/ProductService.java:36-39 | it succeeds exactly for a stored id and returns that row, whose id is the one asked for; otherwise it fails with NotFound of that id. It reads and changes nothing else |
| `Products.ProductService.UpdateProduct` | product-service/src/main/java/com/microservice/product_service/service/ProductService.java:42-51 | an absent id fails with NotFound and writes nothing. A present id keeps its id, takes name, description, category, price and quantity from the update (a negative quantity included), and no other entry changes |
| `Products.ProductService.DeleteProduct` | product-service/src/main/java/com/microservice/product_service/service/ProductService.java:54-63 | an absent id fails with NotFound and leaves the table unchanged. A present id removes exactly that key. Either way a later get of that id fails with NotFound |

## Left out

- HTTP, Feign and JSON: the services call each other's state directly. A transport failure of the
  user lookup is indistinguishable from an unknown user, since the source catches every exception
  there. Transport failures of the product calls and of `addOrderToUser` are not modelled.
- A missing product is modelled as the product client returning no product, as the unit test
  mocks it. The product service itself answers a missing id with HTTP 400, and a Feign client
  throws on a non-2xx reply by default. So in the deployed system a missing product surfaces as an
  uncaught client exception rather than the "Product not found with id: P" order exception. That
  path is not modelled.
- `getAllOrders`, `getOrdersByUserId`, `getAllProducts`, `getProductsByPriceRange`,
  `getProductsByName` and `getProductsByCategory`: they pass straight to Spring Data derived
  queries, whose semantics live in a library. `ProductRepository.java` is not part of this model.
- The user service's own operations (add, update, delete, list): only "the user exists" and
  "append an order id" are modelled, as the order-id-list map.
- JPA id generation is a counter starting at 1. A caller-supplied id on a posted product or order
  is ignored, so JPA's merge-on-save for an existing id is not modelled.
- Ids (Java `Long`) are unbounded integers: the 64-bit range is not modelled, and the only
  arithmetic on ids is the counter.
- Prices are exact reals: `double` rounding is not modelled. Java's `double` sum can differ by
  rounding between iteration orders, so `TotalPermutation` and `IterationOrderIrrelevant` hold for
  exact sums only.
- `placeOrder` mutates the caller's `OrderModel` (total, status) and the repository returns it.
  The model returns the saved order as a new value instead, so object identity and aliasing are
  not modelled.
- `OrderStatus` has only `PLACED`: the other constants and status transitions are outside the
  workflow.
- Null fields (a null `Integer` quantity, a null price) are not modelled.
- Logging, dependency injection, exception-to-HTTP-status mapping and concurrent placements
  racing on one product.

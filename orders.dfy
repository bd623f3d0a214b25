/** The order service: placing an order checks the user, walks the order's
    items against the product table (taking stock and pricing each line),
    saves the order and records its id on the user (OrderService.java). */
module Orders {
  import opened Wrappers
  import opened JavaLang
  import opened Products

  /** Only the initial status appears in the workflow. */
  datatype OrderStatus = Placed

  /** What the client posts: who orders, and a quantity per product id. */
  datatype OrderRequest = OrderRequest(userId: int, items: map<int, int32>)

  /** A saved row of the order table (OrderModel). */
  datatype Order = Order(
    id: int,
    userId: int,
    items: map<int, int32>,
    totalPrice: real,
    status: OrderStatus)

  /** The OrderException the service throws, by cause. */
  datatype OrderError =
    | UserNotFound(userId: int)
    | ProductNotFound(productId: int)
    | InsufficientQuantity(productId: int)
    | OrderNotFound(orderId: int)
  {
    function Prefix(): (p: string)
      ensures |p| > 0
    {
      match this
      case UserNotFound(_) => "User not found with id: "
      case ProductNotFound(_) => "Product not found with id: "
      case InsufficientQuantity(_) => "Insufficient quantity for product: "
      case OrderNotFound(_) => "Order not found with id: "
    }

    function Subject(): int {
      match this
      case UserNotFound(u) => u
      case ProductNotFound(p) => p
      case InsufficientQuantity(p) => p
      case OrderNotFound(o) => o
    }

    /** The exception's message: its fixed text followed by the id, which
        reads back as the id. */
    function Message(): (m: string)
      ensures |Prefix()| < |m| && m[..|Prefix()|] == Prefix()
      ensures LongValue(m[|Prefix()|..]) == Subject()
    {
      var id := LongToString(Subject());
      LongToStringValue(Subject());
      assert (Prefix() + id)[|Prefix()|..] == id;
      Prefix() + id
    }
  }

  /** Different failures carry different messages. */
  lemma MessageIdentifiesError(e1: OrderError, e2: OrderError)
    requires e1.Message() == e2.Message()
    ensures e1 == e2
  {
    var m := e1.Message();
    assert m[0] == e1.Prefix()[0] && m[0] == e2.Prefix()[0];
    assert e1.Prefix() == e2.Prefix();
    MessageSuffix(e1.Prefix(), e1.Subject(), e2.Subject());
  }

  // ---------------------------------------------------------------------
  // The item walk of placeOrder, as functions of the product table.

  ghost predicate Distinct(keys: seq<int>) {
    forall i, j :: 0 <= i < j < |keys| ==> keys[i] != keys[j]
  }

  ghost predicate Within<V>(keys: seq<int>, m: map<int, V>) {
    forall k :: k in keys ==> k in m
  }

  /** keys is one order in which a HashMap with these items may hand out its
      entries: every key exactly once. */
  ghost predicate IsIteration(keys: seq<int>, items: map<int, int32>) {
    && Distinct(keys)
    && Within(keys, items)
    && forall k :: k in items ==> k in keys
  }

  /** Where the loop over the items stands: the product table as it now is,
      the running price, and the exception that stopped the loop, if any. */
  datatype Walk = Walk(stock: map<int, Product>, total: real, error: Option<OrderError>)

  /** The product with quantity taken off its stock (Java `int` subtraction);
      every other field as it was. */
  function Take(p: Product, quantity: int32): (r: Product)
    ensures r == p.(quantity := r.quantity)
    ensures (p.quantity - quantity - r.quantity) % 0x1_0000_0000 == 0
    ensures 0 <= quantity <= p.quantity ==> 0 <= r.quantity == p.quantity - quantity
  {
    p.(quantity := Sub(p.quantity, quantity))
  }

  /** price * quantity, the line's contribution to the total price. A
      negative quantity of a priced product makes it negative. */
  function LineTotal(p: Product, quantity: int32): (r: real)
    ensures quantity == 0 ==> r == 0.0
    ensures p.price >= 0.0 && quantity >= 0 ==> r >= 0.0
    ensures p.price > 0.0 && quantity < 0 ==> r < 0.0
  {
    p.price * quantity as real
  }

  /** One pass of the loop body over the entry (productId, quantity). A walk
      that has already failed stays as it is. */
  ghost function Step(w: Walk, productId: int, quantity: int32): (r: Walk)
    ensures w.error.Some? ==> r == w
    ensures r.error.None? <==> w.error.None? && productId in w.stock && w.stock[productId].quantity >= quantity
    ensures w.error.None? && productId !in w.stock ==> r.error == Some(ProductNotFound(productId))
    ensures w.error.None? && productId in w.stock && w.stock[productId].quantity < quantity ==>
      r.error == Some(InsufficientQuantity(productId))
    // a failing pass writes nothing back
    ensures r.error.Some? ==> r.stock == w.stock && r.total == w.total
    // a passing one rewrites that product only, and prices it before the subtraction
    ensures r.stock.Keys == w.stock.Keys
    ensures forall p :: p in w.stock && p != productId ==> r.stock[p] == w.stock[p]
    ensures r.error.None? ==>
      && r.stock[productId] == Take(w.stock[productId], quantity)
      && r.total == w.total + LineTotal(w.stock[productId], quantity)
  {
    if w.error.Some? then w
    else if productId !in w.stock then w.(error := Some(ProductNotFound(productId)))
    else if w.stock[productId].quantity < quantity then w.(error := Some(InsufficientQuantity(productId)))
    else
      var p := w.stock[productId];
      Walk(w.stock[productId := Take(p, quantity)], w.total + LineTotal(p, quantity), None)
  }

  /** The loop run over the entries in the order keys, from the table stock. */
  ghost function Run(stock: map<int, Product>, items: map<int, int32>, keys: seq<int>): Walk
    requires Within(keys, items)
    decreases |keys|
  {
    if keys == [] then Walk(stock, 0.0, None)
    else
      var n := |keys|;
      assert Within(keys[..n - 1], items);
      Step(Run(stock, items, keys[..n - 1]), keys[n - 1], items[keys[n - 1]])
  }

  // Reference definitions, each stated on the table before the order.

  /** Every listed product exists and has at least the requested stock. */
  ghost predicate Available(stock: map<int, Product>, items: map<int, int32>, keys: seq<int>)
    requires Within(keys, items)
  {
    forall k :: k in keys ==> k in stock && stock[k].quantity >= items[k]
  }

  /** The table with the requested quantity taken off every listed product;
      every other product as it was. */
  ghost function Decremented(stock: map<int, Product>, items: map<int, int32>, done: seq<int>): map<int, Product>
    requires Within(done, items)
  {
    map p | p in stock :: if p in done then Take(stock[p], items[p]) else stock[p]
  }

  /** The sum of unit price times quantity over the listed products. */
  ghost function Total(stock: map<int, Product>, items: map<int, int32>, keys: seq<int>): real
    requires Within(keys, stock) && Within(keys, items)
    decreases |keys|
  {
    if keys == [] then 0.0
    else
      var n := |keys|;
      var last := keys[n - 1];
      assert last in keys;
      assert last in stock && last in items;
      assert Within(keys[..n - 1], stock) && Within(keys[..n - 1], items);
      Total(stock, items, keys[..n - 1]) + LineTotal(stock[last], items[last])
  }

  /** No requested quantity is negative. */
  ghost predicate NonNegativeQuantities(items: map<int, int32>) {
    forall p :: p in items ==> items[p] >= 0
  }

  // ---------------------------------------------------------------------
  // What the walk does.

  /** The walk succeeds exactly when every product exists with enough stock;
      then it has taken each product's requested quantity off its stock and
      totalled the lines at the prices before the order. */
  lemma {:induction false} RunSucceeds(stock: map<int, Product>, items: map<int, int32>, keys: seq<int>)
    requires Distinct(keys) && Within(keys, items)
    ensures Run(stock, items, keys).error.None? <==> Available(stock, items, keys)
    ensures Run(stock, items, keys).error.None? ==>
      && Run(stock, items, keys).stock == Decremented(stock, items, keys)
      && Run(stock, items, keys).total == Total(stock, items, keys)
    decreases |keys|
  {
    if keys != [] {
      var n := |keys|;
      var front, last := keys[..n - 1], keys[n - 1];
      assert keys == front + [last];
      assert Distinct(front) && Within(front, items);
      RunSucceeds(stock, items, front);
      assert last !in front;
      var w := Run(stock, items, front);
      if w.error.None? && last in stock && stock[last].quantity >= items[last] {
        assert w.stock[last] == stock[last];
        var after := Run(stock, items, keys).stock;
        assert after == w.stock[last := Take(stock[last], items[last])];
        forall p | p in stock
          ensures after[p] == Decremented(stock, items, keys)[p]
        {
          assert p in keys <==> p in front || p == last;
        }
        assert after == Decremented(stock, items, keys);
      }
    }
  }

  /** Once the walk has failed on a prefix, the rest of the entries change
      nothing: the loop was left by the exception. */
  lemma {:induction false} RunStopsAfterFailure(stock: map<int, Product>, items: map<int, int32>, keys: seq<int>, k: nat)
    requires Within(keys, items) && k <= |keys|
    requires Within(keys[..k], items)
    requires Run(stock, items, keys[..k]).error.Some?
    ensures Run(stock, items, keys) == Run(stock, items, keys[..k])
    decreases |keys|
  {
    if k < |keys| {
      var n := |keys|;
      var front := keys[..n - 1];
      assert front[..k] == keys[..k];
      assert Within(front, items);
      RunStopsAfterFailure(stock, items, front, k);
    } else {
      assert keys[..k] == keys;
    }
  }

  /** The first entry that fails decides the error: a missing product, or too
      little stock (which leaves that product's stock as it was). The entries
      before it stay taken off the stock: there is no rollback. */
  lemma FirstFailureDecides(stock: map<int, Product>, items: map<int, int32>, keys: seq<int>, k: nat)
    requires Distinct(keys) && Within(keys, items) && k < |keys|
    requires Within(keys[..k], items)
    requires Available(stock, items, keys[..k])
    requires keys[k] in items
    requires keys[k] !in stock || stock[keys[k]].quantity < items[keys[k]]
    ensures Run(stock, items, keys).error ==
      Some(if keys[k] !in stock then ProductNotFound(keys[k]) else InsufficientQuantity(keys[k]))
    ensures Run(stock, items, keys).stock == Decremented(stock, items, keys[..k])
  {
    var front := keys[..k];
    assert Distinct(front);
    RunSucceeds(stock, items, front);
    assert keys[k] !in front;
    var prefix := keys[..k + 1];
    assert prefix[..k] == front && prefix[k] == keys[k];
    assert Within(prefix, items);
    assert Run(stock, items, prefix) == Step(Run(stock, items, front), keys[k], items[keys[k]]);
    RunStopsAfterFailure(stock, items, keys, k + 1);
  }

  /** Stock only goes down by what the check let through: with no negative
      request, no product's stock becomes negative, whether or not the walk
      fails part-way. */
  lemma {:induction false} RunKeepsStockNonNegative(stock: map<int, Product>, items: map<int, int32>, keys: seq<int>)
    requires Within(keys, items)
    requires NonNegativeStock(stock) && NonNegativeQuantities(items)
    ensures NonNegativeStock(Run(stock, items, keys).stock)
    decreases |keys|
  {
    if keys != [] {
      var n := |keys|;
      assert Within(keys[..n - 1], items);
      RunKeepsStockNonNegative(stock, items, keys[..n - 1]);
    }
  }

  /** The stock check compares with the requested quantity only, so a negative
      request passes on any stock at least that quantity (every non-negative
      stock among them); the subtraction then adds to the stock, wrapping past
      Integer.MAX_VALUE, and the line lowers the total. */
  lemma NegativeQuantityRestocks(w: Walk, productId: int, quantity: int32)
    requires w.error.None? && productId in w.stock
    requires w.stock[productId].quantity >= quantity && quantity < 0
    ensures Step(w, productId, quantity).error.None?
    ensures w.stock[productId].price > 0.0 ==> Step(w, productId, quantity).total < w.total
    ensures w.stock[productId].quantity - quantity <= 0x7fff_ffff ==>
      Step(w, productId, quantity).stock[productId].quantity == w.stock[productId].quantity - quantity
        > w.stock[productId].quantity
    ensures w.stock[productId].quantity - quantity > 0x7fff_ffff ==>
      Step(w, productId, quantity).stock[productId].quantity < 0
  {
  }

  lemma {:induction false} TotalAppend(stock: map<int, Product>, items: map<int, int32>, a: seq<int>, b: seq<int>)
    requires Within(a + b, stock) && Within(a + b, items)
    ensures Within(a, stock) && Within(a, items) && Within(b, stock) && Within(b, items)
    ensures Total(stock, items, a + b) == Total(stock, items, a) + Total(stock, items, b)
    decreases |b|
  {
    assert forall k :: k in a ==> k in a + b;
    assert forall k :: k in b ==> k in a + b;
    if b != [] {
      var n := |b|;
      var c := a + b;
      assert c[..|c| - 1] == a + b[..n - 1];
      TotalAppend(stock, items, a, b[..n - 1]);
    } else {
      assert a + b == a;
    }
  }

  /** Removing one entry from a duplicate-free key list. */
  lemma RemoveAt(keys: seq<int>, j: nat)
    requires Distinct(keys) && j < |keys|
    ensures keys == keys[..j] + [keys[j]] + keys[j + 1..]
    ensures Distinct(keys[..j] + keys[j + 1..])
    ensures forall k :: k in keys[..j] + keys[j + 1..] <==> k in keys && k != keys[j]
  {
    var rest := keys[..j] + keys[j + 1..];
    forall a | 0 <= a < |rest|
      ensures rest[a] == keys[if a < j then a else a + 1]
    {
    }
  }

  /** The total over the keys is the total without keys[j] plus its line. */
  lemma TotalWithout(stock: map<int, Product>, items: map<int, int32>, keys: seq<int>, j: nat)
    requires Within(keys, stock) && Within(keys, items) && j < |keys|
    ensures keys[j] in stock && keys[j] in items
    ensures Within(keys[..j] + keys[j + 1..], stock) && Within(keys[..j] + keys[j + 1..], items)
    ensures Total(stock, items, keys) ==
      Total(stock, items, keys[..j] + keys[j + 1..]) + LineTotal(stock[keys[j]], items[keys[j]])
  {
    var last := keys[j];
    assert last in keys;
    assert keys == keys[..j] + [last] + keys[j + 1..];
    TotalAppend(stock, items, keys[..j] + [last], keys[j + 1..]);
    TotalAppend(stock, items, keys[..j], [last]);
    TotalAppend(stock, items, keys[..j], keys[j + 1..]);
    assert [last][..0] == [];
  }

  /** The total does not depend on the order in which the entries are visited. */
  lemma {:induction false} TotalPermutation(stock: map<int, Product>, items: map<int, int32>, k1: seq<int>, k2: seq<int>)
    requires Distinct(k1) && Distinct(k2)
    requires forall k :: k in k1 <==> k in k2
    requires Within(k1, stock) && Within(k1, items)
    ensures Within(k2, stock) && Within(k2, items)
    ensures Total(stock, items, k1) == Total(stock, items, k2)
    decreases |k1|
  {
    if k1 != [] {
      var n := |k1|;
      var front, last := k1[..n - 1], k1[n - 1];
      assert last in k1;
      var j :| 0 <= j < |k2| && k2[j] == last;
      RemoveAt(k1, n - 1);
      RemoveAt(k2, j);
      assert k1[..n - 1] + k1[n..] == front;
      var rest := k2[..j] + k2[j + 1..];
      forall k ensures k in front <==> k in rest {
        assert k in front <==> k in k1 && k != last;
      }
      TotalPermutation(stock, items, front, rest);
      TotalWithout(stock, items, k1, n - 1);
      TotalWithout(stock, items, k2, j);
    }
  }

  /** HashMap iteration order is unspecified; it decides which failure is
      reported, but not whether the order succeeds, the resulting table or
      the total price. */
  lemma IterationOrderIrrelevant(stock: map<int, Product>, items: map<int, int32>, k1: seq<int>, k2: seq<int>)
    requires IsIteration(k1, items) && IsIteration(k2, items)
    ensures Run(stock, items, k1).error.None? <==> Run(stock, items, k2).error.None?
    ensures Run(stock, items, k1).error.None? ==>
      && Run(stock, items, k1).stock == Run(stock, items, k2).stock
      && Run(stock, items, k1).total == Run(stock, items, k2).total
  {
    RunSucceeds(stock, items, k1);
    RunSucceeds(stock, items, k2);
    assert Available(stock, items, k1) <==> Available(stock, items, k2);
    if Run(stock, items, k1).error.None? {
      assert Decremented(stock, items, k1) == Decremented(stock, items, k2);
      TotalPermutation(stock, items, k1, k2);
    }
  }

  // ---------------------------------------------------------------------
  // The service.

  /** The order service and the state it reaches through its collaborators:
      the product table behind ProductClient, the users and their order-id
      lists behind UserClient (a user exists when it has a list), and the
      order repository with its id generator. */
  class OrderService {
    var products: map<int, Product>
    var userOrders: map<int, seq<int>>
    var orders: map<int, Order>
    var nextOrderId: int

    ghost predicate Valid()
      reads this
    {
      forall id :: id in orders ==> orders[id].id == id && id < nextOrderId
    }

    constructor (products: map<int, Product>, userOrders: map<int, seq<int>>)
      ensures Valid()
      ensures this.products == products && this.userOrders == userOrders
      ensures orders == map[] && nextOrderId == 1
    {
      this.products := products;
      this.userOrders := userOrders;
      orders := map[];
      nextOrderId := 1;
    }

    /** placeOrder, with iteration the order in which the request's item map
        hands out its entries. */
    method PlaceOrder(request: OrderRequest, iteration: seq<int>) returns (r: Result<Order, OrderError>)
      requires Valid()
      requires IsIteration(iteration, request.items)
      modifies this
      ensures Valid()
      // an unknown user stops the workflow before any product is touched
      ensures request.userId !in old(userOrders) ==>
        r == Failure(UserNotFound(request.userId)) && unchanged(this)
      // otherwise the table is what the walk left, failed or not
      ensures request.userId in old(userOrders) ==>
        products == Run(old(products), request.items, iteration).stock
      ensures request.userId in old(userOrders) && Run(old(products), request.items, iteration).error.Some? ==>
        && r == Failure(Run(old(products), request.items, iteration).error.value)
        && orders == old(orders) && userOrders == old(userOrders) && nextOrderId == old(nextOrderId)
      ensures request.userId in old(userOrders) && Run(old(products), request.items, iteration).error.None? ==>
        && r == Success(Order(old(nextOrderId), request.userId, request.items,
                              Run(old(products), request.items, iteration).total, Placed))
        && old(nextOrderId) !in old(orders)
        && orders == old(orders)[old(nextOrderId) := r.value]
        && userOrders == old(userOrders)[request.userId := old(userOrders)[request.userId] + [old(nextOrderId)]]
        && nextOrderId == old(nextOrderId) + 1
      // the same, against the reference definitions
      ensures r.Success? <==> request.userId in old(userOrders) && Available(old(products), request.items, iteration)
      ensures r.Success? ==>
        && products == Decremented(old(products), request.items, iteration)
        && r.value.totalPrice == Total(old(products), request.items, iteration)
    {
      if request.userId !in userOrders {
        return Failure(UserNotFound(request.userId));
      }
      ghost var stock := products;
      var calculatedPrice := 0.0;
      var i := 0;
      while i < |iteration|
        invariant 0 <= i <= |iteration|
        invariant Within(iteration[..i], request.items)
        invariant Run(stock, request.items, iteration[..i]) == Walk(products, calculatedPrice, None)
        invariant orders == old(orders) && userOrders == old(userOrders) && nextOrderId == old(nextOrderId)
      {
        var productId := iteration[i];
        var quantity := request.items[productId];
        ghost var done := iteration[..i + 1];
        assert done[..i] == iteration[..i] && done[i] == productId;
        assert Within(done, request.items);
        ghost var next := Run(stock, request.items, done);
        assert next == Step(Walk(products, calculatedPrice, None), productId, quantity);
        if productId !in products {
          RunStopsAfterFailure(stock, request.items, iteration, i + 1);
          RunSucceeds(stock, request.items, iteration);
          return Failure(ProductNotFound(productId));
        }
        var product := products[productId];
        if product.quantity < quantity {
          RunStopsAfterFailure(stock, request.items, iteration, i + 1);
          RunSucceeds(stock, request.items, iteration);
          return Failure(InsufficientQuantity(productId));
        }
        var price := LineTotal(product, quantity);
        product := Take(product, quantity);
        products := products[productId := product];
        calculatedPrice := calculatedPrice + price;
        i := i + 1;
      }
      assert iteration[..i] == iteration;
      RunSucceeds(stock, request.items, iteration);
      var saved := Order(nextOrderId, request.userId, request.items, calculatedPrice, Placed);
      orders := orders[nextOrderId := saved];
      nextOrderId := nextOrderId + 1;
      userOrders := userOrders[request.userId := userOrders[request.userId] + [saved.id]];
      r := Success(saved);
    }

    /** getOrderById: the saved order, or "Order not found with id: N". */
    function GetOrderById(id: int): (r: Result<Order, OrderError>)
      requires Valid()
      reads this
      ensures r.Success? <==> id in orders
      ensures r.Success? ==> r.value == orders[id] && r.value.id == id
      ensures r.Failure? ==> r.error == OrderNotFound(id)
    {
      if id in orders then Success(orders[id]) else Failure(OrderNotFound(id))
    }
  }
}

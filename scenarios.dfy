/** Client code replaying the services' unit and integration tests against the
    contracts alone: what each test observes follows from the specifications. */
module Scenarios {
  import opened Wrappers
  import opened Products
  import opened Orders

  function TestProduct(): Product {
    Product(1, "Test Product", "Desc", "Cat", 10.0, 5)
  }

  /** Product 1 costs 10.0 with 5 in stock; ordering 2 costs 20.0 and leaves 3. */
  method PlaceOrderSucceeds() {
    var service := new OrderService(map[1 := TestProduct()], map[1 := []]);
    var r := service.PlaceOrder(OrderRequest(1, map[1 := 2]), [1]);
    assert r.Success?;
    assert [1][..0] == [];
    assert r.value.totalPrice == 20.0 && r.value.status == Placed;
    assert service.products[1].quantity == 3;
    assert service.userOrders[1] == [r.value.id];
    var fetched := service.GetOrderById(r.value.id);
    assert fetched == Success(r.value);
  }

  /** An unknown user is reported before any product is looked at. */
  method PlaceOrderUnknownUser() {
    var service := new OrderService(map[1 := TestProduct()], map[]);
    var r := service.PlaceOrder(OrderRequest(1, map[1 := 2]), [1]);
    assert r.error.Message() == "User not found with id: 1";
    assert service.products == map[1 := TestProduct()] && service.orders == map[];
  }

  method PlaceOrderMissingProduct() {
    var service := new OrderService(map[], map[1 := []]);
    var r := service.PlaceOrder(OrderRequest(1, map[1 := 2]), [1]);
    assert r == Failure(ProductNotFound(1));
    assert r.error.Message() == "Product not found with id: 1";
    assert service.orders == map[] && service.userOrders == map[1 := []];
  }

  /** 10 requested, 5 in stock. */
  method PlaceOrderInsufficientStock() {
    var service := new OrderService(map[1 := TestProduct()], map[1 := []]);
    var r := service.PlaceOrder(OrderRequest(1, map[1 := 10]), [1]);
    assert r == Failure(InsufficientQuantity(1));
    assert r.error.Message() == "Insufficient quantity for product: 1";
    assert service.products == map[1 := TestProduct()] && service.orders == map[];
  }

  method GetMissingOrder() {
    var service := new OrderService(map[1 := TestProduct()], map[1 := []]);
    var fetched := service.GetOrderById(1);
    assert fetched.error.Message() == "Order not found with id: 1";
  }

  method ProductScenarios() {
    var service := new ProductService();
    var product := Product(0, "Test Product", "Description", "Category", 10.0, 5);

    var bad := service.AddProduct(product.(quantity := -1));
    assert bad.error.Message() == "Quantity cannot be negative";
    assert service.store == map[];

    var added := service.AddProduct(product);
    assert added.Success? && added.value.name == "Test Product";
    var id := added.value.id;
    assert service.GetProductById(id) == added;

    var updated := service.UpdateProduct(id, Product(7, "Updated Product", "New Desc", "New Cat", 20.0, 10));
    assert updated.value == Product(id, "Updated Product", "New Desc", "New Cat", 20.0, 10);

    // updateProduct does not re-check the quantity
    updated := service.UpdateProduct(id, product.(quantity := -4));
    assert updated.Success? && service.store[id].quantity == -4;

    var missing := service.UpdateProduct(id + 1, product);
    assert missing.error.Message() == "Product not found with id: " + JavaLang.LongToString(id + 1);

    var deleted := service.DeleteProduct(id);
    assert deleted == Pass;
    assert service.GetProductById(id).error.Message() == "Product not found with id: " + JavaLang.LongToString(id);
    deleted := service.DeleteProduct(id);
    assert deleted == Fail(NotFound(id));
  }
}

/** The product service: a product table behind create, read, update and
    delete operations, with the validation and error messages of
    ProductService.java. */
module Products {
  import opened Wrappers
  import opened JavaLang

  /** A row of the product table (ProductModel). */
  datatype Product = Product(
    id: int,
    name: string,
    description: string,
    category: string,
    price: real,
    quantity: int32)

  const NotFoundText := "Product not found with id: "

  /** The ProductException the service throws, by cause. */
  datatype ProductError = NegativeQuantity | NotFound(id: int) {

    /** The exception's message, as the service builds it: fixed text, and for
        a missing product the text followed by the id, which reads back as the id. */
    function Message(): (m: string)
      ensures NegativeQuantity? ==> m == "Quantity cannot be negative"
      ensures NotFound? ==>
        && |NotFoundText| < |m| && m[..|NotFoundText|] == NotFoundText
        && LongValue(m[|NotFoundText|..]) == id
    {
      match this
      case NegativeQuantity => "Quantity cannot be negative"
      case NotFound(id) =>
        var digits := LongToString(id);
        LongToStringValue(id);
        assert (NotFoundText + digits)[|NotFoundText|..] == digits;
        NotFoundText + digits
    }
  }

  /** Different failures carry different messages. */
  lemma MessageIdentifiesError(e1: ProductError, e2: ProductError)
    requires e1.Message() == e2.Message()
    ensures e1 == e2
  {
    if e1.NotFound? && e2.NotFound? {
      MessageSuffix(NotFoundText, e1.id, e2.id);
    }
  }

  /** No product in the table has negative stock. */
  ghost predicate NonNegativeStock(store: map<int, Product>) {
    forall id :: id in store ==> store[id].quantity >= 0
  }

  /** The product service over its table. The table is keyed by product id,
      and ids are drawn from a counter that only grows (JPA's generated ids). */
  class ProductService {
    var store: map<int, Product>
    var nextId: int

    ghost predicate Valid()
      reads this
    {
      forall id :: id in store ==> store[id].id == id && id < nextId
    }

    constructor ()
      ensures Valid() && store == map[] && nextId == 1
    {
      store := map[];
      nextId := 1;
    }

    /** addProduct: rejects a negative quantity, otherwise saves the product
        under a newly generated id and returns the stored row. */
    method AddProduct(product: Product) returns (r: Result<Product, ProductError>)
      requires Valid()
      modifies this
      ensures Valid()
      ensures product.quantity < 0 ==> r == Failure(NegativeQuantity) && unchanged(this)
      ensures product.quantity >= 0 ==>
        && r == Success(product.(id := old(nextId)))
        && old(nextId) !in old(store)
        && store == old(store)[old(nextId) := r.value]
        && nextId == old(nextId) + 1
      ensures r.Success? ==> GetProductById(r.value.id) == r
      ensures old(NonNegativeStock(store)) ==> NonNegativeStock(store)
    {
      if product.quantity < 0 {
        return Failure(NegativeQuantity);
      }
      var saved := product.(id := nextId);
      store := store[nextId := saved];
      nextId := nextId + 1;
      r := Success(saved);
    }

    /** getProductById: the stored row, or "Product not found with id: N". */
    function GetProductById(id: int): (r: Result<Product, ProductError>)
      requires Valid()
      reads this
      ensures r.Success? <==> id in store
      ensures r.Success? ==> r.value == store[id] && r.value.id == id
      ensures r.Failure? ==> r.error == NotFound(id)
    {
      if id in store then Success(store[id]) else Failure(NotFound(id))
    }

    /** updateProduct: overwrites name, description, category, price and
        quantity of an existing row with the supplied values and keeps its id.
        The new quantity is not checked for being negative. */
    method UpdateProduct(id: int, updated: Product) returns (r: Result<Product, ProductError>)
      requires Valid()
      modifies this
      ensures Valid()
      ensures id !in old(store) ==> r == Failure(NotFound(id)) && unchanged(this)
      ensures id in old(store) ==>
        && r == Success(updated.(id := id))
        && store == old(store)[id := r.value]
        && nextId == old(nextId)
      ensures r.Success? ==> GetProductById(id) == r
    {
      var found := GetProductById(id);
      if found.Failure? {
        return Failure(found.error);
      }
      var existing := found.value;
      existing := existing.(name := updated.name);
      existing := existing.(description := updated.description);
      existing := existing.(category := updated.category);
      existing := existing.(price := updated.price);
      existing := existing.(quantity := updated.quantity);
      store := store[id := existing];
      r := Success(existing);
    }

    /** deleteProduct: removes an existing row, or fails with
        "Product not found with id: N" and leaves the table alone. */
    method DeleteProduct(id: int) returns (r: Outcome<ProductError>)
      requires Valid()
      modifies this
      ensures Valid()
      ensures id !in old(store) ==> r == Fail(NotFound(id)) && unchanged(this)
      ensures id in old(store) ==> r == Pass && store == old(store) - {id} && nextId == old(nextId)
      ensures GetProductById(id) == Failure(NotFound(id))
    {
      if id !in store {
        return Fail(NotFound(id));
      }
      store := store - {id};
      r := Pass;
    }
  }
}

/** The three record types of the pizza catalog and the price guard that every
    assignment to an association's price passes through. */
module Models {

  /** A restaurant row of the `restaurants` table. */
  datatype Restaurant = Restaurant(id: int, name: string, address: string)

  /** A pizza row of the `pizzas` table. */
  datatype Pizza = Pizza(id: int, name: string, ingredients: string)

  /** A row of the `restaurant_pizzas` table: one restaurant sells one pizza at `price`. */
  datatype RestaurantPizza = RestaurantPizza(id: int, price: int, restaurantId: int, pizzaId: int)

  /** Why an operation on the catalog was refused. */
  datatype Error =
    | InvalidPrice          // the price guard rejected the value
    | UnknownRestaurant     // a restaurant id names no row (foreign-key violation)
    | UnknownPizza          // a pizza id names no row (foreign-key violation)
    | DuplicateId           // the id is already taken in its table (primary-key violation)
    | NotFound              // the record to update or delete does not exist
    | NotInCollection       // the association is not in the parent's collection

  datatype Result<T> = Ok(value: T) | Err(error: Error)

  datatype Outcome = Pass | Fail(error: Error)

  const MinPrice: int := 1
  const MaxPrice: int := 30

  /** The range of prices the catalog admits, bounds included. */
  predicate InPriceRange(price: int) {
    MinPrice <= price <= MaxPrice
  }

  /** The price validator: a value below 1 or above 30 raises, any other is
      returned and stored as it is. */
  function ValidatePrice(price: int): (r: Result<int>)
    ensures r.Ok? <==> InPriceRange(price)
    ensures r.Ok? ==> r.value == price
    ensures r.Err? ==> r.error == InvalidPrice
  {
    if price < 1 || price > 30 then Err(InvalidPrice) else Ok(price)
  }

  /** Every price from 1 to 30 passes the guard unchanged. */
  lemma ValidatePriceAccepts(price: int)
    requires 1 <= price <= 30
    ensures ValidatePrice(price) == Ok(price)
  {
  }

  /** Every price below 1 or above 30 is rejected. */
  lemma ValidatePriceRejects(price: int)
    requires price < 1 || price > 30
    ensures ValidatePrice(price) == Err(InvalidPrice)
  {
  }

  /** The boundary and midpoint cases: 0 and 31 fail, 1, 15 and 30 pass. */
  lemma ValidatePriceExamples()
    ensures ValidatePrice(0).Err? && ValidatePrice(31).Err? && ValidatePrice(-5).Err?
    ensures ValidatePrice(1) == Ok(1) && ValidatePrice(15) == Ok(15) && ValidatePrice(30) == Ok(30)
  {
  }
}

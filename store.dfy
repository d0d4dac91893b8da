/** The catalog as the data-access layer sees it: three tables that the
    operations update in place. Each operation either succeeds and leaves the
    tables consistent, or fails and leaves them exactly as they were. */
module Catalog {
  import opened Models
  import opened Tables

  class Store {
    var restaurants: map<int, Restaurant>
    var pizzas: map<int, Pizza>
    var restaurantPizzas: map<int, RestaurantPizza>

    /** Stored prices are in range and every association's foreign keys name
        existing parents. */
    ghost predicate Valid()
      reads this
    {
      Consistent(restaurants, pizzas, restaurantPizzas)
    }

    /** A restaurant's `restaurant_pizzas` collection, as association ids. */
    function RestaurantPizzasOf(restaurantId: int): (c: set<int>)
      reads this
      ensures c <= restaurantPizzas.Keys
      ensures forall id :: id in c <==>
                id in restaurantPizzas && restaurantPizzas[id].restaurantId == restaurantId
    {
      RestaurantCollection(restaurantPizzas, restaurantId)
    }

    /** A pizza's `restaurant_pizzas` collection, as association ids. */
    function PizzaRestaurantPizzasOf(pizzaId: int): (c: set<int>)
      reads this
      ensures c <= restaurantPizzas.Keys
      ensures forall id :: id in c <==>
                id in restaurantPizzas && restaurantPizzas[id].pizzaId == pizzaId
    {
      PizzaCollection(restaurantPizzas, pizzaId)
    }

    constructor ()
      ensures Valid()
      ensures restaurants == map[] && pizzas == map[] && restaurantPizzas == map[]
    {
      restaurants := map[];
      pizzas := map[];
      restaurantPizzas := map[];
    }

    /** Adds a restaurant row; an id already in use is a primary-key violation. */
    method CreateRestaurant(id: int, name: string, address: string) returns (r: Outcome)
      requires Valid()
      modifies this
      ensures Valid()
      ensures r == (if id in old(restaurants) then Fail(DuplicateId) else Pass)
      ensures restaurants == (if r.Pass? then old(restaurants)[id := Restaurant(id, name, address)]
                              else old(restaurants))
      ensures pizzas == old(pizzas) && restaurantPizzas == old(restaurantPizzas)
      ensures r.Pass? ==> RestaurantPizzasOf(id) == {}
    {
      if id in restaurants {
        return Fail(DuplicateId);
      }
      RestaurantCollectionsPartition(restaurants, pizzas, restaurantPizzas);
      restaurants := restaurants[id := Restaurant(id, name, address)];
      r := Pass;
    }

    /** Adds a pizza row; an id already in use is a primary-key violation. */
    method CreatePizza(id: int, name: string, ingredients: string) returns (r: Outcome)
      requires Valid()
      modifies this
      ensures Valid()
      ensures r == (if id in old(pizzas) then Fail(DuplicateId) else Pass)
      ensures pizzas == (if r.Pass? then old(pizzas)[id := Pizza(id, name, ingredients)]
                         else old(pizzas))
      ensures restaurants == old(restaurants) && restaurantPizzas == old(restaurantPizzas)
      ensures r.Pass? ==> PizzaRestaurantPizzasOf(id) == {}
    {
      if id in pizzas {
        return Fail(DuplicateId);
      }
      PizzaCollectionsPartition(restaurants, pizzas, restaurantPizzas);
      pizzas := pizzas[id := Pizza(id, name, ingredients)];
      r := Pass;
    }

    /** Adds an association. The price passes the guard first, as it does when
        the constructor assigns it; then both foreign keys must name existing
        rows and the id must be unused. On any failure nothing is stored. */
    method CreateRestaurantPizza(id: int, price: int, restaurantId: int, pizzaId: int)
      returns (r: Outcome)
      requires Valid()
      modifies this
      ensures Valid()
      ensures r == (if !InPriceRange(price) then Fail(InvalidPrice)
                    else if restaurantId !in old(restaurants) then Fail(UnknownRestaurant)
                    else if pizzaId !in old(pizzas) then Fail(UnknownPizza)
                    else if id in old(restaurantPizzas) then Fail(DuplicateId)
                    else Pass)
      ensures restaurantPizzas ==
                (if r.Pass? then old(restaurantPizzas)[id := RestaurantPizza(id, price, restaurantId, pizzaId)]
                 else old(restaurantPizzas))
      ensures restaurants == old(restaurants) && pizzas == old(pizzas)
      ensures r.Pass? ==> RestaurantPizzasOf(restaurantId) == old(RestaurantPizzasOf(restaurantId)) + {id}
      ensures r.Pass? ==> PizzaRestaurantPizzasOf(pizzaId) == old(PizzaRestaurantPizzasOf(pizzaId)) + {id}
      ensures forall q :: q != restaurantId ==> RestaurantPizzasOf(q) == old(RestaurantPizzasOf(q))
      ensures forall q :: q != pizzaId ==> PizzaRestaurantPizzasOf(q) == old(PizzaRestaurantPizzasOf(q))
    {
      var checked := ValidatePrice(price);
      if checked.Err? {
        return Fail(checked.error);
      }
      if restaurantId !in restaurants {
        return Fail(UnknownRestaurant);
      }
      if pizzaId !in pizzas {
        return Fail(UnknownPizza);
      }
      if id in restaurantPizzas {
        return Fail(DuplicateId);
      }
      restaurantPizzas := restaurantPizzas[id := RestaurantPizza(id, checked.value, restaurantId, pizzaId)];
      r := Pass;
    }

    /** Assigns a new price to an existing association. The guard runs before
        the row is touched, so a rejected price leaves the old one in place. */
    method SetPrice(id: int, price: int) returns (r: Outcome)
      requires Valid()
      modifies this
      ensures Valid()
      ensures r == (if id !in old(restaurantPizzas) then Fail(NotFound)
                    else if !InPriceRange(price) then Fail(InvalidPrice)
                    else Pass)
      ensures restaurantPizzas ==
                (if r.Pass? then old(restaurantPizzas)[id := old(restaurantPizzas)[id].(price := price)]
                 else old(restaurantPizzas))
      ensures restaurants == old(restaurants) && pizzas == old(pizzas)
      ensures forall q :: RestaurantPizzasOf(q) == old(RestaurantPizzasOf(q))
      ensures forall q :: PizzaRestaurantPizzasOf(q) == old(PizzaRestaurantPizzasOf(q))
    {
      if id !in restaurantPizzas {
        return Fail(NotFound);
      }
      var checked := ValidatePrice(price);
      if checked.Err? {
        return Fail(checked.error);
      }
      restaurantPizzas := restaurantPizzas[id := restaurantPizzas[id].(price := checked.value)];
      r := Pass;
    }

    /** Deletes a restaurant and, by cascade, its whole `restaurant_pizzas` collection. */
    method DeleteRestaurant(id: int) returns (r: Outcome)
      requires Valid()
      modifies this
      ensures Valid()
      ensures r == (if id in old(restaurants) then Pass else Fail(NotFound))
      ensures restaurants == (if r.Pass? then old(restaurants) - {id} else old(restaurants))
      ensures restaurantPizzas == (if r.Pass? then CascadeRestaurant(old(restaurantPizzas), id)
                                   else old(restaurantPizzas))
      ensures pizzas == old(pizzas)
      ensures r.Pass? ==> RestaurantPizzasOf(id) == {}
      ensures forall q :: q != id ==> RestaurantPizzasOf(q) == old(RestaurantPizzasOf(q))
      ensures r.Pass? ==> forall q :: PizzaRestaurantPizzasOf(q) ==
                                       old(PizzaRestaurantPizzasOf(q)) - old(RestaurantPizzasOf(id))
    {
      if id !in restaurants {
        return Fail(NotFound);
      }
      CascadeRestaurantConsistent(restaurants, pizzas, restaurantPizzas, id);
      CascadeRestaurantExact(restaurantPizzas, id);
      restaurants := restaurants - {id};
      restaurantPizzas := CascadeRestaurant(restaurantPizzas, id);
      r := Pass;
    }

    /** Deletes a pizza and, by cascade, its whole `restaurant_pizzas` collection. */
    method DeletePizza(id: int) returns (r: Outcome)
      requires Valid()
      modifies this
      ensures Valid()
      ensures r == (if id in old(pizzas) then Pass else Fail(NotFound))
      ensures pizzas == (if r.Pass? then old(pizzas) - {id} else old(pizzas))
      ensures restaurantPizzas == (if r.Pass? then CascadePizza(old(restaurantPizzas), id)
                                   else old(restaurantPizzas))
      ensures restaurants == old(restaurants)
      ensures r.Pass? ==> PizzaRestaurantPizzasOf(id) == {}
      ensures forall q :: q != id ==> PizzaRestaurantPizzasOf(q) == old(PizzaRestaurantPizzasOf(q))
      ensures r.Pass? ==> forall q :: RestaurantPizzasOf(q) ==
                                       old(RestaurantPizzasOf(q)) - old(PizzaRestaurantPizzasOf(id))
    {
      if id !in pizzas {
        return Fail(NotFound);
      }
      CascadePizzaConsistent(restaurants, pizzas, restaurantPizzas, id);
      CascadePizzaExact(restaurantPizzas, id);
      pizzas := pizzas - {id};
      restaurantPizzas := CascadePizza(restaurantPizzas, id);
      r := Pass;
    }

    /** Deletes one association directly. */
    method DeleteRestaurantPizza(id: int) returns (r: Outcome)
      requires Valid()
      modifies this
      ensures Valid()
      ensures r == (if id in old(restaurantPizzas) then Pass else Fail(NotFound))
      ensures restaurantPizzas == old(restaurantPizzas) - {id}
      ensures restaurants == old(restaurants) && pizzas == old(pizzas)
      ensures forall q :: RestaurantPizzasOf(q) == old(RestaurantPizzasOf(q)) - {id}
      ensures forall q :: PizzaRestaurantPizzasOf(q) == old(PizzaRestaurantPizzasOf(q)) - {id}
    {
      if id !in restaurantPizzas {
        return Fail(NotFound);
      }
      restaurantPizzas := restaurantPizzas - {id};
      r := Pass;
    }

    /** Removes an association from a restaurant's collection. The association
        is then an orphan and is deleted outright, so it also leaves its
        pizza's collection. Removing something the collection does not hold
        fails, as removing a missing element from a list does. */
    method RemoveFromRestaurant(restaurantId: int, id: int) returns (r: Outcome)
      requires Valid()
      modifies this
      ensures Valid()
      ensures r == (if restaurantId !in old(restaurants) then Fail(NotFound)
                    else if id !in old(RestaurantPizzasOf(restaurantId)) then Fail(NotInCollection)
                    else Pass)
      ensures restaurantPizzas == (if r.Pass? then old(restaurantPizzas) - {id} else old(restaurantPizzas))
      ensures restaurants == old(restaurants) && pizzas == old(pizzas)
      ensures r.Pass? ==> RestaurantPizzasOf(restaurantId) == old(RestaurantPizzasOf(restaurantId)) - {id}
      ensures r.Pass? ==> forall p :: PizzaRestaurantPizzasOf(p) == old(PizzaRestaurantPizzasOf(p)) - {id}
      ensures r.Pass? ==> forall q :: RestaurantPizzasOf(q) == old(RestaurantPizzasOf(q)) - {id}
    {
      if restaurantId !in restaurants {
        return Fail(NotFound);
      }
      if id !in RestaurantPizzasOf(restaurantId) {
        return Fail(NotInCollection);
      }
      restaurantPizzas := restaurantPizzas - {id};
      r := Pass;
    }

    /** Removes an association from a pizza's collection; the orphan is deleted. */
    method RemoveFromPizza(pizzaId: int, id: int) returns (r: Outcome)
      requires Valid()
      modifies this
      ensures Valid()
      ensures r == (if pizzaId !in old(pizzas) then Fail(NotFound)
                    else if id !in old(PizzaRestaurantPizzasOf(pizzaId)) then Fail(NotInCollection)
                    else Pass)
      ensures restaurantPizzas == (if r.Pass? then old(restaurantPizzas) - {id} else old(restaurantPizzas))
      ensures restaurants == old(restaurants) && pizzas == old(pizzas)
      ensures r.Pass? ==> PizzaRestaurantPizzasOf(pizzaId) == old(PizzaRestaurantPizzasOf(pizzaId)) - {id}
      ensures r.Pass? ==> forall q :: RestaurantPizzasOf(q) == old(RestaurantPizzasOf(q)) - {id}
      ensures r.Pass? ==> forall p :: PizzaRestaurantPizzasOf(p) == old(PizzaRestaurantPizzasOf(p)) - {id}
    {
      if pizzaId !in pizzas {
        return Fail(NotFound);
      }
      if id !in PizzaRestaurantPizzasOf(pizzaId) {
        return Fail(NotInCollection);
      }
      restaurantPizzas := restaurantPizzas - {id};
      r := Pass;
    }
  }

  /** What a caller can conclude from the contracts alone: out-of-range prices
      are refused at creation and on update without touching the tables, and
      deleting a restaurant takes its associations with it. */
  method PriceAndCascadeScenario()
  {
    var store := new Store();
    var r := store.CreateRestaurant(1, "Karen's Pizza Shack", "address1");
    assert r == Pass;
    r := store.CreatePizza(7, "Emma", "Dough, Tomato Sauce, Cheese");
    assert r == Pass;
    r := store.CreateRestaurantPizza(10, 0, 1, 7);
    assert r == Fail(InvalidPrice) && store.restaurantPizzas == map[];
    r := store.CreateRestaurantPizza(10, 31, 1, 7);
    assert r == Fail(InvalidPrice) && store.restaurantPizzas == map[];
    r := store.CreateRestaurantPizza(10, 15, 1, 7);
    assert r == Pass && store.restaurantPizzas[10].price == 15;
    r := store.CreateRestaurantPizza(11, 5, 2, 7);
    assert r == Fail(UnknownRestaurant);
    r := store.SetPrice(10, 31);
    assert r == Fail(InvalidPrice) && store.restaurantPizzas[10].price == 15;
    r := store.SetPrice(10, 30);
    assert r == Pass && store.restaurantPizzas[10].price == 30;
    r := store.DeleteRestaurant(1);
    assert r == Pass && 10 !in store.restaurantPizzas && 7 in store.pizzas;
  }
}

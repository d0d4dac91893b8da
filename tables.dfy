/** The three tables as maps from primary key to row, the referential and price
    invariant that ties them together, the parent collections the relationships
    expose, and the effect of cascade deletion on the association table. */
module Tables {
  import opened Models

  /** Every row is stored under its own id, every stored price passes the guard,
      and every association names an existing restaurant and an existing pizza. */
  ghost predicate Consistent(restaurants: map<int, Restaurant>, pizzas: map<int, Pizza>,
                             links: map<int, RestaurantPizza>)
  {
    && (forall id :: id in restaurants ==> restaurants[id].id == id)
    && (forall id :: id in pizzas ==> pizzas[id].id == id)
    && (forall id :: id in links ==> links[id].id == id)
    && (forall id :: id in links ==> InPriceRange(links[id].price))
    && (forall id :: id in links ==> links[id].restaurantId in restaurants)
    && (forall id :: id in links ==> links[id].pizzaId in pizzas)
  }

  /** In consistent tables every stored price is one the guard accepts
      unchanged, and no association dangles. */
  lemma StoredRowsValid(restaurants: map<int, Restaurant>, pizzas: map<int, Pizza>,
                        links: map<int, RestaurantPizza>, id: int)
    requires Consistent(restaurants, pizzas, links)
    requires id in links
    ensures 1 <= links[id].price <= 30
    ensures ValidatePrice(links[id].price) == Ok(links[id].price)
    ensures links[id].restaurantId in restaurants && links[id].pizzaId in pizzas
  {
  }

  /** The ids in a restaurant's `restaurant_pizzas` collection: the associations
      whose `restaurant_id` is that restaurant's id. */
  function RestaurantCollection(links: map<int, RestaurantPizza>, restaurantId: int): (c: set<int>)
    ensures forall id :: id in c <==> id in links && links[id].restaurantId == restaurantId
  {
    set id | id in links && links[id].restaurantId == restaurantId
  }

  /** The ids in a pizza's `restaurant_pizzas` collection. */
  function PizzaCollection(links: map<int, RestaurantPizza>, pizzaId: int): (c: set<int>)
    ensures forall id :: id in c <==> id in links && links[id].pizzaId == pizzaId
  {
    set id | id in links && links[id].pizzaId == pizzaId
  }

  /** The two sides of each relationship agree: in consistent tables every
      stored association is in the collection of exactly one restaurant, the
      one its `restaurant_id` names, and that restaurant exists. */
  lemma RestaurantCollectionsPartition(restaurants: map<int, Restaurant>, pizzas: map<int, Pizza>,
                                       links: map<int, RestaurantPizza>)
    requires Consistent(restaurants, pizzas, links)
    ensures forall a :: a in links ==>
              links[a].restaurantId in restaurants &&
              a in RestaurantCollection(links, links[a].restaurantId)
    ensures forall a, q :: a in RestaurantCollection(links, q) ==> q == links[a].restaurantId
    ensures forall q :: q !in restaurants ==> RestaurantCollection(links, q) == {}
  {
  }

  /** Every stored association is in the collection of exactly one pizza, the
      one its `pizza_id` names, and that pizza exists. */
  lemma PizzaCollectionsPartition(restaurants: map<int, Restaurant>, pizzas: map<int, Pizza>,
                                  links: map<int, RestaurantPizza>)
    requires Consistent(restaurants, pizzas, links)
    ensures forall a :: a in links ==>
              links[a].pizzaId in pizzas &&
              a in PizzaCollection(links, links[a].pizzaId)
    ensures forall a, q :: a in PizzaCollection(links, q) ==> q == links[a].pizzaId
    ensures forall q :: q !in pizzas ==> PizzaCollection(links, q) == {}
  {
  }

  /** The association table after a restaurant is deleted with cascade: its
      whole collection is gone. */
  function CascadeRestaurant(links: map<int, RestaurantPizza>, restaurantId: int): map<int, RestaurantPizza>
  {
    links - RestaurantCollection(links, restaurantId)
  }

  /** The association table after a pizza is deleted with cascade. */
  function CascadePizza(links: map<int, RestaurantPizza>, pizzaId: int): map<int, RestaurantPizza>
  {
    links - PizzaCollection(links, pizzaId)
  }

  /** Deleting a restaurant removes exactly the associations that reference it:
      each of those is gone, each other one is kept unchanged, and none that is
      left references the deleted id. */
  lemma CascadeRestaurantExact(links: map<int, RestaurantPizza>, restaurantId: int)
    ensures forall id :: id in CascadeRestaurant(links, restaurantId) <==>
                           id in links && links[id].restaurantId != restaurantId
    ensures forall id :: id in CascadeRestaurant(links, restaurantId) ==>
                           CascadeRestaurant(links, restaurantId)[id] == links[id]
    ensures RestaurantCollection(CascadeRestaurant(links, restaurantId), restaurantId) == {}
  {
  }

  /** Deleting a pizza removes exactly the associations that reference it. */
  lemma CascadePizzaExact(links: map<int, RestaurantPizza>, pizzaId: int)
    ensures forall id :: id in CascadePizza(links, pizzaId) <==>
                           id in links && links[id].pizzaId != pizzaId
    ensures forall id :: id in CascadePizza(links, pizzaId) ==>
                           CascadePizza(links, pizzaId)[id] == links[id]
    ensures PizzaCollection(CascadePizza(links, pizzaId), pizzaId) == {}
  {
  }

  /** The number of associations a restaurant's cascade removes is the size of
      its collection. */
  lemma CascadeRestaurantCount(links: map<int, RestaurantPizza>, restaurantId: int)
    ensures |CascadeRestaurant(links, restaurantId)| ==
            |links| - |RestaurantCollection(links, restaurantId)|
  {
  }

  /** The number of associations a pizza's cascade removes is the size of its
      collection. */
  lemma CascadePizzaCount(links: map<int, RestaurantPizza>, pizzaId: int)
    ensures |CascadePizza(links, pizzaId)| == |links| - |PizzaCollection(links, pizzaId)|
  {
  }

  /** Deleting a restaurant together with its collection keeps the tables consistent. */
  lemma CascadeRestaurantConsistent(restaurants: map<int, Restaurant>, pizzas: map<int, Pizza>,
                                    links: map<int, RestaurantPizza>, restaurantId: int)
    requires Consistent(restaurants, pizzas, links)
    ensures Consistent(restaurants - {restaurantId}, pizzas, CascadeRestaurant(links, restaurantId))
  {
  }

  /** Deleting a pizza together with its collection keeps the tables consistent. */
  lemma CascadePizzaConsistent(restaurants: map<int, Restaurant>, pizzas: map<int, Pizza>,
                               links: map<int, RestaurantPizza>, pizzaId: int)
    requires Consistent(restaurants, pizzas, links)
    ensures Consistent(restaurants, pizzas - {pizzaId}, CascadePizza(links, pizzaId))
  {
  }

  /** The smallest element of a non-empty set of ids exists. */
  lemma {:induction false} MinimumExists(s: set<int>)
    requires s != {}
    ensures exists m :: m in s && forall y :: y in s ==> m <= y
  {
    if forall z :: z !in s { assert false; }
    var x :| x in s;
    var rest := s - {x};
    if rest == {} {
      assert s == rest + {x};
    } else {
      MinimumExists(rest);
      var m :| m in rest && forall y :: y in rest ==> m <= y;
      var least := if x < m then x else m;
      forall y | y in s ensures least <= y {
        if y != x { assert y in rest; }
      }
      assert least in s;
    }
  }

  /** The smallest id of a non-empty set. */
  function Minimum(s: set<int>): (m: int)
    requires s != {}
    ensures m in s && forall y :: y in s ==> m <= y
  {
    MinimumExists(s);
    var m :| m in s && forall y :: y in s ==> m <= y;
    m
  }

  /** The ids of a collection listed in ascending id order, the model's choice
      of an order the source leaves open. Every id appears once and nothing
      else appears. */
  function SortedIds(s: set<int>): (r: seq<int>)
    ensures |r| == |s|
    ensures forall x :: x in r <==> x in s
    ensures forall i, j :: 0 <= i < j < |r| ==> r[i] < r[j]
    decreases |s|
  {
    if s == {} then []
    else
      var m := Minimum(s);
      [m] + SortedIds(s - {m})
  }
}

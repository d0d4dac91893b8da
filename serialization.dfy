/** The dictionaries the three records serialize to. Each record contributes
    its columns and expands its relationships, and the serialization rules cut
    every back-reference:
      - a restaurant's nested associations omit `restaurant`,
      - a pizza's nested associations omit `pizza`,
      - an association's nested restaurant and pizza omit `restaurant_pizzas`.
    A nested record's own rules apply as well, so the association nested under
    a restaurant still expands its pizza, and that pizza is cut at
    `restaurant_pizzas`. */
module Serialization {
  import opened Models
  import opened Tables

  /** A serialized value: a JSON-like tree. `Null` stands for a relationship
      whose target row is missing. */
  datatype Value =
    | Null
    | Int(n: int)
    | Str(s: string)
    | Arr(items: seq<Value>)
    | Obj(fields: seq<Member>)

  datatype Member = Member(key: string, value: Value)

  function Max(a: nat, b: nat): nat { if a < b then b else a }

  /** The number of objects on the deepest path from the root. A record with
      only scalar fields has depth 1. */
  function Depth(v: Value): nat
  {
    match v
    case Null => 0
    case Int(_) => 0
    case Str(_) => 0
    case Arr(items) => ItemsDepth(items)
    case Obj(fields) => 1 + FieldsDepth(fields)
  }

  function ItemsDepth(items: seq<Value>): nat
  {
    if items == [] then 0 else Max(Depth(items[0]), ItemsDepth(items[1..]))
  }

  function FieldsDepth(fields: seq<Member>): nat
  {
    if fields == [] then 0 else Max(Depth(fields[0].value), FieldsDepth(fields[1..]))
  }

  /** The member names of an object, in order. */
  function Keys(fields: seq<Member>): (ks: seq<string>)
    ensures |ks| == |fields|
    ensures forall i :: 0 <= i < |fields| ==> ks[i] == fields[i].key
  {
    seq(|fields|, i requires 0 <= i < |fields| => fields[i].key)
  }

  /** True when some member of the object is called `key`. */
  predicate HasKey(fields: seq<Member>, key: string) {
    key in Keys(fields)
  }

  /** The value of the first member called `key`. */
  function Lookup(fields: seq<Member>, key: string): (r: Value)
    ensures !HasKey(fields, key) ==> r == Null
  {
    if fields == [] then Null
    else if fields[0].key == key then fields[0].value
    else Lookup(fields[1..], key)
  }

  // ---- the columns of each table ----

  function RestaurantColumns(r: Restaurant): seq<Member> {
    [Member("id", Int(r.id)), Member("name", Str(r.name)), Member("address", Str(r.address))]
  }

  function PizzaColumns(p: Pizza): seq<Member> {
    [Member("id", Int(p.id)), Member("name", Str(p.name)), Member("ingredients", Str(p.ingredients))]
  }

  function RestaurantPizzaColumns(a: RestaurantPizza): seq<Member> {
    [Member("id", Int(a.id)), Member("price", Int(a.price)),
     Member("restaurant_id", Int(a.restaurantId)), Member("pizza_id", Int(a.pizzaId))]
  }

  /** A parent reached from an association, already cut at `restaurant_pizzas`. */
  function RestaurantRef(restaurants: map<int, Restaurant>, id: int): Value {
    if id in restaurants then Obj(RestaurantColumns(restaurants[id])) else Null
  }

  function PizzaRef(pizzas: map<int, Pizza>, id: int): Value {
    if id in pizzas then Obj(PizzaColumns(pizzas[id])) else Null
  }

  // ---- the three serialized forms ----

  /** An association serialized on its own: columns, restaurant, pizza. */
  function SerializeRestaurantPizza(a: RestaurantPizza, restaurants: map<int, Restaurant>,
                                    pizzas: map<int, Pizza>): Value
  {
    Obj(RestaurantPizzaColumns(a) +
        [Member("restaurant", RestaurantRef(restaurants, a.restaurantId)),
         Member("pizza", PizzaRef(pizzas, a.pizzaId))])
  }

  /** An association nested under its restaurant: no `restaurant` member. */
  function NestedUnderRestaurant(a: RestaurantPizza, pizzas: map<int, Pizza>): Value {
    Obj(RestaurantPizzaColumns(a) + [Member("pizza", PizzaRef(pizzas, a.pizzaId))])
  }

  /** An association nested under its pizza: no `pizza` member. */
  function NestedUnderPizza(a: RestaurantPizza, restaurants: map<int, Restaurant>): Value {
    Obj(RestaurantPizzaColumns(a) + [Member("restaurant", RestaurantRef(restaurants, a.restaurantId))])
  }

  /** A restaurant's collection, serialized in ascending id order. */
  function RestaurantItems(restaurantId: int, pizzas: map<int, Pizza>,
                           links: map<int, RestaurantPizza>): seq<Value>
  {
    var ids := SortedIds(RestaurantCollection(links, restaurantId));
    seq(|ids|, i requires 0 <= i < |ids| => NestedUnderRestaurant(links[ids[i]], pizzas))
  }

  /** A pizza's collection, serialized in ascending id order. */
  function PizzaItems(pizzaId: int, restaurants: map<int, Restaurant>,
                      links: map<int, RestaurantPizza>): seq<Value>
  {
    var ids := SortedIds(PizzaCollection(links, pizzaId));
    seq(|ids|, i requires 0 <= i < |ids| => NestedUnderPizza(links[ids[i]], restaurants))
  }

  /** A restaurant: columns, then its collection. */
  function SerializeRestaurant(r: Restaurant, pizzas: map<int, Pizza>,
                               links: map<int, RestaurantPizza>): Value
  {
    Obj(RestaurantColumns(r) + [Member("restaurant_pizzas", Arr(RestaurantItems(r.id, pizzas, links)))])
  }

  /** A pizza: columns, then its collection. */
  function SerializePizza(p: Pizza, restaurants: map<int, Restaurant>,
                          links: map<int, RestaurantPizza>): Value
  {
    Obj(PizzaColumns(p) + [Member("restaurant_pizzas", Arr(PizzaItems(p.id, restaurants, links)))])
  }

  // ---- facts about depth and lookup ----

  /** A value with no nested object or array. */
  predicate Scalar(v: Value) {
    v.Null? || v.Int? || v.Str?
  }

  lemma {:induction false} ScalarFieldsDepth(fields: seq<Member>)
    requires forall i :: 0 <= i < |fields| ==> Scalar(fields[i].value)
    ensures FieldsDepth(fields) == 0
  {
    if fields != [] {
      ScalarFieldsDepth(fields[1..]);
    }
  }

  lemma {:induction false} FieldsDepthAppend(a: seq<Member>, b: seq<Member>)
    ensures FieldsDepth(a + b) == Max(FieldsDepth(a), FieldsDepth(b))
  {
    if a == [] {
      assert a + b == b;
    } else {
      assert (a + b)[0] == a[0];
      assert (a + b)[1..] == a[1..] + b;
      FieldsDepthAppend(a[1..], b);
    }
  }

  /** An array is no deeper than the deepest item, when every item is within `d`. */
  lemma {:induction false} ItemsDepthBound(items: seq<Value>, d: nat)
    requires forall i :: 0 <= i < |items| ==> Depth(items[i]) <= d
    ensures ItemsDepth(items) <= d
  {
    if items != [] {
      ItemsDepthBound(items[1..], d);
    }
  }

  /** An array is at least as deep as each of its items. */
  lemma {:induction false} ItemsDepthReaches(items: seq<Value>, k: nat)
    requires k < |items|
    ensures Depth(items[k]) <= ItemsDepth(items)
  {
    if k > 0 {
      ItemsDepthReaches(items[1..], k - 1);
    }
  }

  /** Members in front of the first `key` do not change what `key` finds. */
  lemma {:induction false} LookupAppend(a: seq<Member>, b: seq<Member>, key: string)
    requires !HasKey(a, key)
    ensures Lookup(a + b, key) == Lookup(b, key)
  {
    if a == [] {
      assert a + b == b;
    } else {
      assert a[0].key == Keys(a)[0];
      assert (a + b)[0] == a[0];
      assert (a + b)[1..] == a[1..] + b;
      assert Keys(a[1..]) == Keys(a)[1..];
      LookupAppend(a[1..], b, key);
    }
  }

  lemma ColumnsScalar(r: Restaurant, p: Pizza, a: RestaurantPizza)
    ensures FieldsDepth(RestaurantColumns(r)) == 0
    ensures FieldsDepth(PizzaColumns(p)) == 0
    ensures FieldsDepth(RestaurantPizzaColumns(a)) == 0
  {
    ScalarFieldsDepth(RestaurantColumns(r));
    ScalarFieldsDepth(PizzaColumns(p));
    ScalarFieldsDepth(RestaurantPizzaColumns(a));
  }

  /** A parent reached from an association carries only its columns: depth at
      most 1 and no `restaurant_pizzas` member. */
  lemma RefsAreFlat(restaurants: map<int, Restaurant>, pizzas: map<int, Pizza>, rid: int, pid: int)
    ensures RestaurantRef(restaurants, rid).Obj? ==>
              Keys(RestaurantRef(restaurants, rid).fields) == ["id", "name", "address"]
    ensures PizzaRef(pizzas, pid).Obj? ==>
              Keys(PizzaRef(pizzas, pid).fields) == ["id", "name", "ingredients"]
    ensures Depth(RestaurantRef(restaurants, rid)) == (if rid in restaurants then 1 else 0)
    ensures Depth(PizzaRef(pizzas, pid)) == (if pid in pizzas then 1 else 0)
  {
    if rid in restaurants {
      ColumnsScalar(restaurants[rid], Pizza(0, "", ""), RestaurantPizza(0, 0, 0, 0));
    }
    if pid in pizzas {
      ColumnsScalar(Restaurant(0, "", ""), pizzas[pid], RestaurantPizza(0, 0, 0, 0));
    }
  }

  /** The depth of an object made of scalar columns and some more members. */
  lemma ObjectDepth(columns: seq<Member>, rest: seq<Member>)
    requires FieldsDepth(columns) == 0
    ensures Depth(Obj(columns + rest)) == 1 + FieldsDepth(rest)
  {
    FieldsDepthAppend(columns, rest);
  }

  // ---- the serialized forms and their properties ----

  /** An association on its own holds its four columns and both parents, and
      both parents are cut at `restaurant_pizzas`. */
  lemma SerializeRestaurantPizzaShape(a: RestaurantPizza, restaurants: map<int, Restaurant>,
                                      pizzas: map<int, Pizza>)
    ensures SerializeRestaurantPizza(a, restaurants, pizzas).Obj?
    ensures Keys(SerializeRestaurantPizza(a, restaurants, pizzas).fields) ==
              ["id", "price", "restaurant_id", "pizza_id", "restaurant", "pizza"]
    ensures Lookup(SerializeRestaurantPizza(a, restaurants, pizzas).fields, "restaurant") ==
              RestaurantRef(restaurants, a.restaurantId)
    ensures Lookup(SerializeRestaurantPizza(a, restaurants, pizzas).fields, "pizza") ==
              PizzaRef(pizzas, a.pizzaId)
    ensures a.restaurantId in restaurants ==>
              RestaurantRef(restaurants, a.restaurantId) == Obj(RestaurantColumns(restaurants[a.restaurantId]))
    ensures a.pizzaId in pizzas ==> PizzaRef(pizzas, a.pizzaId) == Obj(PizzaColumns(pizzas[a.pizzaId]))
    ensures RestaurantRef(restaurants, a.restaurantId).Obj? ==>
              !HasKey(RestaurantRef(restaurants, a.restaurantId).fields, "restaurant_pizzas")
    ensures PizzaRef(pizzas, a.pizzaId).Obj? ==>
              !HasKey(PizzaRef(pizzas, a.pizzaId).fields, "restaurant_pizzas")
  {
    var cols := RestaurantPizzaColumns(a);
    var rest := [Member("restaurant", RestaurantRef(restaurants, a.restaurantId)),
                 Member("pizza", PizzaRef(pizzas, a.pizzaId))];
    assert Keys(cols) == ["id", "price", "restaurant_id", "pizza_id"];
    assert Keys(cols + rest) == Keys(cols) + ["restaurant", "pizza"];
    LookupAppend(cols, rest, "restaurant");
    LookupAppend(cols, rest, "pizza");
    RefsAreFlat(restaurants, pizzas, a.restaurantId, a.pizzaId);
  }

  /** An association on its own is never more than two objects deep, and is
      exactly two deep when a parent it names exists. */
  lemma SerializeRestaurantPizzaDepth(a: RestaurantPizza, restaurants: map<int, Restaurant>,
                                      pizzas: map<int, Pizza>)
    ensures Depth(SerializeRestaurantPizza(a, restaurants, pizzas)) <= 2
    ensures a.restaurantId in restaurants || a.pizzaId in pizzas ==>
              Depth(SerializeRestaurantPizza(a, restaurants, pizzas)) == 2
  {
    var rest := [Member("restaurant", RestaurantRef(restaurants, a.restaurantId)),
                 Member("pizza", PizzaRef(pizzas, a.pizzaId))];
    ColumnsScalar(Restaurant(0, "", ""), Pizza(0, "", ""), a);
    ObjectDepth(RestaurantPizzaColumns(a), rest);
    RefsAreFlat(restaurants, pizzas, a.restaurantId, a.pizzaId);
    assert rest[1..] == [Member("pizza", PizzaRef(pizzas, a.pizzaId))];
    assert FieldsDepth(rest[1..]) == Depth(PizzaRef(pizzas, a.pizzaId));
  }

  /** An association under its restaurant: four columns and the pizza, no
      `restaurant` member, and the pizza is cut at `restaurant_pizzas`. */
  lemma NestedUnderRestaurantShape(a: RestaurantPizza, pizzas: map<int, Pizza>)
    ensures NestedUnderRestaurant(a, pizzas).Obj?
    ensures Keys(NestedUnderRestaurant(a, pizzas).fields) ==
              ["id", "price", "restaurant_id", "pizza_id", "pizza"]
    ensures !HasKey(NestedUnderRestaurant(a, pizzas).fields, "restaurant")
    ensures Lookup(NestedUnderRestaurant(a, pizzas).fields, "pizza") == PizzaRef(pizzas, a.pizzaId)
    ensures PizzaRef(pizzas, a.pizzaId).Obj? ==>
              !HasKey(PizzaRef(pizzas, a.pizzaId).fields, "restaurant_pizzas")
    ensures Depth(NestedUnderRestaurant(a, pizzas)) == (if a.pizzaId in pizzas then 2 else 1)
  {
    var cols := RestaurantPizzaColumns(a);
    var rest := [Member("pizza", PizzaRef(pizzas, a.pizzaId))];
    assert Keys(cols) == ["id", "price", "restaurant_id", "pizza_id"];
    assert Keys(cols + rest) == Keys(cols) + ["pizza"];
    LookupAppend(cols, rest, "pizza");
    RefsAreFlat(map[], pizzas, 0, a.pizzaId);
    ColumnsScalar(Restaurant(0, "", ""), Pizza(0, "", ""), a);
    ObjectDepth(cols, rest);
  }

  /** An association under its pizza: four columns and the restaurant, no
      `pizza` member, and the restaurant is cut at `restaurant_pizzas`. */
  lemma NestedUnderPizzaShape(a: RestaurantPizza, restaurants: map<int, Restaurant>)
    ensures NestedUnderPizza(a, restaurants).Obj?
    ensures Keys(NestedUnderPizza(a, restaurants).fields) ==
              ["id", "price", "restaurant_id", "pizza_id", "restaurant"]
    ensures !HasKey(NestedUnderPizza(a, restaurants).fields, "pizza")
    ensures Lookup(NestedUnderPizza(a, restaurants).fields, "restaurant") ==
              RestaurantRef(restaurants, a.restaurantId)
    ensures RestaurantRef(restaurants, a.restaurantId).Obj? ==>
              !HasKey(RestaurantRef(restaurants, a.restaurantId).fields, "restaurant_pizzas")
    ensures Depth(NestedUnderPizza(a, restaurants)) == (if a.restaurantId in restaurants then 2 else 1)
  {
    var cols := RestaurantPizzaColumns(a);
    var rest := [Member("restaurant", RestaurantRef(restaurants, a.restaurantId))];
    assert Keys(cols) == ["id", "price", "restaurant_id", "pizza_id"];
    assert Keys(cols + rest) == Keys(cols) + ["restaurant"];
    LookupAppend(cols, rest, "restaurant");
    RefsAreFlat(restaurants, map[], a.restaurantId, 0);
    ColumnsScalar(Restaurant(0, "", ""), Pizza(0, "", ""), a);
    ObjectDepth(cols, rest);
  }

  /** A restaurant's serialized collection lists each of its associations
      and nothing else, as many items as the collection holds, each nested
      without its `restaurant`. */
  lemma RestaurantItemsExact(restaurantId: int, pizzas: map<int, Pizza>, links: map<int, RestaurantPizza>)
    ensures |RestaurantItems(restaurantId, pizzas, links)| == |RestaurantCollection(links, restaurantId)|
    ensures forall id :: id in RestaurantCollection(links, restaurantId) ==>
              NestedUnderRestaurant(links[id], pizzas) in RestaurantItems(restaurantId, pizzas, links)
    ensures forall v :: v in RestaurantItems(restaurantId, pizzas, links) ==>
              exists id :: id in RestaurantCollection(links, restaurantId) &&
                           v == NestedUnderRestaurant(links[id], pizzas)
    ensures forall v :: v in RestaurantItems(restaurantId, pizzas, links) ==>
              v.Obj? && !HasKey(v.fields, "restaurant")
  {
    var ids := SortedIds(RestaurantCollection(links, restaurantId));
    var items := RestaurantItems(restaurantId, pizzas, links);
    forall id | id in RestaurantCollection(links, restaurantId)
      ensures NestedUnderRestaurant(links[id], pizzas) in items
    {
      var i :| 0 <= i < |ids| && ids[i] == id;
      assert items[i] == NestedUnderRestaurant(links[id], pizzas);
    }
    forall v | v in items
      ensures exists id :: id in RestaurantCollection(links, restaurantId) &&
                           v == NestedUnderRestaurant(links[id], pizzas)
      ensures v.Obj? && !HasKey(v.fields, "restaurant")
    {
      var i :| 0 <= i < |items| && items[i] == v;
      assert ids[i] in ids;
      NestedUnderRestaurantShape(links[ids[i]], pizzas);
    }
  }

  /** A pizza's serialized collection lists each of its associations and
      nothing else, as many items as the collection holds, each nested
      without its `pizza`. */
  lemma PizzaItemsExact(pizzaId: int, restaurants: map<int, Restaurant>, links: map<int, RestaurantPizza>)
    ensures |PizzaItems(pizzaId, restaurants, links)| == |PizzaCollection(links, pizzaId)|
    ensures forall id :: id in PizzaCollection(links, pizzaId) ==>
              NestedUnderPizza(links[id], restaurants) in PizzaItems(pizzaId, restaurants, links)
    ensures forall v :: v in PizzaItems(pizzaId, restaurants, links) ==>
              exists id :: id in PizzaCollection(links, pizzaId) &&
                           v == NestedUnderPizza(links[id], restaurants)
    ensures forall v :: v in PizzaItems(pizzaId, restaurants, links) ==>
              v.Obj? && !HasKey(v.fields, "pizza")
  {
    var ids := SortedIds(PizzaCollection(links, pizzaId));
    var items := PizzaItems(pizzaId, restaurants, links);
    forall id | id in PizzaCollection(links, pizzaId)
      ensures NestedUnderPizza(links[id], restaurants) in items
    {
      var i :| 0 <= i < |ids| && ids[i] == id;
      assert items[i] == NestedUnderPizza(links[id], restaurants);
    }
    forall v | v in items
      ensures exists id :: id in PizzaCollection(links, pizzaId) &&
                           v == NestedUnderPizza(links[id], restaurants)
      ensures v.Obj? && !HasKey(v.fields, "pizza")
    {
      var i :| 0 <= i < |items| && items[i] == v;
      assert ids[i] in ids;
      NestedUnderPizzaShape(links[ids[i]], restaurants);
    }
  }

  /** A restaurant serializes to its three columns and its collection. */
  lemma SerializeRestaurantShape(r: Restaurant, pizzas: map<int, Pizza>, links: map<int, RestaurantPizza>)
    ensures SerializeRestaurant(r, pizzas, links).Obj?
    ensures Keys(SerializeRestaurant(r, pizzas, links).fields) == ["id", "name", "address", "restaurant_pizzas"]
    ensures Lookup(SerializeRestaurant(r, pizzas, links).fields, "restaurant_pizzas") ==
              Arr(RestaurantItems(r.id, pizzas, links))
  {
    var cols := RestaurantColumns(r);
    var rest := [Member("restaurant_pizzas", Arr(RestaurantItems(r.id, pizzas, links)))];
    assert Keys(cols) == ["id", "name", "address"];
    assert Keys(cols + rest) == Keys(cols) + ["restaurant_pizzas"];
    LookupAppend(cols, rest, "restaurant_pizzas");
  }

  /** A pizza serializes to its three columns and its collection. */
  lemma SerializePizzaShape(p: Pizza, restaurants: map<int, Restaurant>, links: map<int, RestaurantPizza>)
    ensures SerializePizza(p, restaurants, links).Obj?
    ensures Keys(SerializePizza(p, restaurants, links).fields) == ["id", "name", "ingredients", "restaurant_pizzas"]
    ensures Lookup(SerializePizza(p, restaurants, links).fields, "restaurant_pizzas") ==
              Arr(PizzaItems(p.id, restaurants, links))
  {
    var cols := PizzaColumns(p);
    var rest := [Member("restaurant_pizzas", Arr(PizzaItems(p.id, restaurants, links)))];
    assert Keys(cols) == ["id", "name", "ingredients"];
    assert Keys(cols + rest) == Keys(cols) + ["restaurant_pizzas"];
    LookupAppend(cols, rest, "restaurant_pizzas");
  }

  /** The cycle restaurant -> association -> restaurant is cut: a serialized
      restaurant is at most three objects deep (restaurant, association,
      pizza), one deep when its collection is empty, and exactly three deep
      otherwise when every association's pizza exists. */
  lemma SerializeRestaurantDepth(r: Restaurant, pizzas: map<int, Pizza>, links: map<int, RestaurantPizza>)
    ensures Depth(SerializeRestaurant(r, pizzas, links)) <= 3
    ensures RestaurantCollection(links, r.id) == {} ==> Depth(SerializeRestaurant(r, pizzas, links)) == 1
    ensures ((forall id :: id in links ==> links[id].pizzaId in pizzas) &&
             RestaurantCollection(links, r.id) != {}) ==>
            Depth(SerializeRestaurant(r, pizzas, links)) == 3
  {
    var ids := SortedIds(RestaurantCollection(links, r.id));
    var items := RestaurantItems(r.id, pizzas, links);
    var rest := [Member("restaurant_pizzas", Arr(items))];
    ColumnsScalar(r, Pizza(0, "", ""), RestaurantPizza(0, 0, 0, 0));
    ObjectDepth(RestaurantColumns(r), rest);
    assert rest[1..] == [];
    assert FieldsDepth(rest) == ItemsDepth(items);
    forall i | 0 <= i < |items| ensures Depth(items[i]) <= 2 {
      NestedUnderRestaurantShape(links[ids[i]], pizzas);
    }
    ItemsDepthBound(items, 2);
    if (forall id :: id in links ==> links[id].pizzaId in pizzas) && ids != [] {
      assert ids[0] in ids;
      NestedUnderRestaurantShape(links[ids[0]], pizzas);
      ItemsDepthReaches(items, 0);
    }
  }

  /** The cycle pizza -> association -> pizza is cut in the same way. */
  lemma SerializePizzaDepth(p: Pizza, restaurants: map<int, Restaurant>, links: map<int, RestaurantPizza>)
    ensures Depth(SerializePizza(p, restaurants, links)) <= 3
    ensures PizzaCollection(links, p.id) == {} ==> Depth(SerializePizza(p, restaurants, links)) == 1
    ensures ((forall id :: id in links ==> links[id].restaurantId in restaurants) &&
             PizzaCollection(links, p.id) != {}) ==>
            Depth(SerializePizza(p, restaurants, links)) == 3
  {
    var ids := SortedIds(PizzaCollection(links, p.id));
    var items := PizzaItems(p.id, restaurants, links);
    var rest := [Member("restaurant_pizzas", Arr(items))];
    ColumnsScalar(Restaurant(0, "", ""), p, RestaurantPizza(0, 0, 0, 0));
    ObjectDepth(PizzaColumns(p), rest);
    assert rest[1..] == [];
    assert FieldsDepth(rest) == ItemsDepth(items);
    forall i | 0 <= i < |items| ensures Depth(items[i]) <= 2 {
      NestedUnderPizzaShape(links[ids[i]], restaurants);
    }
    ItemsDepthBound(items, 2);
    if (forall id :: id in links ==> links[id].restaurantId in restaurants) && ids != [] {
      assert ids[0] in ids;
      NestedUnderPizzaShape(links[ids[0]], restaurants);
      ItemsDepthReaches(items, 0);
    }
  }
}

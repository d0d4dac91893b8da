# Pizza restaurant catalog: a verified model

The catalog has three tables:

- `restaurants` holds `id`, `name` and `address`.
- `pizzas` holds `id`, `name` and `ingredients`.
- `restaurant_pizzas` holds `id`, `price`, `restaurant_id` and `pizza_id`. Each row says that one restaurant sells one pizza at a price.

This model covers four things:

- The price validator, which runs on every assignment to `price`.
- The `restaurant_pizzas` relationship of each parent, with `cascade="all, delete-orphan"`.
- The two foreign keys of the association table.
- The `serialize_rules` of all three classes, which cut the cycles that the two-way relationships would otherwise create.

Modules:

- `Models` (models.dfy): the three records, the error kinds and the price guard `ValidatePrice`.
- `Tables` (tables.dfy): pure functions over the three tables, kept as maps from primary key to row. It holds:
  - the invariant `Consistent`: rows are keyed by their id, every price is in [1, 30], and every foreign key names an existing row;
  - the parent collections;
  - the effect of cascade deletion;
  - the ascending-id order in which a collection is listed.
- `Catalog` (store.dfy): the class `Store`. It holds the three maps and updates them in place. Each method either succeeds and keeps `Valid()`, or returns `Fail(...)` and changes nothing.
- `Serialization` (serialization.dfy): the dictionaries the records serialize to, as a JSON-like `Value` tree. Lemmas say which keys each form has, which back-references are absent and how deep the tree can be.

Decisions where the source leaves a choice:

- **Serialization depth.** The serializer applies each nested record's own `serialize_rules` as well as the outer record's. So a restaurant's nested associations still expand their pizza, and that pizza is cut at `restaurant_pizzas` by the association's rule `-pizza.restaurant_pizzas` (server/models.py:58). A serialized restaurant is therefore three objects deep (restaurant, association, pizza), and a pizza likewise. An association on its own is two deep.
- **Price type.** The column is an integer column (server/models.py:48) and the validator compares the value with 1 and 30 (server/models.py:63). The model takes prices as `int`.
- **Foreign keys.** A missing restaurant or pizza is rejected with `UnknownRestaurant` or `UnknownPizza`. This follows the foreign keys at server/models.py:51-52. Whether the database engine enforces them is a property of the engine, not of this file.
- **Order of checks in `CreateRestaurantPizza`.** The price is checked first, because the validator fires when the constructor assigns it. Then the foreign keys are checked, then primary-key uniqueness.
- **Ids.** Autoincrement ids are supplied by the caller. Reusing an id that is taken fails with `DuplicateId`.
- **Collection order.** The order of a collection is unspecified in the source. The model lists it in ascending id order.
- **Duplicate pairs.** Two associations may name the same (restaurant, pizza) pair. The source imposes no uniqueness, and neither does the model.

## Model

| member | source | states |
|---|---|---|
| `Models.ValidatePrice` | server/models.py:61-65 | accepts exactly the prices in [1, 30], returns an accepted price unchanged, and rejects every other price with `InvalidPrice` |
| `Models.ValidatePriceAccepts` | server/models.py:63-65 | every price p with 1 ≤ p ≤ 30 is returned unchanged |
| `Models.ValidatePriceRejects` | server/models.py:63-64 | every price below 1 or above 30 is rejected |
| `Models.ValidatePriceExamples` | server/models.py:63-65 | 0, 31 and -5 are rejected; 1, 15 and 30 are accepted unchanged |
| `Tables.StoredRowsValid` | server/models.py:47-52 | in consistent tables every stored price is in [1, 30] and passes the guard unchanged, and both foreign keys of every association name existing rows |
| `Tables.Consistent` | server/models.py:47-52 | the invariant: rows are keyed by their id, every price is in [1, 30], and both foreign keys of every association name existing rows; `StoredRowsValid` and the `Store` methods state what it guarantees |
| `Tables.RestaurantCollection` | server/models.py:20 | the restaurant side of the relationship, as association ids; `RestaurantCollectionsPartition` and the `Store` methods state its properties |
| `Tables.PizzaCollection` | server/models.py:36 | the pizza side of the relationship, as association ids; `PizzaCollectionsPartition` and the `Store` methods state its properties |
| `Tables.RestaurantCollectionsPartition` | server/models.py:51-54 | in consistent tables each stored association is in the collection of exactly one restaurant, the existing one its `restaurant_id` names, and a missing restaurant has an empty collection |
| `Tables.PizzaCollectionsPartition` | server/models.py:52-55 | in consistent tables each stored association is in the collection of exactly one pizza, the existing one its `pizza_id` names, and a missing pizza has an empty collection |
| `Tables.CascadeRestaurant` | server/models.py:20 | the association table after a restaurant's cascade delete; `CascadeRestaurantExact`, `CascadeRestaurantCount` and `CascadeRestaurantConsistent` state what it removes and keeps |
| `Tables.CascadePizza` | server/models.py:36 | the association table after a pizza's cascade delete; `CascadePizzaExact`, `CascadePizzaCount` and `CascadePizzaConsistent` state what it removes and keeps |
| `Tables.SortedIds` | server/models.py:20 | a collection listed once per id, with nothing else, in strictly ascending id order (the model's choice of order) |
| `Tables.CascadeRestaurantExact` | server/models.py:20 | cascading a restaurant's deletion keeps exactly the associations with another `restaurant_id`, keeps them unchanged, and leaves none that references the deleted id |
| `Tables.CascadePizzaExact` | server/models.py:36 | cascading a pizza's deletion keeps exactly the associations with another `pizza_id`, keeps them unchanged, and leaves none that references the deleted id |
| `Tables.CascadeRestaurantCount` | server/models.py:20 | a restaurant with N associations loses exactly N association rows |
| `Tables.CascadePizzaCount` | server/models.py:36 | a pizza with N associations loses exactly N association rows |
| `Tables.CascadeRestaurantConsistent` | server/models.py:20 | deleting a restaurant together with its collection keeps the price and foreign-key invariant |
| `Tables.CascadePizzaConsistent` | server/models.py:36 | deleting a pizza together with its collection keeps the price and foreign-key invariant |
| `Catalog.Store.Valid` | server/models.py:47-52 | the store's tables satisfy `Consistent`; every method keeps it |
| `Catalog.Store.RestaurantPizzasOf` | server/models.py:20 | a restaurant's `restaurant_pizzas` in the store; each mutator below states how it changes |
| `Catalog.Store.PizzaRestaurantPizzasOf` | server/models.py:36 | a pizza's `restaurant_pizzas` in the store; each mutator below states how it changes |
| `Catalog.Store.constructor` | server/models.py:12-58 | a new store has three empty tables and is consistent |
| `Catalog.Store.CreateRestaurant` | server/models.py:12-17 | adds the restaurant row under a free id, fails with `DuplicateId` on a taken one, and leaves the other tables alone; a new restaurant's collection is empty |
| `Catalog.Store.CreatePizza` | server/models.py:28-33 | adds the pizza row under a free id, fails with `DuplicateId` on a taken one, and leaves the other tables alone; a new pizza's collection is empty |
| `Catalog.Store.CreateRestaurantPizza` | server/models.py:47-65 | stores the association only if the price is in [1, 30], both parents exist and the id is free, and then adds it to exactly its restaurant's and its pizza's collections; otherwise returns the first failing check and changes nothing |
| `Catalog.Store.SetPrice` | server/models.py:61-65 | a price in [1, 30] replaces the old price and changes nothing else, no collection included; a rejected price or a missing row leaves every table as it was |
| `Catalog.Store.DeleteRestaurant` | server/models.py:20 | removes the restaurant and exactly its associations, leaves pizzas and other restaurants' collections alone, removes those associations from every pizza's collection, and afterwards no association references the id |
| `Catalog.Store.DeletePizza` | server/models.py:36 | removes the pizza and exactly its associations, leaves restaurants and other pizzas' collections alone, removes those associations from every restaurant's collection, and afterwards no association references the id |
| `Catalog.Store.DeleteRestaurantPizza` | server/models.py:44-52 | deleting an association removes exactly that row from the table and from every collection |
| `Catalog.Store.RemoveFromRestaurant` | server/models.py:20 | removing an association from a restaurant's collection deletes the orphan row, so it also leaves its pizza's collection; removing one that is not there fails and changes nothing |
| `Catalog.Store.RemoveFromPizza` | server/models.py:36 | removing an association from a pizza's collection deletes the orphan row, so it also leaves its restaurant's collection; removing one that is not there fails and changes nothing |
| `Serialization.RestaurantRef` | server/models.py:58 | the restaurant nested in an association, cut at `restaurant_pizzas` (`Null` when missing); `RefsAreFlat` states its shape |
| `Serialization.PizzaRef` | server/models.py:58 | the pizza nested in an association, cut at `restaurant_pizzas` (`Null` when missing); `RefsAreFlat` states its shape |
| `Serialization.SerializeRestaurantPizza` | server/models.py:44-58 | an association's dictionary; `SerializeRestaurantPizzaShape` and `SerializeRestaurantPizzaDepth` state its keys, parents and depth |
| `Serialization.NestedUnderRestaurant` | server/models.py:23 | an association's dictionary inside its restaurant's; `NestedUnderRestaurantShape` states its keys, the missing back-reference and its depth |
| `Serialization.NestedUnderPizza` | server/models.py:39 | an association's dictionary inside its pizza's; `NestedUnderPizzaShape` states its keys, the missing back-reference and its depth |
| `Serialization.RestaurantItems` | server/models.py:19-23 | a restaurant's serialized collection; `RestaurantItemsExact` states that it lists exactly the collection |
| `Serialization.PizzaItems` | server/models.py:35-39 | a pizza's serialized collection; `PizzaItemsExact` states that it lists exactly the collection |
| `Serialization.SerializeRestaurant` | server/models.py:12-23 | a restaurant's dictionary; `SerializeRestaurantShape` and `SerializeRestaurantDepth` state its keys, its collection and its depth |
| `Serialization.SerializePizza` | server/models.py:28-39 | a pizza's dictionary; `SerializePizzaShape` and `SerializePizzaDepth` state its keys, its collection and its depth |
| `Serialization.RefsAreFlat` | server/models.py:58 | a parent reached from an association carries only its three columns, no `restaurant_pizzas`, and is one object deep |
| `Serialization.SerializeRestaurantPizzaShape` | server/models.py:58 | an association serializes to its four columns plus `restaurant` and `pizza`, each holding that parent's columns and no `restaurant_pizzas` |
| `Serialization.SerializeRestaurantPizzaDepth` | server/models.py:58 | a serialized association is at most two objects deep, and exactly two when a parent exists |
| `Serialization.NestedUnderRestaurantShape` | server/models.py:23 | an association nested under its restaurant has no `restaurant` member; its `pizza` lacks `restaurant_pizzas` |
| `Serialization.NestedUnderPizzaShape` | server/models.py:39 | an association nested under its pizza has no `pizza` member; its `restaurant` lacks `restaurant_pizzas` |
| `Serialization.RestaurantItemsExact` | server/models.py:19-23 | a serialized restaurant lists each association of its collection and nothing else, each without a `restaurant` back-reference |
| `Serialization.PizzaItemsExact` | server/models.py:35-39 | a serialized pizza lists each association of its collection and nothing else, each without a `pizza` back-reference |
| `Serialization.SerializeRestaurantShape` | server/models.py:15-23 | a restaurant serializes to `id`, `name`, `address` and `restaurant_pizzas`, the last holding its serialized collection |
| `Serialization.SerializePizzaShape` | server/models.py:31-39 | a pizza serializes to `id`, `name`, `ingredients` and `restaurant_pizzas`, the last holding its serialized collection |
| `Serialization.SerializeRestaurantDepth` | server/models.py:23 | a serialized restaurant is at most three objects deep; it is one deep with no associations and exactly three deep when it has some and their pizzas exist |
| `Serialization.SerializePizzaDepth` | server/models.py:39 | a serialized pizza is at most three objects deep; it is one deep with no associations and exactly three deep when it has some and their restaurants exist |

## Left out

- Database setup, the session and SQL persistence (server/models.py:1-10): the three tables are maps held by `Store`. Commits, flushes, transactions and rollback belong to the caller.
- The foreign-key naming convention (server/models.py:6-8): it only names constraints in the generated schema.
- The `__repr__` methods (server/models.py:25-26, 41-42, 67-68): they are debug strings.
- How the engine picks autoincrement ids: ids are parameters, and a taken id is refused.
- The exception type and message of a rejected price: it is the `InvalidPrice` failure.
- Non-integer prices: a float or other value compared with 1 and 30 is not modelled.
- NULL values: a NULL price or foreign key is not modelled, because the invariant requires real values. A NULL `name`, `address` or `ingredients` (server/models.py:16-17, 32-33) is not modelled either: text columns are plain strings.
- Member order within a serialized object: the source fixes no order. The model lists the columns first, then the relationships, and its `Keys(..) == [...]` clauses use that order.
- Updates to a restaurant's or pizza's name, address or ingredients: they are plain column assignments with no rule attached.
- Moving an association to another parent by reassigning `restaurant` or `pizza`: not modelled.
- The serializer library's general rule engine: each serialized form is written out as the rules evaluate for these three classes. Nested rules are applied as the library applies them.
- Collection order: the source does not fix it; the model uses ascending id.

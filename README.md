# kitchenpos domain rules in Dafny

A model of the domain rules of the kitchenpos restaurant back end
(hyena0608/jwp-refactoring), with proofs about them:

- **Order tables** (`order_table.dfy`, module `OrderTables`). An order table has an id, an
  optional group id, a guest count and an `empty` flag. The class `OrderTable` updates
  these fields in place. There are four guarded operations:
  - emptying or occupying the table, checked against its group;
  - emptying or occupying the table, checked against the order validator;
  - assigning a group, allowed once;
  - changing the guest count.

  Each method is specified by the state machine `Apply`/`Next` over the value
  `TableState`. `Run` folds `Next` over any sequence of operations; the lemmas about
  `Run` state what holds over a table's whole life.
- **Menus** (`menu.dfy`, `menu_product.dfy`). A menu's price must be present and
  non-negative. `AddMenuProducts` appends a batch all or nothing: it refuses when the
  price is above the total of the stored products plus the new ones. A menu created
  with no products skips that check, on purpose. A menu product is a value: a product
  and a quantity, and its total price.
- **Orders** (`orders.dfy`). This file holds the order status, the validator's question
  ("is an order at this table still COOKING or MEAL?") and the `Order` entity. The
  entity's ungrouping step is kept abstract.
- **Table groups** (`table_group.dfy`, `table_group_service.dfy`). Forming a group
  needs at least two tables, each empty and in no group. Each member then records the
  group and becomes occupied. `TableGroupService.Create` first checks that the id
  lookup found one table per requested id. `Ungroup` applies the per-order step to
  every order of the group. The service's store is consistent (`Valid`) when each
  stored table carries the id it is stored under and no order is stored twice; both
  operations keep it consistent, so they can be called again and again.

Money is an exact integer (a `BigDecimal` amount in its smallest unit). The guest count
is Java's 32-bit `int` (`int32`). A failure is the source's `IllegalArgumentException`,
returned as `Outcome.Fail` or `Result.Failure` with a `Reason`. Every operation checks its
guard before it writes, so a failed operation changes nothing.

Points where the code is narrower than one might expect, modelled as written:

- Neither empty-flag overload checks both rules. In `OrderTable.java` one overload
  checks only the group, and the other checks only the validator.
  `ValidatedOverloadIgnoresGroup` proves that the validator overload can empty a
  grouped table.
- The validator overload asks the validator even when the table is being occupied
  (`isEmpty == false`).
- `assignTableGroup` takes a nullable id. Assigning `null` to an ungrouped table
  succeeds and leaves it ungrouped.

## Model

| member | source | states |
|---|---|---|
| `OrderTables.Ungrouped` | table-module/src/main/java/kitchenpos/table/domain/OrderTable.java:28-33 | a table built without a group has no id, no group id, and the given guest count and empty flag |
| `OrderTables.OrderTable.constructor` | table-module/src/main/java/kitchenpos/table/domain/OrderTable.java:35-44 | stores id, group id, guests and empty flag as given, with no validation |
| `OrderTables.OrderTable.WithoutTableGroup` | table-module/src/main/java/kitchenpos/table/domain/OrderTable.java:46-48 | a fresh table with unset id and group, and the given guests and empty flag |
| `OrderTables.OrderTable.IsGrouped` | table-module/src/main/java/kitchenpos/table/domain/OrderTable.java:50-52 | true exactly when the group id is non-null |
| `OrderTables.Apply` | table-module/src/main/java/kitchenpos/table/domain/OrderTable.java:54-83 | for each operation: the exact failure condition (iff), the one field it writes and its new value, and that no other field or the id changes |
| `OrderTables.OrderTable.ChangeOrderTableEmptyValidated` | table-module/src/main/java/kitchenpos/table/domain/OrderTable.java:54-57 | consults the validator with the table's id; on rejection `empty` is unchanged; otherwise only `empty` is written; the group is not looked at |
| `OrderTables.OrderTable.ChangeOrderTableEmpty` | table-module/src/main/java/kitchenpos/table/domain/OrderTable.java:59-65 | fails, changing nothing, exactly when emptying a grouped table; otherwise writes only `empty`, even on a grouped table |
| `OrderTables.OrderTable.AssignTableGroup` | table-module/src/main/java/kitchenpos/table/domain/OrderTable.java:67-72 | fails, changing nothing, exactly when already grouped; otherwise sets only the group id |
| `OrderTables.OrderTable.ChangeNumberOfGuests` | table-module/src/main/java/kitchenpos/table/domain/OrderTable.java:74-83 | fails, changing nothing, when the table is empty or the count is negative; otherwise sets only the guest count |
| `OrderTables.EmptyTableCheckedFirst` | table-module/src/main/java/kitchenpos/table/domain/OrderTable.java:75-80 | an empty table is refused for being empty, whatever the requested count |
| `OrderTables.AssignRefusedIffGrouped` | table-module/src/main/java/kitchenpos/table/domain/OrderTable.java:67-72 | assigning a group is refused exactly when `isGrouped()` holds |
| `OrderTables.ValidatedOverloadIgnoresGroup` | table-module/src/main/java/kitchenpos/table/domain/OrderTable.java:54-65 | with no order in progress, the validator overload empties a grouped table, and the checked overload refuses the same request |
| `OrderTables.ValidatedEmptyingFollowsOrders` | src/test/java/kitchenpos/application/table/TableServiceTest.java:66-150 | emptying through the validator fails iff an order at the table is COOKING or MEAL; with only COMPLETION orders or none it succeeds and the table is empty |
| `OrderTables.RunKeepsId` | table-module/src/main/java/kitchenpos/table/domain/OrderTable.java:54-83 | no sequence of operations changes the table id |
| `OrderTables.RunKeepsGroup` | table-module/src/main/java/kitchenpos/table/domain/OrderTable.java:67-72 | once a group is assigned, no sequence of operations clears or replaces it |
| `OrderTables.RunKeepsGuestsNonNegative` | table-module/src/main/java/kitchenpos/table/domain/OrderTable.java:74-83 | a non-negative guest count stays non-negative through any sequence of operations |
| `OrderTables.GroupedTableStaysOccupied` | table-module/src/main/java/kitchenpos/table/domain/OrderTable.java:59-65 | without the validator overload, a grouped, occupied table stays grouped and occupied through any sequence of operations |
| `Orders.ExistsInProgress` | src/test/java/kitchenpos/application/table/TableServiceTest.java:128-155 | the validator's store query: true iff some order at the table is COOKING or MEAL; a table with no id has none |
| `Orders.SnapshotInProgress` | src/test/java/kitchenpos/application/table/TableServiceTest.java:128-155 | the validator's answer on the rows reported for the stored orders is the answer on those orders: some order at the table is COOKING or MEAL |
| `Orders.ValidateChangeEmpty` | table-module/src/main/java/kitchenpos/table/domain/OrderTable.java:55 | the validator passes iff every order at the table is COMPLETION, and otherwise fails for an order in progress |
| `Orders.Order.UngroupOrderTable` | src/main/java/kitchenpos/application/TableGroupService.java:48-49 | the abstract ungrouping step: counted once per application; the order's table and status are unchanged |
| `MenuProducts.WithoutMenu` | src/main/java/kitchenpos/menu/domain/MenuProduct.java:48-50 | a menu product with unset `seq` that holds exactly the given product and quantity |
| `MenuProducts.MenuProduct.TotalPrice` | src/main/java/kitchenpos/menu/domain/MenuProduct.java:52-54 | zero for quantity zero; non-negative for a non-negative price; at least the price for a positive quantity |
| `MenuProducts.Total` | src/main/java/kitchenpos/menu/domain/Menu.java:79 | the sum of the lines' total prices: non-negative, and at least each line's total, when the prices are non-negative |
| `MenuProducts.TotalAppend` | src/main/java/kitchenpos/menu/domain/Menu.java:79-84 | the total of existing plus new lines is the existing total plus the new total |
| `MenuProducts.TotalGrowsWithAppend` | src/main/java/kitchenpos/menu/domain/Menu.java:79-84 | appending non-negatively priced lines never lowers the total |
| `Menus.ValidatedPrice` | src/main/java/kitchenpos/menu/domain/Menu.java:63-71 | a price is accepted iff it is present and not negative (zero is accepted) |
| `Menus.AddCheck` | src/main/java/kitchenpos/menu/domain/Menu.java:77-82 | the batch is accepted iff the price is at most the total of the collection after appending (a price equal to the total passes) |
| `Menus.LaterBatchesAccepted` | src/main/java/kitchenpos/menu/domain/Menu.java:77-85 | once the price fits under the stored total, every later batch of non-negatively priced products is accepted |
| `Menus.EmptyMenuSkipsSumCheck` | src/main/java/kitchenpos/menu/domain/Menu.java:73-75 | a corollary of `ValidatedPrice` and `Total([]) == 0`: a positive price passes price validation although it exceeds the (zero) total of no products; the creation path itself is `Menus.Menu.WithEmptyMenuProducts` |
| `Menus.Menu.Init` | src/main/java/kitchenpos/menu/domain/Menu.java:49-61 | field initialisation, reached only with a price that passed validation; the new menu's price is not negative |
| `Menus.Menu.New` | src/main/java/kitchenpos/menu/domain/Menu.java:49-61 | fails iff the price is null or negative; otherwise a fresh menu holding exactly the arguments |
| `Menus.Menu.WithEmptyMenuProducts` | src/main/java/kitchenpos/menu/domain/Menu.java:73-75 | validates only the price; the new menu has no id and an empty product collection |
| `Menus.Menu.AddMenuProducts` | src/main/java/kitchenpos/menu/domain/Menu.java:77-85 | refused iff price > stored total + new total, and then nothing is appended; on success the collection is old + new, price ≤ total afterwards, and id, name, price and group are unchanged; keeps the invariant that the price is not negative |
| `TableGroups.JoinGroup` | web-module/src/test/java/kitchenpos/table/domain/TableGroupTest.java:55-77 | a table outside any group that joins one keeps its id and guests, records the group and becomes occupied |
| `TableGroups.CheckTables` | web-module/src/test/java/kitchenpos/table/domain/TableGroupTest.java:36-52 | passes iff every candidate table is ungrouped and empty |
| `TableGroups.GroupingCheck` | web-module/src/test/java/kitchenpos/table/domain/TableGroupTest.java:28-52 | formation passes iff there are at least 2 tables, all ungrouped and empty; fewer than 2 fails |
| `TableGroups.TwoFreeTablesGroup` | web-module/src/test/java/kitchenpos/table/domain/TableGroupTest.java:19-26 | two empty, ungrouped tables can be grouped |
| `TableGroups.JoinedTablesAreHeld` | web-module/src/test/java/kitchenpos/table/domain/TableGroupTest.java:55-77 | after formation each member has the new group id and is occupied, and emptying it directly fails |
| `TableGroups.RegroupingFails` | web-module/src/test/java/kitchenpos/table/domain/TableGroupTest.java:36-43 | the members of a formed group cannot form another group (already grouped) |
| `TableGroups.TableGroup.AddOrderTables` | web-module/src/test/java/kitchenpos/table/domain/TableGroupTest.java:55-77 | all or nothing: the result is the formation check on the tables' old states; on success the tables are appended in order and each has joined the group; on failure nothing changes |
| `TableGroups.TableGroup.WithOrderTables` | web-module/src/test/java/kitchenpos/table/domain/TableGroupTest.java:15-53 | a fresh group holding exactly the given tables, which have joined it, or the formation failure with no table changed |
| `TableGroupServices.FoundIds` | src/main/java/kitchenpos/application/TableGroupService.java:36 | the lookup finds each requested, known id exactly once, and never more ids than requested |
| `TableGroupServices.AllFoundIff` | src/main/java/kitchenpos/application/TableGroupService.java:36-39 | the lookup finds as many tables as ids were requested iff no id repeats and every id is known |
| `TableGroupServices.TableGroupService.FindAllByIdIn` | src/main/java/kitchenpos/application/TableGroupService.java:36 | the stored tables under the found ids, in that order |
| `TableGroupServices.TableGroupService.FoundTablesDistinct` | src/main/java/kitchenpos/application/TableGroupService.java:36 | in a consistent store the lookup returns no table twice |
| `TableGroupServices.OrdersOfGroup` | src/main/java/kitchenpos/application/TableGroupService.java:48 | exactly the orders standing at a table of the group, without repeats |
| `TableGroupServices.TableGroupService.Create` | src/main/java/kitchenpos/application/TableGroupService.java:33-44 | fails with the count mismatch iff an id is unknown or repeated; otherwise the result is group formation over exactly the tables found, which on success have joined the new group; tables not requested are unchanged; the store stays consistent |
| `TableGroupServices.TableGroupService.Ungroup` | src/main/java/kitchenpos/application/TableGroupService.java:46-50 | every order of the group gets the ungrouping step exactly once and no other order gets it; the store stays consistent |

## Left out

- Persistence: `@Transactional`, repository `save` and `findAll`, and id generation.
  Ids are parameters. In particular the new group's id is passed to `Create`,
  `WithOrderTables` and the `TableGroup` constructor.
- The order returned by `findAllByIdIn` is the database's order. The model returns the
  found tables in request order, each once.
- The Java source of `TableGroup` and of its `OrderTables` collection is not available.
  The model reconstructs them (the class `TableGroups.TableGroup`) from
  `TableGroupTest.java`. The Dafny module `OrderTables` models the entity `OrderTable`,
  not that collection. Three details are assumptions:
  - the checks live in `addOrderTables`;
  - a table is checked for its group before its empty flag;
  - a joining table gets its group assigned before it is marked occupied.
- `TableGroups.TableGroup.AddOrderTables` requires the tables to be distinct objects.
  The store lookup satisfies this: `FoundTablesDistinct` proves it for a consistent store.
- `Orders.Order.UngroupOrderTable`: what `Order.ungroupOrderTable` does is not part of
  this model. The step is abstract: it only counts its applications. So `Ungroup` does
  not show any table losing its group. It also does not refuse a group whose orders
  are still in progress.
- The Java source of `OrderTableValidator` is not available. The model reduces it to
  the question "does an order at this table have status COOKING or MEAL?", put to a list
  of order rows (`OrderRow`). The rows are a snapshot of the stored `Order` entities
  (`Orders.Snapshot`), and `Orders.SnapshotInProgress` proves that the question about
  the snapshot has the same answer as the question about the orders themselves.
- The Java source of `Price`, `Quantity`, `Name`, `MenuProducts`, `MenuGroup` and `Product`
  is not available. The model reconstructs them from their use in `Menu.java` and
  `MenuProduct.java`: the datatypes `MenuGroup` and `Product`, and the module
  `MenuProducts` with `Total` for the collection's total price. Price arithmetic is
  exact integer arithmetic and quantities are natural numbers. Names are unvalidated
  strings.
- `MenuProducts.MenuProduct.TotalPrice`: a datatype member, so it cannot change the
  product or quantity. This read-only property holds by construction and is not stated
  separately.
- The legacy `Order`/`OrderTable` setter classes, the HTTP controller, the response
  DTOs, `ProductService` and `MenuGroupService` are not part of this model. Neither is
  the order-status transition rule. Order timestamps are left out too.
- An older test of the table service groups an occupied table without failure. The
  model follows `TableGroupTest.java` instead: an occupied table cannot be grouped.

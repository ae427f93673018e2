# MiniStore Manager store controller in Dafny

This project models the back end of a small store-management application: the
controller in `Backend/controllers/storeController.js`. Each of its request
handlers writes to, or reads from, four tables:

- `items`: id ↦ name, description, price, createdAt
- `inventory`: item id ↦ stock
- `purchases`: id ↦ customer name, total amount, purchase date
- `purchase_items`: a sequence of (purchase id, item id, quantity) rows

The store is an immutable record (`StoreState.State`) of three maps and a
sequence. Each handler is a pure function from a `State` to a `Step`, which
pairs the handler's reply with the state it leaves behind. The reply is one of
`Ok(value)`, `BadRequest`, `NotFound` or `Failed`.

Modules:

- `StoreState` (`store_state.dfy`): the rows, the state, replies, fault injection and JavaScript truthiness.
- `Catalog` (`catalog.dfy`): `addItem`, `addInventory`, `deleteItem`, `updateItem`.
- `Listing` (`listing.dfy`): `getAllItems`, `getItemsWithInventory`, `getAllPurchases`.
- `Purchases` (`purchases.dfy`): `addPurchase` and `deletePurchase`, with the guarded decrement and the stock restoration. It also holds a corrected purchase handler (see Findings).
- `PurchaseProofs`, `CatalogProofs`, `StoreInvariants`, `Scenarios`: lemmas relating the handlers to each other.

Some behaviour comes from outside the controller. Each of these is a parameter:

- **Database failures.** A handler takes a `Fault`. `Some(k)` means the k-th statement it sends to the database throws (counting from 0, with begin, commit and rollback included). `None` means no statement throws.
  - `addItem` and `deleteItem` run no transaction, so a failure between their two statements keeps the first statement's write.
  - `addPurchase` and `deletePurchase` roll back, so every failure leaves the state unchanged.
- **New ids.** The database's auto-increment ids are supplied by the caller. A `requires` clause says the id is positive and unused (`FreshItemId`, `FreshPurchaseId`).
- **Timestamps.** `createdAt` and `purchase_date` are supplied integers.

Choices made where the code is ambiguous:

- **Initial stock.** A new item gets an inventory row with stock 1 (`Catalog.InitialStock`). This follows the inserted value; the comment above that insert says 0.
- **Stock rows are keyed by item.** `inventory.item_id` is taken to be a key, so an INSERT of an item id that already has a stock row throws (`Backend/controllers/storeController.js:21-24`, `Backend/controllers/storeController.js:67-70`). `addItem` therefore fails after its first insert when a stock row already uses the new id.
- **Missing rows in `updateItem`.** It replies NotFound exactly when no item has the id. This assumes the MySQL driver reports matched rows as affected rows, which is the default of the Node drivers.
- **Truthiness.** JavaScript truthiness is modelled for optional strings (`undefined`, `null` and `""` are falsy) and optional numeric ids (`undefined` and `0` are falsy).

Behaviour worth knowing:

- **Stock check.** `addPurchase` does not check stock before it writes. It runs a guarded `UPDATE ... WHERE stock >= quantity` per line and records the line even when that update changes nothing.
- **Restocking.** `addInventory` adds to the existing stock; it does not set it. It also does not check that the item exists.
- **Example run.** `Scenarios.WidgetLifecycle` creates an item, restocks it by 5, buys 3 and deletes the purchase. The stock goes 1 → 6 → 3 → 6, because creation gives stock 1 and restocking adds.
- **Routing.** Only `addItem`, `getAllItems`, `addInventory` and `getItemsWithInventory` are routed (`Backend/routes/storeRoutes.js:15-18`). The purchase routes are commented out (lines 19-22). The purchase handlers are modelled as controller logic all the same.

## Model

| member | source | states |
|---|---|---|
| `Catalog.AddItem` | Backend/controllers/storeController.js:5-31 | A falsy name or a missing price gives BadRequest with the state unchanged. Otherwise the reply is Ok exactly when no statement fails and no stock row already uses the new id. Ok adds exactly one item, with the new id and the sent fields, plus a stock row of 1. A fault in the first insert changes nothing. A failure after the first insert leaves exactly the new item, with the sent fields, and no new stock row. Existing rows, purchases and lines never change. |
| `Catalog.AddInventory` | Backend/controllers/storeController.js:45-78 | A falsy item id or a missing stock gives BadRequest. Ok adds the amount to the row, counting a missing row as 0, so the row exists afterwards. No existence check is made on the item. Every other stock row, item, purchase and line is unchanged, and any non-Ok reply changes nothing. |
| `Catalog.DeleteItem` | Backend/controllers/storeController.js:103-119 | Once the first statement has run, the stock row for `id` is gone whatever the reply. The reply is NotFound exactly when no item had `id` and Ok exactly when one did (absent faults). Only the item `id` can leave `items`, and no other row changes. |
| `Catalog.UpdateItem` | Backend/controllers/storeController.js:121-147 | A missing or empty name or description, or a missing price, gives BadRequest. NotFound exactly when no item has `id`. Ok overwrites only that item's name, description and price; its createdAt, every other item and all stock stay as they were. A non-Ok reply changes nothing. |
| `Listing.Scan` | Backend/controllers/storeController.js:36-38 | A full-table read lists every row of the table once, with its contents and in no promised order. |
| `Listing.GetAllItems` | Backend/controllers/storeController.js:34-43 | Failed exactly when the query throws. Otherwise it lists every item once with its columns. |
| `Listing.GetItemsWithInventory` | Backend/controllers/storeController.js:80-101 | It lists exactly the items that have a stock row, each once and paired with that row's stock. Items without a row are excluded, as in an inner join. |
| `Listing.Latest` | Backend/controllers/storeController.js:183 | Returns a purchase whose date is at least every other date among those still to be listed. |
| `Listing.GetAllPurchases` | Backend/controllers/storeController.js:181-197 | Failed exactly when the query throws. Otherwise it returns a permutation of the purchases (each once, with its row), newest date first. |
| `Purchases.TakeAll` | Backend/controllers/storeController.js:161-170 | The guarded decrements never add or remove a stock row. A row they change never ends negative. Rows of items no line names keep their stock. |
| `Purchases.GiveAll` | Backend/controllers/storeController.js:220-225 | Restoring adds to every existing row exactly the total quantity the lines hold for its item. A missing row stays missing. |
| `Purchases.LinesOf` | Backend/controllers/storeController.js:214-217 | Selects exactly the lines that carry the purchase id. |
| `Purchases.Without` | Backend/controllers/storeController.js:228 | Keeps exactly the lines that do not carry the purchase id. |
| `Purchases.AddPurchase` | Backend/controllers/storeController.js:149-180 | Ok exactly when `items` is iterable and no statement throws; any other outcome is Failed, with the state unchanged. Ok adds one purchase row under the new id, with the sent customer and total, and appends one line per requested item, in order. Earlier lines and purchases, all items and the set of stock rows are unchanged. No stock row is driven below zero, and an item no requested line names keeps its stock. |
| `Purchases.DeletePurchase` | Backend/controllers/storeController.js:199-246 | NotFound exactly when no purchase has the id (absent faults), with the state unchanged. Ok replies with the line count. It removes that purchase and all of its lines, keeps every other purchase and line, and adds back to each stock row the quantity its lines recorded. A non-Ok reply changes nothing. |
| `Purchases.TakeChecked` | Backend/controllers/storeController.js:166-169 | Corrected decrements: Ok exactly when every line has a stock row and none is skipped for short stock. The result is then the as-written result, and each row loses exactly its demanded quantity. |
| `Purchases.AddPurchaseChecked` | Backend/controllers/storeController.js:161-176 | Corrected purchase: when accepted, it equals the as-written purchase and has no skipped decrement. When refused, the state is unchanged. |
| `PurchaseProofs.TakeAllAccounts` | Backend/controllers/storeController.js:161-170 | After the decrements, each item's stock is its old stock, less the quantity requested for it, plus the quantity whose decrement was skipped. |
| `PurchaseProofs.ShortfallNonNegative` | Backend/controllers/storeController.js:166-169 | With non-negative quantities the skipped quantity is never negative. |
| `PurchaseProofs.NoneMissedNoShortfall` | Backend/controllers/storeController.js:166-169 | When every guarded decrement fires, no item has a skipped quantity. |
| `PurchaseProofs.MissedShortfall` | Backend/controllers/storeController.js:166-169 | When a decrement with a positive quantity is skipped, some item has a positive skipped quantity. |
| `PurchaseProofs.ShortfallIffMissed` | Backend/controllers/storeController.js:166-169 | With positive quantities, every item's skipped quantity is zero if and only if no decrement was skipped. |
| `PurchaseProofs.LinesOfAppend` | Backend/controllers/storeController.js:214-217 | Selecting a purchase's lines distributes over concatenation of the line table. |
| `PurchaseProofs.WithoutAppend` | Backend/controllers/storeController.js:228 | Deleting a purchase's lines distributes over concatenation of the line table. |
| `PurchaseProofs.SelectNone` | Backend/controllers/storeController.js:214-228 | Lines of other purchases are neither selected nor deleted. |
| `PurchaseProofs.SelectAll` | Backend/controllers/storeController.js:214-228 | Lines all of one purchase are all selected and all deleted. |
| `PurchaseProofs.WithoutKeepsOthers` | Backend/controllers/storeController.js:228 | Deleting one purchase's lines leaves every other purchase's lines, in the same order. |
| `PurchaseProofs.SelectSplits` | Backend/controllers/storeController.js:214-228 | The selected lines and the lines left after deletion together form the line table, as a multiset. |
| `PurchaseProofs.AddPurchaseSelectsRecord` | Backend/controllers/storeController.js:154-170 | After an accepted purchase, the lines selected by its id are exactly the requested lines, in request order. |
| `PurchaseProofs.AddPurchaseKeepsEarlierLines` | Backend/controllers/storeController.js:154-170 | After an accepted purchase, deleting the lines with its id gives back the previous line table. |
| `PurchaseProofs.AddPurchaseStock` | Backend/controllers/storeController.js:161-169 | After an accepted purchase, each item's stock is its old stock less everything the lines ask for it, plus the quantity of the decrements skipped for short stock. |
| `PurchaseProofs.DeletePurchaseRemovesLines` | Backend/controllers/storeController.js:214-228 | An accepted delete leaves exactly the old line table less that purchase's lines, counted with multiplicity. |
| `PurchaseProofs.DeletePurchaseKeepsOthers` | Backend/controllers/storeController.js:228 | An accepted delete leaves every other purchase's lines, in the same order. |
| `PurchaseProofs.PurchaseThenDeleteRows` | Backend/controllers/storeController.js:154-238 | When no statement fails, a purchase is accepted, and deleting it afterwards gives back the items and purchases there were before. |
| `PurchaseProofs.PurchaseThenDeleteLines` | Backend/controllers/storeController.js:154-238 | The deletion of a just-made purchase replies with the number of requested lines and gives back the previous line table. |
| `PurchaseProofs.PurchaseThenDeleteStock` | Backend/controllers/storeController.js:154-238 | A purchase followed by its deletion keeps the same stock rows. Each stock ends at its old value plus that item's skipped quantity. |
| `PurchaseProofs.TakeThenGive` | Backend/controllers/storeController.js:166-169 | With positive quantities, the guarded decrements followed by the restoring increments give back the stock if and only if no decrement was skipped. |
| `PurchaseProofs.PurchaseThenDeleteRestores` | Backend/controllers/storeController.js:166-225 | With positive quantities, a purchase followed by its deletion gives back the exact initial state if and only if no guarded decrement was skipped for short stock. |
| `PurchaseProofs.PurchaseThenDeleteNeverLower` | Backend/controllers/storeController.js:166-225 | With non-negative quantities, no stock ends lower after a purchase and its deletion than it started. |
| `PurchaseProofs.CheckedPurchaseThenDelete` | Backend/controllers/storeController.js:166-225 | With the corrected purchase, an accepted purchase followed by its deletion gives back the exact initial state. |
| `PurchaseProofs.RecordedItems` | Backend/controllers/storeController.js:161-165 | Every inserted line names an item with a stock row if and only if every requested line does. |
| `PurchaseProofs.CheckedPurchaseAccepts` | Backend/controllers/storeController.js:166-169 | The corrected purchase accepts if and only if every line has a stock row and no decrement is skipped. |
| `PurchaseProofs.CheckedPurchaseRefusesShortStock` | Backend/controllers/storeController.js:166-176 | When some decrement would be skipped, the corrected purchase refuses and writes nothing. |
| `CatalogProofs.AddInventoryTwice` | Backend/controllers/storeController.js:59-70 | Two restocks of a then b leave the item with a+b more than before (0 if it had no row). All other rows are unchanged. |
| `CatalogProofs.AddInventoryListed` | Backend/controllers/storeController.js:59-91 | Restocking an existing item shows its increased stock in the joined listing. |
| `CatalogProofs.AddInventoryWithoutItem` | Backend/controllers/storeController.js:53-71 | Restocking an id that names no item succeeds and creates a stock row that the joined listing never shows. |
| `CatalogProofs.AddItemListed` | Backend/controllers/storeController.js:13-24 | After a successful create, the joined listing gains exactly the new item, with stock 1. All other listed rows are unchanged. |
| `CatalogProofs.AddItemHalfDone` | Backend/controllers/storeController.js:13-24 | If the stock insert fails, the item still exists. It is listed with stock only if a row with its id was already there. |
| `CatalogProofs.AddItemThenDelete` | Backend/controllers/storeController.js:5-119 | Deleting a just-created item succeeds and gives back the state from before the create. |
| `CatalogProofs.DeleteItemTwice` | Backend/controllers/storeController.js:107-112 | A second delete of the same id replies NotFound and changes nothing. |
| `CatalogProofs.DeleteItemUnlisted` | Backend/controllers/storeController.js:107-112 | Whatever a delete replies, the item leaves the joined listing once its first statement has run. All other listed rows stay. |
| `CatalogProofs.UpdateItemIdempotent` | Backend/controllers/storeController.js:126-140 | Repeating an accepted update succeeds again and changes nothing further. |
| `CatalogProofs.UpdateItemKeepsStock` | Backend/controllers/storeController.js:130-136 | An update leaves the joined listing's ids and stocks unchanged. Only the updated item's row can differ. |
| `StoreInvariants.DemandNonNegative` | Backend/controllers/storeController.js:220-225 | With non-negative line quantities, restoring never lowers stock. |
| `StoreInvariants.AddItemKeeps` | Backend/controllers/storeController.js:5-31 | Creating an item keeps the store consistent. Consistent means: every line has its purchase, no stock is negative, and no quantity is negative. |
| `StoreInvariants.AddInventoryKeeps` | Backend/controllers/storeController.js:45-78 | Restocking with a non-negative amount keeps the store consistent. |
| `StoreInvariants.AddInventoryNegative` | Backend/controllers/storeController.js:49-64 | A negative restock amount is accepted and can leave negative stock. |
| `StoreInvariants.DeleteItemKeeps` | Backend/controllers/storeController.js:103-119 | Deleting an item keeps the store consistent. |
| `StoreInvariants.UpdateItemKeeps` | Backend/controllers/storeController.js:121-147 | Updating an item keeps the store consistent. |
| `StoreInvariants.AddPurchaseKeeps` | Backend/controllers/storeController.js:149-180 | A purchase with non-negative quantities keeps the store consistent. |
| `StoreInvariants.DeletePurchaseKeeps` | Backend/controllers/storeController.js:199-246 | Deleting a purchase keeps the store consistent. |
| `Scenarios.WidgetLifecycle` | Backend/controllers/storeController.js:5-246 | Create, restock 5, buy 3, delete the purchase: the stock goes 1, 6, 3, 6, and the final state equals the state after restocking. |
| `Scenarios.StockInflation` | Backend/controllers/storeController.js:161-225 | Buying 10 against a stock of 3 is accepted and recorded with the stock still 3. Deleting that purchase raises the stock to 13. |
| `Scenarios.CheckedRefusesOverdraw` | Backend/controllers/storeController.js:166-169 | The corrected purchase refuses the same request with BadRequest and writes nothing. |

## Left out

- HTTP: Express request and response objects, status codes and JSON bodies are reduced to the `Reply` datatype. `console.error` logging is dropped.
- SQL text and the database driver: each statement is modelled by its effect on the tables. `insertId` is replaced by a supplied id that must be unused.
- Database errors such as foreign-key violations and lost connections: they are only the injected `Fault`. Apart from the key on `inventory.item_id`, the model does not know which schema constraints exist. For example, an item delete that a foreign key from `purchase_items` would reject is a fault at the second statement: the stock row is already gone and the item stays.
- Concurrency: each handler is atomic. Two check-then-write races of the controller are not modelled. One is `addInventory`, which reads the stock row and then updates or inserts it (`Backend/controllers/storeController.js:54-70`), so two concurrent first restocks can both see no row, and the second INSERT then fails on the key. The other is `deletePurchase`, which reads the purchase's lines with a plain SELECT and then increments stock (`Backend/controllers/storeController.js:207-225`), so two concurrent deletes of one purchase can both restore the stock.
- Floating point: prices and totals are carried as opaque `real` values. The controller does no arithmetic on them.
- Clocks: `createdAt` and `purchase_date` are supplied integers.
- JavaScript's loose typing: ids and amounts are integers. Strings, `NaN` or fractional quantities that the driver would coerce are not modelled.
- `handleGetAllPurchases` and `getAllPurchases` are modelled as one method. Its only difference is turning a thrown error into a 500 reply.
- A `rollback` that itself throws inside a `catch` block: it would escape the handler. The model treats every fault as handled.
- Listing.GetAllItems: promises no row order, because the query has no `ORDER BY`. Within one date, `Listing.GetAllPurchases` promises no order either.
- Purchases.AddPurchaseChecked: its fault handling is simplified. Any fault within the statement count of the full purchase fails it, whichever line would have been refused first.
- `Backend/server.js` and `Backend/routes/storeRoutes.js` are wiring only. The routes file's commented imports name `makePurchase` and `updatePurchase`, which the controller does not export.
- Shipping: the user interface has a Shipping page (`Frontend/src/App.js:8`, `Frontend/src/components/Sidebar.js:23-24`), but the controller exports no shipping handler, so there is nothing to model.
- All `Frontend/` files: static pages with hard-coded sample data.

## Findings

| source | as written | input that shows it | evidently intended | confidence | as-written member | corrected member |
|---|---|---|---|---|---|---|
| Backend/controllers/storeController.js:166-169 | The guarded decrement changes nothing when stock is short, yet the purchase line is still recorded and the purchase commits. Deleting the purchase later adds back a quantity that was never taken. | One item with stock 3; purchase 10 of it, then delete that purchase. The purchase succeeds with stock still 3, and the delete leaves stock 13. | Check the decrement's affected-row count and roll back the purchase when a line cannot be taken. Then a purchase followed by its deletion restores stock exactly. | medium; not executed | `Scenarios.StockInflation` | `Purchases.AddPurchaseChecked` |

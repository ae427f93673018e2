/**
 The item and inventory handlers of the store controller: creating, updating
 and deleting items, and restocking. None of them opens a transaction, so a
 fault between two statements leaves the first statement's write in place.
 */
module Catalog {
  import opened StoreState

  /** The JSON body of an item create or update request. */
  datatype ItemBody = ItemBody(name: Option<string>, description: Option<string>, price: Option<Price>)

  /** Stock given to the inventory row created with a new item. The code
      inserts 1 although the comment above the insert speaks of 0 stock. */
  const InitialStock: int := 1

  /** The item row an accepted create request stores. */
  function NewItem(body: ItemBody, now: int): Item
    requires body.name.Some? && body.price.Some?
  {
    Item(body.name.value, body.description, body.price.value, now)
  }

  /** `addItem`: insert the item, then an inventory row for it. Rejects a
      falsy name or a missing price before touching the database. */
  function AddItem(s: State, body: ItemBody, newId: ItemId, now: int, fault: Fault): (r: Step<()>)
    requires FreshItemId(s, newId)
    ensures r.reply.BadRequest? <==> !Truthy(body.name) || body.price.None?
    ensures r.reply.BadRequest? ==> r.state == s
    ensures r.reply.Ok? <==> !r.reply.BadRequest? && !ThrowsBefore(fault, 2) && newId !in s.inventory
    ensures !r.reply.NotFound?
    ensures r.reply.Ok? ==>
      && r.state.items.Keys == s.items.Keys + {newId}
      && r.state.items[newId] == Item(body.name.value, body.description, body.price.value, now)
      && r.state.inventory.Keys == s.inventory.Keys + {newId}
      && r.state.inventory[newId] == InitialStock
    // the write is additive: every row that existed before is kept as it was
    ensures forall id :: id in s.items ==> id in r.state.items && r.state.items[id] == s.items[id]
    ensures forall id :: id in s.inventory ==> id in r.state.inventory && r.state.inventory[id] == s.inventory[id]
    ensures r.state.purchases == s.purchases && r.state.lines == s.lines
    // without a transaction, a failure after the first insert leaves an item with no inventory row
    ensures Throws(fault, 0) ==> r.state == s
    ensures r.reply.Failed? && !Throws(fault, 0) ==>
      && r.state.items.Keys == s.items.Keys + {newId}
      && r.state.items[newId] == Item(body.name.value, body.description, body.price.value, now)
      && r.state.inventory == s.inventory
  {
    if !Truthy(body.name) || body.price.None? then Step(BadRequest, s)
    else if Throws(fault, 0) then Step(Failed, s)
    else
      var withItem := s.(items := s.items[newId := NewItem(body, now)]);
      // the second insert also fails when an inventory row already uses the new id
      if Throws(fault, 1) || newId in s.inventory then Step(Failed, withItem)
      else Step(Ok(()), withItem.(inventory := s.inventory[newId := InitialStock]))
  }

  /** Stock of `id` as a counter that reads 0 when the item has no inventory row. */
  function StockOf(inv: map<ItemId, int>, id: ItemId): int {
    if id in inv then inv[id] else 0
  }

  /** `addInventory`: add `stock` to the item's row, or insert a row holding
      `stock` when there is none. The item itself is not looked up. */
  function AddInventory(s: State, itemId: Option<ItemId>, stock: Option<int>, fault: Fault): (r: Step<()>)
    ensures r.reply.BadRequest? <==> !TruthyId(itemId) || stock.None?
    ensures r.reply.Ok? <==> !r.reply.BadRequest? && !ThrowsBefore(fault, 2)
    ensures !r.reply.NotFound?
    ensures !r.reply.Ok? ==> r.state == s
    ensures r.reply.Ok? ==>
      && r.state.inventory.Keys == s.inventory.Keys + {itemId.value}
      && StockOf(r.state.inventory, itemId.value) == StockOf(s.inventory, itemId.value) + stock.value
    ensures forall id :: id in s.inventory && (itemId.None? || id != itemId.value) ==>
      id in r.state.inventory && r.state.inventory[id] == s.inventory[id]
    ensures r.state.items == s.items && r.state.purchases == s.purchases && r.state.lines == s.lines
  {
    if !TruthyId(itemId) || stock.None? then Step(BadRequest, s)
    // statement 0 looks the row up, statement 1 updates or inserts it
    else if ThrowsBefore(fault, 2) then Step(Failed, s)
    else
      var id := itemId.value;
      var row := if id in s.inventory then s.inventory[id] + stock.value else stock.value;
      Step(Ok(()), s.(inventory := s.inventory[id := row]))
  }

  /** `deleteItem`: delete the inventory row, then the item row; the item
      delete's affected-row count decides between success and not found. */
  function DeleteItem(s: State, id: ItemId, fault: Fault): (r: Step<()>)
    ensures !Throws(fault, 0) ==> id !in r.state.inventory
    ensures Throws(fault, 0) ==> r.state == s
    ensures r.reply.NotFound? <==> id !in s.items && !ThrowsBefore(fault, 2)
    ensures r.reply.Ok? <==> id in s.items && !ThrowsBefore(fault, 2)
    ensures !r.reply.BadRequest?
    ensures r.reply.Ok? ==> r.state.items.Keys == s.items.Keys - {id}
    ensures !r.reply.Ok? ==> r.state.items == s.items
    ensures forall k :: k in s.items && k != id ==> k in r.state.items && r.state.items[k] == s.items[k]
    ensures forall k :: k in s.inventory && k != id ==> k in r.state.inventory && r.state.inventory[k] == s.inventory[k]
    ensures r.state.inventory.Keys <= s.inventory.Keys
    ensures r.state.purchases == s.purchases && r.state.lines == s.lines
  {
    if Throws(fault, 0) then Step(Failed, s)
    else
      var noStock := s.(inventory := s.inventory - {id});
      if Throws(fault, 1) then Step(Failed, noStock)
      else if id !in s.items then Step(NotFound, noStock)
      else Step(Ok(()), noStock.(items := s.items - {id}))
  }

  /** `updateItem`: overwrite name, description and price of one item. All
      three must be present (name and description non-empty). */
  function UpdateItem(s: State, id: ItemId, body: ItemBody, fault: Fault): (r: Step<()>)
    ensures r.reply.BadRequest? <==> !Truthy(body.name) || !Truthy(body.description) || body.price.None?
    ensures r.reply.NotFound? <==> !r.reply.BadRequest? && !Throws(fault, 0) && id !in s.items
    ensures r.reply.Ok? <==> !r.reply.BadRequest? && !Throws(fault, 0) && id in s.items
    ensures !r.reply.Ok? ==> r.state == s
    ensures r.reply.Ok? ==>
      && r.state.items.Keys == s.items.Keys
      && r.state.items[id].name == body.name.value
      && r.state.items[id].description == body.description
      && r.state.items[id].price == body.price.value
      && r.state.items[id].createdAt == s.items[id].createdAt
    ensures forall k :: k in s.items && k != id ==> k in r.state.items && r.state.items[k] == s.items[k]
    ensures r.state.inventory == s.inventory && r.state.purchases == s.purchases && r.state.lines == s.lines
  {
    if !Truthy(body.name) || !Truthy(body.description) || body.price.None? then Step(BadRequest, s)
    else if Throws(fault, 0) then Step(Failed, s)
    // the driver reports matched rows, so zero affected rows means no such id
    else if id !in s.items then Step(NotFound, s)
    else
      var prior := s.items[id];
      var updated := prior.(name := body.name.value, description := body.description, price := body.price.value);
      Step(Ok(()), s.(items := s.items[id := updated]))
  }
}

/**
 Properties that relate the item and inventory handlers to each other and to
 the joined listing of items with their stock.
 */
module CatalogProofs {
  import opened StoreState
  import opened Catalog
  import opened Listing

  /** Restocking is additive: two accepted calls for the same item leave it
      with both amounts added to what it had (0 when it had no row). */
  lemma AddInventoryTwice(s: State, id: ItemId, a: int, b: int)
    requires id != 0
    ensures var first := AddInventory(s, Some(id), Some(a), None);
            var second := AddInventory(first.state, Some(id), Some(b), None);
            && first.reply.Ok? && second.reply.Ok?
            && second.state.inventory.Keys == s.inventory.Keys + {id}
            && second.state.inventory[id] == StockOf(s.inventory, id) + a + b
            && (forall k :: k in s.inventory && k != id ==> second.state.inventory[k] == s.inventory[k])
  {
  }

  /** Restocking an item that exists shows its new stock in the joined listing. */
  lemma AddInventoryListed(s: State, id: ItemId, n: int)
    requires id != 0 && id in s.items
    ensures var r := AddInventory(s, Some(id), Some(n), None);
            && id in Joined(r.state)
            && Joined(r.state)[id] == Stocked(s.items[id], StockOf(s.inventory, id) + n)
  {
  }

  /** Restocking does not check that the item exists: it can create a stock
      row for an id that names no item, which the joined listing never shows. */
  lemma AddInventoryWithoutItem(s: State, id: ItemId, n: int)
    requires id != 0 && id !in s.items
    ensures var r := AddInventory(s, Some(id), Some(n), None);
            && r.reply.Ok? && id in r.state.inventory && id !in r.state.items
            && Joined(r.state) == Joined(s)
  {
    var r := AddInventory(s, Some(id), Some(n), None);
    assert Joined(r.state) == Joined(s);
  }

  /** A created item is listed with the initial stock, and the rest of the
      listing is unchanged. */
  lemma AddItemListed(s: State, body: ItemBody, newId: ItemId, now: int)
    requires FreshItemId(s, newId)
    requires AddItem(s, body, newId, now, None).reply.Ok?
    ensures var t := AddItem(s, body, newId, now, None).state;
            && Joined(t).Keys == Joined(s).Keys + {newId}
            && Joined(t)[newId] == Stocked(t.items[newId], InitialStock)
            && (forall k :: k in Joined(s) ==> Joined(t)[k] == Joined(s)[k])
  {
    var t := AddItem(s, body, newId, now, None).state;
    assert Joined(t).Keys == Joined(s).Keys + {newId};
  }

  /** A create that fails after its first insert leaves an item that the
      joined listing does not show, unless a stock row with the new id was
      already there, which the item then inherits. */
  lemma AddItemHalfDone(s: State, body: ItemBody, newId: ItemId, now: int)
    requires FreshItemId(s, newId)
    requires Truthy(body.name) && body.price.Some?
    ensures var r := AddItem(s, body, newId, now, Some(1));
            && r.reply.Failed?
            && newId in r.state.items
            && (newId in Joined(r.state) <==> newId in s.inventory)
  {
  }

  /** Deleting a just-created item gives back the state from before it was created. */
  lemma AddItemThenDelete(s: State, body: ItemBody, newId: ItemId, now: int)
    requires FreshItemId(s, newId)
    requires AddItem(s, body, newId, now, None).reply.Ok?
    ensures var d := DeleteItem(AddItem(s, body, newId, now, None).state, newId, None);
            d.reply.Ok? && d.state == s
  {
    var a := AddItem(s, body, newId, now, None);
    var d := DeleteItem(a.state, newId, None);
    assert d.state.items == s.items;
    assert d.state.inventory == s.inventory;
  }

  /** Deleting twice: the second call finds nothing and changes nothing. */
  lemma DeleteItemTwice(s: State, id: ItemId)
    ensures var first := DeleteItem(s, id, None);
            var second := DeleteItem(first.state, id, None);
            && second.reply.NotFound?
            && second.state == first.state
  {
    var first := DeleteItem(s, id, None);
    var second := DeleteItem(first.state, id, None);
    assert second.state.inventory == first.state.inventory;
  }

  /** Once its first statement has run, a delete hides the item from the
      joined listing, whatever the outcome, and leaves the other rows listed. */
  lemma DeleteItemUnlisted(s: State, id: ItemId, fault: Fault)
    requires !Throws(fault, 0)
    ensures var t := DeleteItem(s, id, fault).state;
            && id !in Joined(t)
            && Joined(t) == (map k | k in Joined(s) && k != id :: Joined(s)[k])
  {
    var t := DeleteItem(s, id, fault).state;
    assert Joined(t) == (map k | k in Joined(s) && k != id :: Joined(s)[k]);
  }

  /** Repeating an accepted update changes nothing further. */
  lemma UpdateItemIdempotent(s: State, id: ItemId, body: ItemBody)
    requires UpdateItem(s, id, body, None).reply.Ok?
    ensures var first := UpdateItem(s, id, body, None);
            var second := UpdateItem(first.state, id, body, None);
            second.reply.Ok? && second.state == first.state
  {
    var first := UpdateItem(s, id, body, None);
    var second := UpdateItem(first.state, id, body, None);
    assert second.state.items == first.state.items;
  }

  /** An update keeps every item listed with the same stock; only the updated
      item's name, description and price change. */
  lemma UpdateItemKeepsStock(s: State, id: ItemId, body: ItemBody, fault: Fault)
    ensures var t := UpdateItem(s, id, body, fault).state;
            && Joined(t).Keys == Joined(s).Keys
            && (forall k :: k in Joined(s) ==> Joined(t)[k].stock == Joined(s)[k].stock)
            && (forall k :: k in Joined(s) && k != id ==> Joined(t)[k] == Joined(s)[k])
  {
  }
}

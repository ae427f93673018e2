/**
 A consistency condition on the whole store and which handlers keep it.
 Every purchase line belongs to a recorded purchase, no stock figure is
 negative, and no recorded line has a negative quantity. The handlers never
 check the sign of the amounts they are sent, so the two handlers that take
 amounts keep the condition only for non-negative amounts.
 */
module StoreInvariants {
  import opened StoreState
  import opened Catalog
  import opened Purchases

  ghost predicate Consistent(s: State) {
    && (forall l :: l in s.lines ==> l.purchaseId in s.purchases)
    && (forall x :: x in s.inventory ==> s.inventory[x] >= 0)
    && (forall l :: l in s.lines ==> l.quantity >= 0)
  }

  lemma {:induction false} DemandNonNegative(lines: seq<Line>, x: ItemId)
    requires forall l :: l in lines ==> l.quantity >= 0
    ensures Demand(lines, x) >= 0
    decreases |lines|
  {
    if lines != [] {
      assert lines[0] in lines;
      assert forall l :: l in lines[1..] ==> l in lines;
      DemandNonNegative(lines[1..], x);
    }
  }

  lemma AddItemKeeps(s: State, body: ItemBody, newId: ItemId, now: int, fault: Fault)
    requires FreshItemId(s, newId) && Consistent(s)
    ensures Consistent(AddItem(s, body, newId, now, fault).state)
  {
  }

  lemma AddInventoryKeeps(s: State, itemId: Option<ItemId>, stock: Option<int>, fault: Fault)
    requires Consistent(s)
    requires stock.Some? ==> stock.value >= 0
    ensures Consistent(AddInventory(s, itemId, stock, fault).state)
  {
  }

  /** A negative restock amount is accepted and can leave a negative stock. */
  lemma AddInventoryNegative(s: State, id: ItemId, n: int)
    requires Consistent(s) && id != 0 && n < -StockOf(s.inventory, id)
    ensures var r := AddInventory(s, Some(id), Some(n), None);
            r.reply.Ok? && !Consistent(r.state)
  {
    var r := AddInventory(s, Some(id), Some(n), None);
    assert r.state.inventory[id] < 0;
  }

  lemma DeleteItemKeeps(s: State, id: ItemId, fault: Fault)
    requires Consistent(s)
    ensures Consistent(DeleteItem(s, id, fault).state)
  {
  }

  lemma UpdateItemKeeps(s: State, id: ItemId, body: ItemBody, fault: Fault)
    requires Consistent(s)
    ensures Consistent(UpdateItem(s, id, body, fault).state)
  {
  }

  lemma AddPurchaseKeeps(s: State, customer: Option<string>, items: Option<seq<LineRequest>>,
                         total: Option<Price>, newId: PurchaseId, now: int, fault: Fault)
    requires FreshPurchaseId(s, newId) && Consistent(s)
    requires items.Some? ==> forall i :: 0 <= i < |items.value| ==> items.value[i].quantity >= 0
    ensures Consistent(AddPurchase(s, customer, items, total, newId, now, fault).state)
  {
    var r := AddPurchase(s, customer, items, total, newId, now, fault);
    if r.reply.Ok? {
      forall l | l in r.state.lines ensures l.purchaseId in r.state.purchases && l.quantity >= 0 {
        var i :| 0 <= i < |r.state.lines| && r.state.lines[i] == l;
        if i < |s.lines| {
          assert r.state.lines[..|s.lines|][i] == l;
        }
      }
    }
  }

  lemma DeletePurchaseKeeps(s: State, id: PurchaseId, fault: Fault)
    requires Consistent(s)
    ensures Consistent(DeletePurchase(s, id, fault).state)
  {
    var r := DeletePurchase(s, id, fault);
    if r.reply.Ok? {
      forall x | x in s.inventory ensures r.state.inventory[x] >= 0 {
        DemandNonNegative(LinesOf(s.lines, id), x);
      }
    }
  }
}

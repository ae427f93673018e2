/**
 The purchase handlers of the store controller. Both run inside one database
 transaction: any statement that throws sends the handler to its rollback, so
 a failed call leaves the state exactly as it found it.

 Stock moves through two single-row updates:
 - a guarded decrement, `stock = stock - q WHERE item_id = ? AND stock >= q`,
   which silently changes nothing when the row is missing or short;
 - an unguarded increment, `stock = stock + q WHERE item_id = ?`, which
   changes nothing only when the row is missing.
 */
module Purchases {
  import opened StoreState

  /** One element of the `items` array of a purchase request. */
  datatype LineRequest = LineRequest(itemId: ItemId, quantity: int)

  /** The `purchase_items` rows a request records under purchase `pid`, one per
      requested line and in request order. */
  function Record(pid: PurchaseId, reqs: seq<LineRequest>): seq<Line> {
    seq(|reqs|, i requires 0 <= i < |reqs| => Line(pid, reqs[i].itemId, reqs[i].quantity))
  }

  // ---------------------------------------------------------------------
  // Stock movements
  // ---------------------------------------------------------------------

  /** The guarded decrement for `l` changes a row. */
  predicate Fires(inv: map<ItemId, int>, l: Line) {
    l.itemId in inv && inv[l.itemId] >= l.quantity
  }

  /** The guarded decrement for `l` finds the row but not enough stock, so it
      is skipped although the line is recorded. */
  predicate Missed(inv: map<ItemId, int>, l: Line) {
    l.itemId in inv && inv[l.itemId] < l.quantity
  }

  /** One guarded decrement. */
  function Take(inv: map<ItemId, int>, l: Line): map<ItemId, int> {
    if Fires(inv, l) then inv[l.itemId := inv[l.itemId] - l.quantity] else inv
  }

  /** No line of `lines` names item `x`. */
  predicate Untouched(lines: seq<Line>, x: ItemId) {
    forall l :: l in lines ==> l.itemId != x
  }

  /** The guarded decrements of `lines`, one after another, each seeing the
      stock the previous ones left. No row appears or disappears, a row that
      changes never ends negative, and items no line names keep their stock. */
  function TakeAll(inv: map<ItemId, int>, lines: seq<Line>): (r: map<ItemId, int>)
    ensures r.Keys == inv.Keys
    ensures forall x :: x in inv ==> r[x] == inv[x] || r[x] >= 0
    ensures forall x :: x in inv && Untouched(lines, x) ==> r[x] == inv[x]
    decreases |lines|
  {
    if lines == [] then inv
    else
      assert forall x :: Untouched(lines, x) ==> Untouched(lines[1..], x) by {
        forall x | Untouched(lines, x) ensures Untouched(lines[1..], x) {
          assert forall l :: l in lines[1..] ==> l in lines;
        }
      }
      TakeAll(Take(inv, lines[0]), lines[1..])
  }

  /** Total quantity that `lines` ask for item `x`. */
  function Demand(lines: seq<Line>, x: ItemId): int {
    if lines == [] then 0
    else (if lines[0].itemId == x then lines[0].quantity else 0) + Demand(lines[1..], x)
  }

  /** Quantity of item `x` that the decrements of `lines` skipped although the
      item had an inventory row. */
  function Shortfall(inv: map<ItemId, int>, lines: seq<Line>, x: ItemId): int
    decreases |lines|
  {
    if lines == [] then 0
    else
      (if lines[0].itemId == x && Missed(inv, lines[0]) then lines[0].quantity else 0)
      + Shortfall(Take(inv, lines[0]), lines[1..], x)
  }

  /** Every decrement of `lines` whose item has an inventory row fires. */
  predicate NoneMissed(inv: map<ItemId, int>, lines: seq<Line>)
    decreases |lines|
  {
    lines == [] || (!Missed(inv, lines[0]) && NoneMissed(Take(inv, lines[0]), lines[1..]))
  }

  /** One stock restoration. */
  function Give(inv: map<ItemId, int>, l: Line): map<ItemId, int> {
    if l.itemId in inv then inv[l.itemId := inv[l.itemId] + l.quantity] else inv
  }

  /** The increments of `lines`, one after another: every existing row gains
      exactly what the lines ask for its item; missing rows stay missing. */
  function GiveAll(inv: map<ItemId, int>, lines: seq<Line>): (r: map<ItemId, int>)
    ensures r.Keys == inv.Keys
    ensures forall x :: x in inv ==> r[x] == inv[x] + Demand(lines, x)
    decreases |lines|
  {
    if lines == [] then inv else GiveAll(Give(inv, lines[0]), lines[1..])
  }

  // ---------------------------------------------------------------------
  // Selecting the lines of one purchase
  // ---------------------------------------------------------------------

  /** `SELECT ... FROM purchase_items WHERE purchase_id = pid`, in row order. */
  function LinesOf(lines: seq<Line>, pid: PurchaseId): (r: seq<Line>)
    ensures forall l :: l in r ==> l in lines && l.purchaseId == pid
    ensures forall l :: l in lines && l.purchaseId == pid ==> l in r
    decreases |lines|
  {
    if lines == [] then []
    else (if lines[0].purchaseId == pid then [lines[0]] else []) + LinesOf(lines[1..], pid)
  }

  /** What `DELETE FROM purchase_items WHERE purchase_id = pid` leaves. */
  function Without(lines: seq<Line>, pid: PurchaseId): (r: seq<Line>)
    ensures forall l :: l in r ==> l in lines && l.purchaseId != pid
    ensures forall l :: l in lines && l.purchaseId != pid ==> l in r
    decreases |lines|
  {
    if lines == [] then []
    else (if lines[0].purchaseId == pid then [] else [lines[0]]) + Without(lines[1..], pid)
  }

  // ---------------------------------------------------------------------
  // Handlers
  // ---------------------------------------------------------------------

  /** Statements `addPurchase` issues for `n` lines: begin, the purchase
      insert, a line insert and a guarded decrement per line, commit. */
  function PurchaseStatements(n: nat): nat {
    3 + 2 * n
  }

  /** `addPurchase`: record the purchase and one line per requested item,
      running the guarded decrement for each. `items` is `None` when the body
      holds no iterable `items` array, which throws inside the transaction. */
  function AddPurchase(s: State, customer: Option<string>, items: Option<seq<LineRequest>>,
                       total: Option<Price>, newId: PurchaseId, now: int, fault: Fault): (r: Step<PurchaseId>)
    requires FreshPurchaseId(s, newId)
    ensures r.reply.Ok? <==> items.Some? && !ThrowsBefore(fault, PurchaseStatements(|items.value|))
    ensures !r.reply.Ok? ==> r.reply.Failed? && r.state == s
    ensures r.reply.Ok? ==>
      && r.reply.value == newId
      && r.state.purchases.Keys == s.purchases.Keys + {newId}
      && r.state.purchases[newId] == Purchase(customer, total, now)
      && |r.state.lines| == |s.lines| + |items.value|
      && r.state.lines[..|s.lines|] == s.lines
      && (forall i :: 0 <= i < |items.value| ==>
            r.state.lines[|s.lines| + i] == Line(newId, items.value[i].itemId, items.value[i].quantity))
    ensures forall p :: p in s.purchases ==> p in r.state.purchases && r.state.purchases[p] == s.purchases[p]
    ensures r.state.items == s.items
    // stock: no row appears or disappears, and none is driven below zero
    ensures r.state.inventory.Keys == s.inventory.Keys
    ensures forall x :: x in s.inventory ==>
      r.state.inventory[x] == s.inventory[x] || r.state.inventory[x] >= 0
    // an item that no requested line names keeps its stock
    ensures forall x :: x in s.inventory && items.Some? && (forall i :: 0 <= i < |items.value| ==> items.value[i].itemId != x) ==>
      r.state.inventory[x] == s.inventory[x]
  {
    if items.None? || ThrowsBefore(fault, PurchaseStatements(|items.value|)) then Step(Failed, s)
    else
      var recorded := Record(newId, items.value);
      assert (s.lines + recorded)[..|s.lines|] == s.lines;
      assert forall x :: (forall i :: 0 <= i < |items.value| ==> items.value[i].itemId != x) ==> Untouched(recorded, x);
      Step(Ok(newId), State(
        s.items,
        TakeAll(s.inventory, recorded),
        s.purchases[newId := Purchase(customer, total, now)],
        s.lines + recorded))
  }

  /** Statements `deletePurchase` issues for a purchase with `m` lines: begin,
      the existence check, the line select, one increment per line, the two
      deletes and commit. */
  function DeleteStatements(m: nat): nat {
    6 + m
  }

  /** `deletePurchase`: give back each recorded line's quantity, then delete
      the purchase's lines and the purchase. Replies with the number of lines. */
  function DeletePurchase(s: State, id: PurchaseId, fault: Fault): (r: Step<nat>)
    ensures r.reply.NotFound? <==> id !in s.purchases && !ThrowsBefore(fault, 3)
    ensures r.reply.Ok? <==> id in s.purchases && !ThrowsBefore(fault, DeleteStatements(|LinesOf(s.lines, id)|))
    ensures !r.reply.Ok? ==> r.state == s
    ensures !r.reply.BadRequest?
    ensures r.reply.Ok? ==>
      && r.reply.value == |LinesOf(s.lines, id)|
      && r.state.purchases.Keys == s.purchases.Keys - {id}
      && (forall l :: l in r.state.lines ==> l.purchaseId != id)
      && r.state.inventory.Keys == s.inventory.Keys
      && (forall x :: x in s.inventory ==>
            r.state.inventory[x] == s.inventory[x] + Demand(LinesOf(s.lines, id), x))
    ensures forall p :: p in s.purchases && p != id ==> p in r.state.purchases && r.state.purchases[p] == s.purchases[p]
    ensures forall l :: l in s.lines && l.purchaseId != id ==> l in r.state.lines
    ensures r.state.items == s.items
  {
    // statement 2 is the rollback issued on the not-found path
    if ThrowsBefore(fault, 2) then Step(Failed, s)
    else if id !in s.purchases then (if Throws(fault, 2) then Step(Failed, s) else Step(NotFound, s))
    else
      var mine := LinesOf(s.lines, id);
      if ThrowsBefore(fault, DeleteStatements(|mine|)) then Step(Failed, s)
      else Step(Ok(|mine|), State(s.items, GiveAll(s.inventory, mine), s.purchases - {id}, Without(s.lines, id)))
  }

  // ---------------------------------------------------------------------
  // Purchase creation with the decrement's affected-row count checked
  // ---------------------------------------------------------------------

  /** The decrements of `lines` when each guarded update must change its row:
      the first line without an inventory row gives NotFound, the first line
      whose running stock is short gives BadRequest. */
  function TakeChecked(inv: map<ItemId, int>, lines: seq<Line>): (r: Reply<map<ItemId, int>>)
    ensures r.Ok? || r.NotFound? || r.BadRequest?
    ensures r.Ok? <==> NoneMissed(inv, lines) && forall l :: l in lines ==> l.itemId in inv
    ensures r.Ok? ==> r.value == TakeAll(inv, lines)
    ensures r.Ok? ==> forall x :: x in inv ==> r.value[x] == inv[x] - Demand(lines, x)
    decreases |lines|
  {
    if lines == [] then Ok(inv)
    else if lines[0].itemId !in inv then NotFound
    else if !Fires(inv, lines[0]) then BadRequest
    else
      assert forall l :: l in lines[1..] ==> l in lines;
      assert forall l :: l in lines ==> l == lines[0] || l in lines[1..];
      TakeChecked(Take(inv, lines[0]), lines[1..])
  }

  /** `addPurchase` with the guarded decrement's affected-row count checked:
      a line that cannot be taken from stock aborts and rolls back the whole
      purchase instead of being recorded without its decrement. */
  function AddPurchaseChecked(s: State, customer: Option<string>, items: Option<seq<LineRequest>>,
                              total: Option<Price>, newId: PurchaseId, now: int, fault: Fault): (r: Step<PurchaseId>)
    requires FreshPurchaseId(s, newId)
    ensures !r.reply.Ok? ==> r.state == s
    ensures r.reply.Ok? ==> r == AddPurchase(s, customer, items, total, newId, now, fault)
    ensures r.reply.Ok? ==> NoneMissed(s.inventory, Record(newId, items.value))
    ensures r.reply.Ok? ==> forall x :: x in s.inventory ==>
      r.state.inventory[x] == s.inventory[x] - Demand(Record(newId, items.value), x)
  {
    if items.None? || ThrowsBefore(fault, PurchaseStatements(|items.value|)) then Step(Failed, s)
    else
      var recorded := Record(newId, items.value);
      match TakeChecked(s.inventory, recorded)
      case Ok(inv) =>
        Step(Ok(newId), State(s.items, inv, s.purchases[newId := Purchase(customer, total, now)], s.lines + recorded))
      case NotFound => Step(NotFound, s)
      case _ => Step(BadRequest, s)
  }
}

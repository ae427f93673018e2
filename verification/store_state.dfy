/**
 The persistent state of the store back end and the vocabulary shared by every
 request handler: the four relations the controller reads and writes, the
 reply a handler gives, and the way a database fault is injected.

 Each handler is modelled as a pure function from a `State` to a `Step`
 (its reply together with the state it leaves behind).
 */
module StoreState {

  datatype Option<+T> = None | Some(value: T)

  /** Primary keys. The database hands out auto-increment ids starting at 1. */
  type ItemId = int
  type PurchaseId = int

  /** Prices and totals are floating point in the database; no arithmetic is
      done on them, so they are carried as opaque values. */
  type Price = real

  /** A row of the `items` table. `description` may be NULL. */
  datatype Item = Item(name: string, description: Option<string>, price: Price, createdAt: int)

  /** A row of the `purchases` table. Customer and total are stored as sent. */
  datatype Purchase = Purchase(customer: Option<string>, total: Option<Price>, date: int)

  /** A row of the `purchase_items` table. */
  datatype Line = Line(purchaseId: PurchaseId, itemId: ItemId, quantity: int)

  /** The whole database: `items` keyed by id, `inventory` keyed by item id
      (one stock figure per item), `purchases` keyed by id, and the
      `purchase_items` rows in insertion order. */
  datatype State = State(
    items: map<ItemId, Item>,
    inventory: map<ItemId, int>,
    purchases: map<PurchaseId, Purchase>,
    lines: seq<Line>)

  /** What a handler answers, with the HTTP body reduced to the value it carries. */
  datatype Reply<+T> = Ok(value: T) | BadRequest | NotFound | Failed

  /** A handler's reply and the state it leaves behind. */
  datatype Step<+T> = Step(reply: Reply<T>, state: State)

  /** `Some(k)`: the k-th database statement a handler issues (counting from 0,
      transaction control included) throws; `None`: no statement throws. A
      handler stops at its first failing statement, so an index past the last
      statement it issues means that no fault occurs. */
  type Fault = Option<nat>

  predicate Throws(fault: Fault, k: nat) {
    fault == Some(k)
  }

  /** Some statement among the first `n` that a handler issues throws. */
  predicate ThrowsBefore(fault: Fault, n: nat) {
    fault.Some? && fault.value < n
  }

  /** JavaScript truthiness of an optional string field (`undefined`, `null`
      and `""` are falsy). */
  predicate Truthy(s: Option<string>) {
    s.Some? && s.value != ""
  }

  /** JavaScript truthiness of an optional numeric id (`undefined` and `0` are falsy). */
  predicate TruthyId(id: Option<int>) {
    id.Some? && id.value != 0
  }

  /** The id the database assigns to a new item: positive and unused. */
  predicate FreshItemId(s: State, id: ItemId) {
    id > 0 && id !in s.items
  }

  /** The id the database assigns to a new purchase: positive, unused, and not
      mentioned by any purchase line (auto-increment never reuses an id). */
  predicate FreshPurchaseId(s: State, id: PurchaseId) {
    id > 0 && id !in s.purchases && forall l :: l in s.lines ==> l.purchaseId != id
  }
}

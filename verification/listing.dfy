/**
 The read-only handlers: listing items, the items joined with their stock,
 and the purchases newest first. A query result is a sequence of rows, each
 carrying its primary key; without `ORDER BY` the database promises no order,
 so only the listing of purchases is ordered.
 */
module Listing {
  import opened StoreState

  /** The ids a result set lists. */
  ghost function IdsOf<V>(rows: seq<(int, V)>): set<int> {
    set i | 0 <= i < |rows| :: rows[i].0
  }

  /** A result set lists every row of `m` exactly once, with its contents. */
  ghost predicate Lists<V>(rows: seq<(int, V)>, m: map<int, V>) {
    && IdsOf(rows) == m.Keys
    && (forall i, j :: 0 <= i < j < |rows| ==> rows[i].0 != rows[j].0)
    && (forall i :: 0 <= i < |rows| ==> rows[i].0 in m && m[rows[i].0] == rows[i].1)
  }

  lemma IdsOfAppend<V>(rows: seq<(int, V)>, row: (int, V))
    ensures IdsOf(rows + [row]) == IdsOf(rows) + {row.0}
  {
    var longer := rows + [row];
    assert longer[|rows|].0 == row.0;
    forall y | y in IdsOf(rows) ensures y in IdsOf(longer) {
      var i :| 0 <= i < |rows| && rows[i].0 == y;
      assert longer[i].0 == y;
    }
  }

  /** Some element of a non-empty set. */
  method Pick<T>(ks: set<T>) returns (x: T)
    requires ks != {}
    ensures x in ks
  {
    var none: set<T> := {};
    assert !(forall y :: y in ks <==> y in none);
    x :| x in ks;
  }

  /** One step of a scan: listing the row of a key not yet listed keeps the
      listing duplicate-free and faithful, and moves the key out of `rest`. */
  lemma ScanStep<V>(m: map<int, V>, rows: seq<(int, V)>, rest: set<int>, k: int)
    requires k in rest && rest <= m.Keys
    requires IdsOf(rows) == m.Keys - rest
    requires forall i, j :: 0 <= i < j < |rows| ==> rows[i].0 != rows[j].0
    requires forall i :: 0 <= i < |rows| ==> rows[i].0 in m && m[rows[i].0] == rows[i].1
    ensures var longer := rows + [(k, m[k])];
            && IdsOf(longer) == m.Keys - (rest - {k})
            && |rest - {k}| == |rest| - 1
            && (forall i, j :: 0 <= i < j < |longer| ==> longer[i].0 != longer[j].0)
            && (forall i :: 0 <= i < |longer| ==> longer[i].0 in m && m[longer[i].0] == longer[i].1)
  {
    var longer := rows + [(k, m[k])];
    IdsOfAppend(rows, (k, m[k]));
    forall i | 0 <= i < |rows| ensures longer[i].0 != k {
      assert rows[i].0 in IdsOf(rows);
    }
  }

  /** A scan of a whole table: some listing of every row of `m`. */
  method Scan<V>(m: map<int, V>) returns (rows: seq<(int, V)>)
    ensures Lists(rows, m)
    ensures |rows| == |m|
  {
    rows := [];
    var rest := m.Keys;
    while rest != {}
      invariant rest <= m.Keys
      invariant IdsOf(rows) == m.Keys - rest
      invariant |rows| + |rest| == |m|
      invariant forall i, j :: 0 <= i < j < |rows| ==> rows[i].0 != rows[j].0
      invariant forall i :: 0 <= i < |rows| ==> rows[i].0 in m && m[rows[i].0] == rows[i].1
      decreases rest
    {
      var k := Pick(rest);
      ScanStep(m, rows, rest, k);
      rows := rows + [(k, m[k])];
      rest := rest - {k};
    }
  }

  /** `getAllItems`: `SELECT * FROM items`. */
  method GetAllItems(s: State, fault: Fault) returns (r: Reply<seq<(ItemId, Item)>>)
    ensures r.Failed? <==> Throws(fault, 0)
    ensures !r.Failed? ==> r.Ok? && Lists(r.value, s.items)
  {
    if Throws(fault, 0) {
      return Failed;
    }
    var rows := Scan(s.items);
    return Ok(rows);
  }

  /** A row of `getItemsWithInventory`: the item's columns plus its stock. */
  datatype Stocked = Stocked(item: Item, stock: int)

  /** The inner join of `items` with `inventory` on the item id. */
  function Joined(s: State): map<ItemId, Stocked> {
    map id | id in s.items && id in s.inventory :: Stocked(s.items[id], s.inventory[id])
  }

  /** `getItemsWithInventory`: every item that has an inventory row, once,
      with that row's stock; items without a row are left out. */
  method GetItemsWithInventory(s: State, fault: Fault) returns (r: Reply<seq<(ItemId, Stocked)>>)
    ensures r.Failed? <==> Throws(fault, 0)
    ensures !r.Failed? ==> r.Ok? && Lists(r.value, Joined(s))
    ensures r.Ok? ==> IdsOf(r.value) == s.items.Keys * s.inventory.Keys
    ensures r.Ok? ==> forall i :: 0 <= i < |r.value| ==>
      && r.value[i].0 in s.items && r.value[i].0 in s.inventory
      && r.value[i].1 == Stocked(s.items[r.value[i].0], s.inventory[r.value[i].0])
  {
    if Throws(fault, 0) {
      return Failed;
    }
    var rows := Scan(Joined(s));
    return Ok(rows);
  }

  /** Purchase rows ordered by date, newest first (ties in any order). */
  ghost predicate NewestFirst(rows: seq<(PurchaseId, Purchase)>) {
    forall i, j :: 0 <= i < j < |rows| ==> rows[i].1.date >= rows[j].1.date
  }

  /** The most recent purchase among `ks` (the first one met on a tie). */
  method Latest(m: map<PurchaseId, Purchase>, ks: set<PurchaseId>) returns (k: PurchaseId)
    requires ks != {} && ks <= m.Keys
    ensures k in ks
    ensures forall j :: j in ks ==> m[j].date <= m[k].date
  {
    k := Pick(ks);
    var rest := ks - {k};
    while rest != {}
      invariant rest <= ks && k in ks
      invariant forall j :: j in ks - rest ==> m[j].date <= m[k].date
      decreases rest
    {
      var j := Pick(rest);
      if m[j].date > m[k].date {
        k := j;
      }
      rest := rest - {j};
    }
  }

  /** `getAllPurchases`: `SELECT * FROM purchases ORDER BY purchase_date DESC`,
      as a repeated choice of the latest remaining purchase. */
  method GetAllPurchases(s: State, fault: Fault) returns (r: Reply<seq<(PurchaseId, Purchase)>>)
    ensures r.Failed? <==> Throws(fault, 0)
    ensures !r.Failed? ==> r.Ok? && Lists(r.value, s.purchases) && NewestFirst(r.value)
  {
    if Throws(fault, 0) {
      return Failed;
    }
    var m := s.purchases;
    var rows: seq<(PurchaseId, Purchase)> := [];
    var rest := m.Keys;
    while rest != {}
      invariant rest <= m.Keys
      invariant IdsOf(rows) == m.Keys - rest
      invariant forall i, j :: 0 <= i < j < |rows| ==> rows[i].0 != rows[j].0
      invariant forall i :: 0 <= i < |rows| ==> rows[i].0 in m && m[rows[i].0] == rows[i].1
      invariant NewestFirst(rows)
      invariant forall i, k :: 0 <= i < |rows| && k in rest ==> rows[i].1.date >= m[k].date
      decreases rest
    {
      var k := Latest(m, rest);
      assert forall i :: 0 <= i < |rows| ==> rows[i].0 in IdsOf(rows);
      IdsOfAppend(rows, (k, m[k]));
      rows := rows + [(k, m[k])];
      rest := rest - {k};
    }
    return Ok(rows);
  }
}

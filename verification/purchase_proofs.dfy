/**
 Properties that relate several purchase operations: the accounting of the
 guarded decrements, what a purchase records, and the round trip of a purchase
 followed by its deletion.
 */
module PurchaseProofs {
  import opened StoreState
  import opened Purchases

  // ---------------------------------------------------------------------
  // Stock accounting
  // ---------------------------------------------------------------------

  /** After the guarded decrements, an item's stock is its old stock less
      everything asked for it, plus whatever was skipped for lack of stock. */
  lemma {:induction false} TakeAllAccounts(inv: map<ItemId, int>, lines: seq<Line>, x: ItemId)
    requires x in inv
    ensures TakeAll(inv, lines)[x] == inv[x] - Demand(lines, x) + Shortfall(inv, lines, x)
    decreases |lines|
  {
    if lines != [] {
      TakeAllAccounts(Take(inv, lines[0]), lines[1..], x);
    }
  }

  /** With non-negative quantities nothing skipped can be negative. */
  lemma {:induction false} ShortfallNonNegative(inv: map<ItemId, int>, lines: seq<Line>, x: ItemId)
    requires forall l :: l in lines ==> l.quantity >= 0
    ensures Shortfall(inv, lines, x) >= 0
    decreases |lines|
  {
    if lines != [] {
      assert lines[0] in lines;
      assert forall l :: l in lines[1..] ==> l in lines;
      ShortfallNonNegative(Take(inv, lines[0]), lines[1..], x);
    }
  }

  /** When every decrement fires, nothing is skipped for any item. */
  lemma {:induction false} NoneMissedNoShortfall(inv: map<ItemId, int>, lines: seq<Line>, x: ItemId)
    requires NoneMissed(inv, lines)
    ensures Shortfall(inv, lines, x) == 0
    decreases |lines|
  {
    if lines != [] {
      NoneMissedNoShortfall(Take(inv, lines[0]), lines[1..], x);
    }
  }

  /** When some decrement with a positive quantity is skipped, some item is
      left with a positive shortfall. */
  lemma {:induction false} MissedShortfall(inv: map<ItemId, int>, lines: seq<Line>) returns (x: ItemId)
    requires forall l :: l in lines ==> l.quantity > 0
    requires !NoneMissed(inv, lines)
    ensures x in inv && Shortfall(inv, lines, x) > 0
    decreases |lines|
  {
    assert lines[0] in lines;
    assert forall l :: l in lines[1..] ==> l in lines;
    if Missed(inv, lines[0]) {
      x := lines[0].itemId;
      ShortfallNonNegative(Take(inv, lines[0]), lines[1..], x);
    } else {
      x := MissedShortfall(Take(inv, lines[0]), lines[1..]);
    }
  }

  // ---------------------------------------------------------------------
  // Selecting lines by purchase
  // ---------------------------------------------------------------------

  lemma {:induction false} LinesOfAppend(a: seq<Line>, b: seq<Line>, pid: PurchaseId)
    ensures LinesOf(a + b, pid) == LinesOf(a, pid) + LinesOf(b, pid)
    decreases |a|
  {
    if a == [] {
      assert a + b == b;
    } else {
      var head := if a[0].purchaseId == pid then [a[0]] else [];
      assert (a + b)[0] == a[0];
      assert (a + b)[1..] == a[1..] + b;
      assert LinesOf(a + b, pid) == head + LinesOf(a[1..] + b, pid);
      LinesOfAppend(a[1..], b, pid);
      assert head + (LinesOf(a[1..], pid) + LinesOf(b, pid)) == (head + LinesOf(a[1..], pid)) + LinesOf(b, pid);
    }
  }

  lemma {:induction false} WithoutAppend(a: seq<Line>, b: seq<Line>, pid: PurchaseId)
    ensures Without(a + b, pid) == Without(a, pid) + Without(b, pid)
    decreases |a|
  {
    if a == [] {
      assert a + b == b;
    } else {
      assert (a + b)[0] == a[0];
      assert (a + b)[1..] == a[1..] + b;
      WithoutAppend(a[1..], b, pid);
      if a[0].purchaseId != pid {
        assert Without(a + b, pid) == [a[0]] + Without(a[1..] + b, pid);
        assert [a[0]] + (Without(a[1..], pid) + Without(b, pid)) == ([a[0]] + Without(a[1..], pid)) + Without(b, pid);
      }
    }
  }

  /** Lines of other purchases are selected by neither query for `pid`'s lines. */
  lemma {:induction false} SelectNone(lines: seq<Line>, pid: PurchaseId)
    requires forall l :: l in lines ==> l.purchaseId != pid
    ensures LinesOf(lines, pid) == []
    ensures Without(lines, pid) == lines
    decreases |lines|
  {
    if lines != [] {
      assert lines[0] in lines;
      assert forall l :: l in lines[1..] ==> l in lines;
      SelectNone(lines[1..], pid);
      assert lines == [lines[0]] + lines[1..];
    }
  }

  /** Lines all belonging to `pid` are selected whole. */
  lemma {:induction false} SelectAll(lines: seq<Line>, pid: PurchaseId)
    requires forall l :: l in lines ==> l.purchaseId == pid
    ensures LinesOf(lines, pid) == lines
    ensures Without(lines, pid) == []
    decreases |lines|
  {
    if lines != [] {
      assert lines[0] in lines;
      assert forall l :: l in lines[1..] ==> l in lines;
      SelectAll(lines[1..], pid);
      assert lines == [lines[0]] + lines[1..];
    }
  }

  /** Deleting one purchase's lines leaves every other purchase's lines, in order. */
  lemma {:induction false} WithoutKeepsOthers(lines: seq<Line>, id: PurchaseId, p: PurchaseId)
    requires p != id
    ensures LinesOf(Without(lines, id), p) == LinesOf(lines, p)
    decreases |lines|
  {
    if lines != [] {
      var head := if lines[0].purchaseId == id then [] else [lines[0]];
      LinesOfAppend(head, Without(lines[1..], id), p);
      WithoutKeepsOthers(lines[1..], id, p);
      if lines[0].purchaseId != id {
        assert LinesOf(head, p) == (if lines[0].purchaseId == p then [lines[0]] else []) by {
          assert head[1..] == [];
        }
      }
    }
  }

  /** The two selections split the lines: together they hold every line once. */
  lemma {:induction false} SelectSplits(lines: seq<Line>, pid: PurchaseId)
    ensures multiset(LinesOf(lines, pid)) + multiset(Without(lines, pid)) == multiset(lines)
    decreases |lines|
  {
    if lines != [] {
      SelectSplits(lines[1..], pid);
      assert lines == [lines[0]] + lines[1..];
    }
  }

  /** A successful purchase's lines, selected by its id, are exactly the
      requested ones, in order. */
  lemma AddPurchaseSelectsRecord(s: State, customer: Option<string>, items: Option<seq<LineRequest>>,
                                 total: Option<Price>, newId: PurchaseId, now: int, fault: Fault)
    requires FreshPurchaseId(s, newId)
    requires AddPurchase(s, customer, items, total, newId, now, fault).reply.Ok?
    ensures LinesOf(AddPurchase(s, customer, items, total, newId, now, fault).state.lines, newId)
            == Record(newId, items.value)
  {
    var recorded := Record(newId, items.value);
    LinesOfAppend(s.lines, recorded, newId);
    SelectNone(s.lines, newId);
    assert forall l :: l in recorded ==> l.purchaseId == newId;
    SelectAll(recorded, newId);
  }

  /** Removing a successful purchase's lines gives back the lines that were
      there before it. */
  lemma AddPurchaseKeepsEarlierLines(s: State, customer: Option<string>, items: Option<seq<LineRequest>>,
                                     total: Option<Price>, newId: PurchaseId, now: int, fault: Fault)
    requires FreshPurchaseId(s, newId)
    requires AddPurchase(s, customer, items, total, newId, now, fault).reply.Ok?
    ensures Without(AddPurchase(s, customer, items, total, newId, now, fault).state.lines, newId) == s.lines
  {
    var recorded := Record(newId, items.value);
    WithoutAppend(s.lines, recorded, newId);
    SelectNone(s.lines, newId);
    assert forall l :: l in recorded ==> l.purchaseId == newId;
    SelectAll(recorded, newId);
  }

  /** An accepted purchase takes from each item's stock everything its lines
      ask for that item, except what the guarded decrements skipped. */
  lemma AddPurchaseStock(s: State, customer: Option<string>, items: Option<seq<LineRequest>>,
                         total: Option<Price>, newId: PurchaseId, now: int, fault: Fault)
    requires FreshPurchaseId(s, newId)
    requires AddPurchase(s, customer, items, total, newId, now, fault).reply.Ok?
    ensures forall x :: x in s.inventory ==>
      AddPurchase(s, customer, items, total, newId, now, fault).state.inventory[x]
      == s.inventory[x] - Demand(Record(newId, items.value), x) + Shortfall(s.inventory, Record(newId, items.value), x)
  {
    forall x | x in s.inventory {
      TakeAllAccounts(s.inventory, Record(newId, items.value), x);
    }
  }

  /** An accepted delete removes exactly the purchase's lines: the table left
      is the old table less those lines, counted with multiplicity. */
  lemma DeletePurchaseRemovesLines(s: State, id: PurchaseId, fault: Fault)
    requires DeletePurchase(s, id, fault).reply.Ok?
    ensures multiset(DeletePurchase(s, id, fault).state.lines) == multiset(s.lines) - multiset(LinesOf(s.lines, id))
  {
    SelectSplits(s.lines, id);
  }

  /** An accepted delete leaves every other purchase's lines, in their order. */
  lemma DeletePurchaseKeepsOthers(s: State, id: PurchaseId, fault: Fault)
    requires DeletePurchase(s, id, fault).reply.Ok?
    ensures forall p :: p != id ==> LinesOf(DeletePurchase(s, id, fault).state.lines, p) == LinesOf(s.lines, p)
  {
    forall p | p != id {
      WithoutKeepsOthers(s.lines, id, p);
    }
  }

  // ---------------------------------------------------------------------
  // Purchase followed by its deletion
  // ---------------------------------------------------------------------

  /** A purchase whose statements all succeed is accepted, and deleting it
      afterwards gives back the items and purchases it started from. */
  lemma PurchaseThenDeleteRows(s: State, customer: Option<string>, reqs: seq<LineRequest>,
                               total: Option<Price>, newId: PurchaseId, now: int, fault: Fault)
    requires FreshPurchaseId(s, newId)
    requires !ThrowsBefore(fault, PurchaseStatements(|reqs|))
    ensures var a := AddPurchase(s, customer, Some(reqs), total, newId, now, fault);
            var d := DeletePurchase(a.state, newId, None);
            && a.reply == Ok(newId)
            && d.state.items == s.items
            && d.state.purchases == s.purchases
  {
  }

  /** The deletion reports one removed line per requested line and gives back
      the lines there were before the purchase. */
  lemma PurchaseThenDeleteLines(s: State, customer: Option<string>, reqs: seq<LineRequest>,
                                total: Option<Price>, newId: PurchaseId, now: int, fault: Fault)
    requires FreshPurchaseId(s, newId)
    requires !ThrowsBefore(fault, PurchaseStatements(|reqs|))
    ensures var d := DeletePurchase(AddPurchase(s, customer, Some(reqs), total, newId, now, fault).state, newId, None);
            && d.state.lines == s.lines
            && d.reply == Ok(|reqs|)
  {
    AddPurchaseSelectsRecord(s, customer, Some(reqs), total, newId, now, fault);
    AddPurchaseKeepsEarlierLines(s, customer, Some(reqs), total, newId, now, fault);
  }

  /** Every item's stock ends higher by exactly what its skipped decrements
      did not take, and no stock row appears or disappears. */
  lemma PurchaseThenDeleteStock(s: State, customer: Option<string>, reqs: seq<LineRequest>,
                                total: Option<Price>, newId: PurchaseId, now: int, fault: Fault)
    requires FreshPurchaseId(s, newId)
    requires !ThrowsBefore(fault, PurchaseStatements(|reqs|))
    ensures var d := DeletePurchase(AddPurchase(s, customer, Some(reqs), total, newId, now, fault).state, newId, None);
            && d.state.inventory.Keys == s.inventory.Keys
            && forall x :: x in s.inventory ==>
                 d.state.inventory[x] == s.inventory[x] + Shortfall(s.inventory, Record(newId, reqs), x)
  {
    var recorded := Record(newId, reqs);
    var d := DeletePurchase(AddPurchase(s, customer, Some(reqs), total, newId, now, fault).state, newId, None);
    AddPurchaseSelectsRecord(s, customer, Some(reqs), total, newId, now, fault);
    forall x | x in s.inventory
      ensures d.state.inventory[x] == s.inventory[x] + Shortfall(s.inventory, recorded, x)
    {
      TakeAllAccounts(s.inventory, recorded, x);
    }
  }

  /** A skipped decrement shows as a positive shortfall, and only then. */
  lemma ShortfallIffMissed(inv: map<ItemId, int>, lines: seq<Line>)
    requires forall l :: l in lines ==> l.quantity > 0
    ensures (forall x :: x in inv ==> Shortfall(inv, lines, x) == 0) <==> NoneMissed(inv, lines)
    ensures forall x :: x in inv ==> Shortfall(inv, lines, x) >= 0
  {
    forall x | x in inv ensures Shortfall(inv, lines, x) >= 0 {
      ShortfallNonNegative(inv, lines, x);
    }
    if NoneMissed(inv, lines) {
      forall x | x in inv ensures Shortfall(inv, lines, x) == 0 {
        NoneMissedNoShortfall(inv, lines, x);
      }
    } else {
      var x := MissedShortfall(inv, lines);
    }
  }

  /** Taking and then giving back the same positive quantities restores the
      stock exactly when no guarded decrement was skipped. */
  lemma TakeThenGive(inv: map<ItemId, int>, lines: seq<Line>)
    requires forall l :: l in lines ==> l.quantity > 0
    ensures GiveAll(TakeAll(inv, lines), lines) == inv <==> NoneMissed(inv, lines)
  {
    var back := GiveAll(TakeAll(inv, lines), lines);
    forall x | x in inv ensures back[x] == inv[x] + Shortfall(inv, lines, x) {
      TakeAllAccounts(inv, lines, x);
    }
    ShortfallIffMissed(inv, lines);
    assert back.Keys == inv.Keys;
    if forall x :: x in inv ==> Shortfall(inv, lines, x) == 0 {
      assert forall x :: x in inv ==> back[x] == inv[x];
      assert back == inv;
    }
  }

  /** With positive quantities, a purchase followed by its deletion restores
      the whole state exactly when no guarded decrement was skipped for lack
      of stock. */
  lemma PurchaseThenDeleteRestores(s: State, customer: Option<string>, reqs: seq<LineRequest>,
                                   total: Option<Price>, newId: PurchaseId, now: int, fault: Fault)
    requires FreshPurchaseId(s, newId)
    requires !ThrowsBefore(fault, PurchaseStatements(|reqs|))
    requires forall i :: 0 <= i < |reqs| ==> reqs[i].quantity > 0
    ensures var d := DeletePurchase(AddPurchase(s, customer, Some(reqs), total, newId, now, fault).state, newId, None);
            d.state == s <==> NoneMissed(s.inventory, Record(newId, reqs))
  {
    var recorded := Record(newId, reqs);
    var d := DeletePurchase(AddPurchase(s, customer, Some(reqs), total, newId, now, fault).state, newId, None);
    PurchaseThenDeleteRows(s, customer, reqs, total, newId, now, fault);
    PurchaseThenDeleteLines(s, customer, reqs, total, newId, now, fault);
    PurchaseThenDeleteStock(s, customer, reqs, total, newId, now, fault);
    assert forall l :: l in recorded ==> l.quantity > 0;
    ShortfallIffMissed(s.inventory, recorded);
    SameStateByStock(s, d.state);
  }

  /** With non-negative quantities, a purchase followed by its deletion never
      leaves a stock lower than it started. */
  lemma PurchaseThenDeleteNeverLower(s: State, customer: Option<string>, reqs: seq<LineRequest>,
                                     total: Option<Price>, newId: PurchaseId, now: int, fault: Fault)
    requires FreshPurchaseId(s, newId)
    requires !ThrowsBefore(fault, PurchaseStatements(|reqs|))
    requires forall i :: 0 <= i < |reqs| ==> reqs[i].quantity >= 0
    ensures var d := DeletePurchase(AddPurchase(s, customer, Some(reqs), total, newId, now, fault).state, newId, None);
            forall x :: x in s.inventory ==> d.state.inventory[x] >= s.inventory[x]
  {
    var recorded := Record(newId, reqs);
    PurchaseThenDeleteStock(s, customer, reqs, total, newId, now, fault);
    assert forall l :: l in recorded ==> l.quantity >= 0;
    forall x | x in s.inventory ensures Shortfall(s.inventory, recorded, x) >= 0 {
      ShortfallNonNegative(s.inventory, recorded, x);
    }
  }

  /** Two states that agree on everything but stock are equal exactly when
      every stock figure agrees. */
  lemma SameStateByStock(s: State, t: State)
    requires t.items == s.items && t.purchases == s.purchases && t.lines == s.lines
    requires t.inventory.Keys == s.inventory.Keys
    ensures t == s <==> forall x :: x in s.inventory ==> t.inventory[x] == s.inventory[x]
  {
    if forall x :: x in s.inventory ==> t.inventory[x] == s.inventory[x] {
      assert t.inventory == s.inventory;
    }
  }

  /** With the affected-row count checked, an accepted purchase followed by its
      deletion gives back exactly the state it started from. */
  lemma CheckedPurchaseThenDelete(s: State, customer: Option<string>, reqs: seq<LineRequest>,
                                  total: Option<Price>, newId: PurchaseId, now: int, fault: Fault)
    requires FreshPurchaseId(s, newId)
    requires AddPurchaseChecked(s, customer, Some(reqs), total, newId, now, fault).reply.Ok?
    ensures DeletePurchase(AddPurchaseChecked(s, customer, Some(reqs), total, newId, now, fault).state, newId, None).state == s
  {
    var recorded := Record(newId, reqs);
    var d := DeletePurchase(AddPurchaseChecked(s, customer, Some(reqs), total, newId, now, fault).state, newId, None);
    PurchaseThenDeleteRows(s, customer, reqs, total, newId, now, fault);
    PurchaseThenDeleteLines(s, customer, reqs, total, newId, now, fault);
    PurchaseThenDeleteStock(s, customer, reqs, total, newId, now, fault);
    forall x | x in s.inventory ensures d.state.inventory[x] == s.inventory[x] {
      NoneMissedNoShortfall(s.inventory, recorded, x);
    }
    assert d.state.inventory == s.inventory;
  }

  /** Every recorded line names an item with a row exactly when every
      requested line does. */
  lemma RecordedItems(pid: PurchaseId, reqs: seq<LineRequest>, inv: map<ItemId, int>)
    ensures (forall l :: l in Record(pid, reqs) ==> l.itemId in inv)
            <==> (forall i :: 0 <= i < |reqs| ==> reqs[i].itemId in inv)
  {
    var recorded := Record(pid, reqs);
    if forall i :: 0 <= i < |reqs| ==> reqs[i].itemId in inv {
      forall l | l in recorded ensures l.itemId in inv {
        var i :| 0 <= i < |recorded| && recorded[i] == l;
      }
    } else {
      var i :| 0 <= i < |reqs| && reqs[i].itemId !in inv;
      assert recorded[i] in recorded;
    }
  }

  /** The checked purchase accepts exactly the requests whose every line finds
      an inventory row with enough running stock. */
  lemma CheckedPurchaseAccepts(s: State, customer: Option<string>, reqs: seq<LineRequest>,
                               total: Option<Price>, newId: PurchaseId, now: int)
    requires FreshPurchaseId(s, newId)
    ensures var r := AddPurchaseChecked(s, customer, Some(reqs), total, newId, now, None);
            r.reply.Ok? <==> NoneMissed(s.inventory, Record(newId, reqs))
                             && forall i :: 0 <= i < |reqs| ==> reqs[i].itemId in s.inventory
  {
    RecordedItems(newId, reqs, s.inventory);
  }

  /** With the checked purchase, a line that asks for more than is in stock
      is refused and nothing is written. */
  lemma CheckedPurchaseRefusesShortStock(s: State, customer: Option<string>, reqs: seq<LineRequest>,
                                         total: Option<Price>, newId: PurchaseId, now: int)
    requires FreshPurchaseId(s, newId)
    requires !NoneMissed(s.inventory, Record(newId, reqs))
    ensures var r := AddPurchaseChecked(s, customer, Some(reqs), total, newId, now, None);
            !r.reply.Ok? && r.state == s
  {
  }
}

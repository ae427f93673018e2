/**
 Concrete runs of the handlers on a small store.
 */
module Scenarios {
  import opened StoreState
  import opened Catalog
  import opened Purchases

  const Empty: State := State(map[], map[], map[], [])

  const Widget: ItemBody := ItemBody(Some("Widget"), Some("desc"), Some(10.0))

  const WidgetRow: Item := Item("Widget", Some("desc"), 10.0, 100)

  /** The store after creating the widget and after restocking it by 5. */
  const OneWidget: State := State(map[1 := WidgetRow], map[1 := 1], map[], [])
  const SixWidgets: State := State(map[1 := WidgetRow], map[1 := 6], map[], [])

  /** The store after buying 3 of the 6 widgets. */
  const ThreeSold: State :=
    State(map[1 := WidgetRow], map[1 := 3], map[1 := Purchase(Some("Ann"), Some(30.0), 200)], [Line(1, 1, 3)])

  lemma WidgetBought()
    ensures AddPurchase(SixWidgets, Some("Ann"), Some([LineRequest(1, 3)]), Some(30.0), 1, 200, None)
            == Step(Ok(1), ThreeSold)
  {
    assert Record(1, [LineRequest(1, 3)]) == [Line(1, 1, 3)];
    assert TakeAll(map[1 := 6], [Line(1, 1, 3)]) == map[1 := 3];
  }

  lemma WidgetReturned()
    ensures DeletePurchase(ThreeSold, 1, None) == Step(Ok(1), SixWidgets)
  {
    assert LinesOf(ThreeSold.lines, 1) == [Line(1, 1, 3)];
    assert Without(ThreeSold.lines, 1) == [];
    assert GiveAll(map[1 := 3], [Line(1, 1, 3)]) == map[1 := 6];
  }

  /** Create an item, restock it by 5, buy 3, delete the purchase. Creation
      gives stock 1 and restocking adds, so the item holds 6, then 3, then 6. */
  lemma WidgetLifecycle()
    ensures var created := AddItem(Empty, Widget, 1, 100, None);
            var stocked := AddInventory(created.state, Some(1), Some(5), None);
            var bought := AddPurchase(stocked.state, Some("Ann"), Some([LineRequest(1, 3)]), Some(30.0), 1, 200, None);
            var deleted := DeletePurchase(bought.state, 1, None);
            && created.reply.Ok? && created.state.inventory[1] == 1
            && stocked.reply.Ok? && stocked.state.inventory[1] == 6
            && bought.reply == Ok(1) && bought.state.inventory[1] == 3
            && deleted.reply == Ok(1) && deleted.state.inventory[1] == 6
            && deleted.state == stocked.state
  {
    assert AddItem(Empty, Widget, 1, 100, None).state == OneWidget;
    assert AddInventory(OneWidget, Some(1), Some(5), None).state == SixWidgets;
    WidgetBought();
    WidgetReturned();
  }

  /** The store holding 3 widgets and no purchases. */
  const ThreeWidgets: State := State(map[1 := Item("Widget", Some("desc"), 10.0, 100)], map[1 := 3], map[], [])

  /** Buying 10 widgets when 3 are in stock is accepted and recorded, but the
      stock stays at 3; deleting that purchase then raises the stock to 13. */
  lemma StockInflation()
    ensures var bought := AddPurchase(ThreeWidgets, Some("Ann"), Some([LineRequest(1, 10)]), None, 1, 200, None);
            var deleted := DeletePurchase(bought.state, 1, None);
            && bought.reply == Ok(1)
            && bought.state.inventory[1] == 3
            && bought.state.lines == [Line(1, 1, 10)]
            && deleted.reply == Ok(1)
            && deleted.state.inventory[1] == 13
  {
    var bought := AddPurchase(ThreeWidgets, Some("Ann"), Some([LineRequest(1, 10)]), None, 1, 200, None);
    assert Record(1, [LineRequest(1, 10)]) == [Line(1, 1, 10)];
    assert bought.state.lines == [Line(1, 1, 10)];
    assert LinesOf(bought.state.lines, 1) == [Line(1, 1, 10)];
  }

  /** The checked purchase refuses the same request and writes nothing. */
  lemma CheckedRefusesOverdraw()
    ensures var r := AddPurchaseChecked(ThreeWidgets, Some("Ann"), Some([LineRequest(1, 10)]), None, 1, 200, None);
            r.reply.BadRequest? && r.state == ThreeWidgets
  {
    assert Record(1, [LineRequest(1, 10)]) == [Line(1, 1, 10)];
  }
}

/** Clients of `Store.Inventory` that replay typical sessions on a new
    database file, using nothing but the contracts of the class. */
module Session {
  import opened Schema
  import opened Store

  method AdjustSession() {
    var inv := new Inventory(map[], 0);
    var widget := inv.NewItem("Widget", Some(9.99), Some(5));
    assert widget == Ok(1);

    var s := inv.ChangeAmount(1, -3);
    assert s == Success && inv.GetAmount(1) == Ok(Some(2));

    // Selling more than is in stock raises and keeps the amount.
    s := inv.SellItem(1, 10);
    assert s == Failure(NegativeAmount) && inv.GetAmount(1) == Ok(Some(2));

    s := inv.Delete(1);
    assert inv.GetName(1) == Err(NoSuchRow);
  }

  method RefusalSession() {
    var inv := new Inventory(map[], 0);

    // An empty name is refused and nothing is inserted.
    var nameless := inv.NewItem("", Some(1.0), Some(0));
    assert nameless == Err(Constraint) && inv.RowCount() == 0;

    // Updating an id that matches no row is silent, even with an empty name.
    var s := inv.SetName(7, "");
    assert s == Success && inv.rows == map[];
  }

  method DeleteTwiceSession() {
    var inv := new Inventory(map[], 0);
    var widget := inv.NewItem("Widget", None, Some(1));
    assert widget == Ok(1);

    var s := inv.Delete(1);
    s := inv.Delete(1);
    assert s == Success && inv.RowCount() == 0 && inv.lastId == 1;
  }

  method FreshIdSession() {
    // A file whose only item, number 1, was deleted earlier.
    var inv := new Inventory(map[], 1);

    // The deleted id is not handed out again, and an omitted amount is NULL.
    var gadget := inv.NewItem("Gadget", None);
    assert gadget == Ok(2);
    assert inv.GetAmount(2) == Ok(None);
    var s := inv.BuyItem(2, 4);
    assert s == Failure(NullAmount);
  }
}

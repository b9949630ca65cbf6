/** The four operations that change the store, as functions from the state
    before to the outcome and the state after, and what each promises: its
    success and failure cases, what it changes, what it leaves alone, and
    that it keeps the id invariants. The Store class in module Inventory
    runs them in place. */
module Operations {
  import opened Records

  /** The outcome of a sale. Code() is the status the operation returns:
      0 sold, 1 item not found, 2 not enough stock. Only a sale carries a
      profit; on the two failures the profit output is left unwritten. */
  datatype SellResult = Sold(profit: int) | NotFound | NotEnoughStock {
    function Code(): int {
      match this
      case Sold(_) => 0
      case NotFound => 1
      case NotEnoughStock => 2
    }
  }

  /** logic_addItem: the new item takes the item counter as its id and goes
      at the end; the counter moves on. Nothing is validated. */
  function Add(s: Snapshot, name: string, sizeColor: string, quantity: int, purchasePrice: int, sellingPrice: int): (int, Snapshot) {
    var id := s.nextItemId;
    (id, s.(items := s.items + [Item(id, name, sizeColor, quantity, purchasePrice, sellingPrice)], nextItemId := id + 1))
  }

  /** logic_deleteItem: erases the first item with this id, if there is one. */
  function Delete(s: Snapshot, id: int): (bool, Snapshot) {
    var k := IndexOf(s.items, id);
    if k < |s.items| then (true, s.(items := s.items[..k] + s.items[k + 1..]))
    else (false, s)
  }

  /** logic_updateItem: overwrites the quantity and both prices of the first
      item with this id, if there is one. */
  function Update(s: Snapshot, id: int, quantity: int, purchasePrice: int, sellingPrice: int): (bool, Snapshot) {
    var k := IndexOf(s.items, id);
    if k < |s.items| then
      var it := s.items[k].(quantity := quantity, purchasePrice := purchasePrice, sellingPrice := sellingPrice);
      (true, s.(items := s.items[k := it]))
    else (false, s)
  }

  /** logic_sellItem: looks the item up, checks the stock, then takes qty off
      it and records the sale under the sale counter, dated date. */
  function Sell(s: Snapshot, id: int, qty: int, date: string): (SellResult, Snapshot) {
    var k := IndexOf(s.items, id);
    if k == |s.items| then (NotFound, s)
    else
      var it := s.items[k];
      if qty > it.quantity then (NotEnoughStock, s)
      else
        var profit := (it.sellingPrice - it.purchasePrice) * qty;
        var sale := Sale(s.nextSaleId, it.id, it.name, qty, profit, date);
        (Sold(profit), s.(items := s.items[k := it.(quantity := it.quantity - qty)],
                          sales := s.sales + [sale], nextSaleId := s.nextSaleId + 1))
  }

  /** Add returns the old item counter, appends exactly the new item after the
      items that were there, and moves the counter on by one; the sales and
      their counter stay as they were. */
  lemma AddAppends(s: Snapshot, name: string, sizeColor: string, quantity: int, purchasePrice: int, sellingPrice: int)
    ensures var (id, t) := Add(s, name, sizeColor, quantity, purchasePrice, sellingPrice);
      && id == s.nextItemId && t.nextItemId == s.nextItemId + 1
      && |t.items| == |s.items| + 1 && t.items[..|s.items|] == s.items
      && t.items[|s.items|] == Item(id, name, sizeColor, quantity, purchasePrice, sellingPrice)
      && t.sales == s.sales && t.nextSaleId == s.nextSaleId
  {
    var (id, t) := Add(s, name, sizeColor, quantity, purchasePrice, sellingPrice);
    assert t.items[..|s.items|] == s.items;
  }

  /** With the counters ahead, the new id is not in use, so the new item is
      the one the id finds, and both invariants hold afterwards. */
  lemma AddKeepsIds(s: Snapshot, name: string, sizeColor: string, quantity: int, purchasePrice: int, sellingPrice: int)
    requires CountersAhead(s)
    ensures var (id, t) := Add(s, name, sizeColor, quantity, purchasePrice, sellingPrice);
      && id !in ItemIds(s.items)
      && IndexOf(t.items, id) == |s.items|
      && CountersAhead(t)
      && (IdsUnique(s) ==> IdsUnique(t))
  {
    var (id, t) := Add(s, name, sizeColor, quantity, purchasePrice, sellingPrice);
    ItemIdsAppend(s.items, t.items[|s.items|]);
    assert t.items == s.items + [t.items[|s.items|]];
    AppendFreshId(ItemIds(s.items), id);
    assert id !in ItemIds(s.items);
    IndexOfPresent(t.items, id);
  }

  /** Delete reports whether the id was present. When it was, the first item
      with that id is gone and the others are kept in their order; otherwise
      nothing changes. The sales and both counters are never touched. */
  lemma DeleteRemoves(s: Snapshot, id: int)
    ensures var (deleted, t) := Delete(s, id);
      && (deleted <==> id in ItemIds(s.items))
      && (deleted ==>
            var k := IndexOf(s.items, id);
            t.items == s.items[..k] + s.items[k + 1..] && ItemIds(t.items) == ItemIds(s.items)[..k] + ItemIds(s.items)[k + 1..])
      && (!deleted ==> t == s)
      && t.sales == s.sales && t.nextItemId == s.nextItemId && t.nextSaleId == s.nextSaleId
  {
    IndexOfPresent(s.items, id);
    var k := IndexOf(s.items, id);
    var (deleted, t) := Delete(s, id);
    if k < |s.items| {
      assert deleted && t.items == s.items[..k] + s.items[k + 1..];
      ItemIdsRemove(s.items, k);
    } else {
      assert !deleted && t == s;
    }
  }

  /** Delete keeps both invariants, and with unique ids no item with the id
      is left. */
  lemma DeleteKeepsIds(s: Snapshot, id: int)
    ensures var (_, t) := Delete(s, id);
      && (CountersAhead(s) ==> CountersAhead(t))
      && (IdsUnique(s) ==> IdsUnique(t) && id !in ItemIds(t.items))
  {
    IndexOfPresent(s.items, id);
    var k := IndexOf(s.items, id);
    if k < |s.items| {
      ItemIdsRemove(s.items, k);
      RemoveKeepsIds(ItemIds(s.items), k, s.nextItemId);
    }
  }

  /** Update reports whether the id was present. When it was, the item with
      that id gets the new quantity and prices and keeps its id, name and
      size/colour, and every other item is as it was; otherwise nothing
      changes. The ids, the sales and both counters are never touched. */
  lemma UpdateOverwrites(s: Snapshot, id: int, quantity: int, purchasePrice: int, sellingPrice: int)
    ensures var (updated, t) := Update(s, id, quantity, purchasePrice, sellingPrice);
      && (updated <==> id in ItemIds(s.items))
      && |t.items| == |s.items|
      && (updated ==>
            var k := IndexOf(s.items, id);
            && t.items[k] == Item(id, s.items[k].name, s.items[k].sizeColor, quantity, purchasePrice, sellingPrice)
            && forall j :: 0 <= j < |s.items| && j != k ==> t.items[j] == s.items[j])
      && (!updated ==> t == s)
      && ItemIds(t.items) == ItemIds(s.items)
      && t.sales == s.sales && t.nextItemId == s.nextItemId && t.nextSaleId == s.nextSaleId
  {
    IndexOfPresent(s.items, id);
    var k := IndexOf(s.items, id);
    if k < |s.items| {
      var (_, t) := Update(s, id, quantity, purchasePrice, sellingPrice);
      ItemIdsReplace(s.items, k, t.items[k]);
    }
  }

  /** Update keeps both invariants. */
  lemma UpdateKeepsIds(s: Snapshot, id: int, quantity: int, purchasePrice: int, sellingPrice: int)
    ensures var (_, t) := Update(s, id, quantity, purchasePrice, sellingPrice);
      && (CountersAhead(s) ==> CountersAhead(t))
      && (IdsUnique(s) ==> IdsUnique(t))
  {
    UpdateOverwrites(s, id, quantity, purchasePrice, sellingPrice);
  }

  /** Sell fails with NotFound exactly when the id is absent and with
      NotEnoughStock exactly when qty is above the item's stock; on both the
      state is unchanged. The stock check is the only guard on qty: a qty
      of zero or below is not refused as such. */
  lemma SellFailures(s: Snapshot, id: int, qty: int, date: string)
    ensures var (r, t) := Sell(s, id, qty, date);
      && (r == NotFound <==> id !in ItemIds(s.items))
      && (r == NotEnoughStock <==> id in ItemIds(s.items) && qty > s.items[IndexOf(s.items, id)].quantity)
      && (!r.Sold? ==> t == s)
      && (r.Sold? <==> r.Code() == 0)
  {
    IndexOfPresent(s.items, id);
  }

  /** A successful sale earns (selling price - purchase price) * qty, takes
      qty off that item's stock and changes no other item, appends one sale
      under the old sale counter with the item's id and current name, and
      moves that counter on by one. */
  lemma SellRecords(s: Snapshot, id: int, qty: int, date: string)
    ensures var (r, t) := Sell(s, id, qty, date);
      r.Sold? ==>
        var k := IndexOf(s.items, id);
        var it := s.items[k];
        && it.id == id
        && r.profit == (it.sellingPrice - it.purchasePrice) * qty
        && |t.items| == |s.items|
        && t.items[k] == it.(quantity := it.quantity - qty)
        && (forall j :: 0 <= j < |s.items| && j != k ==> t.items[j] == s.items[j])
        && t.sales == s.sales + [Sale(s.nextSaleId, id, it.name, qty, r.profit, date)]
        && t.nextSaleId == s.nextSaleId + 1 && t.nextItemId == s.nextItemId
  {
  }

  /** Sell keeps both invariants. */
  lemma SellKeepsIds(s: Snapshot, id: int, qty: int, date: string)
    ensures var (_, t) := Sell(s, id, qty, date);
      && (CountersAhead(s) ==> CountersAhead(t))
      && (CountersAhead(s) && IdsUnique(s) ==> IdsUnique(t))
  {
    var k := IndexOf(s.items, id);
    if k < |s.items| && qty <= s.items[k].quantity {
      var it := s.items[k];
      SaleKeepsIds(s, k, it.(quantity := it.quantity - qty),
        Sale(s.nextSaleId, it.id, it.name, qty, (it.sellingPrice - it.purchasePrice) * qty, date));
    }
  }
}

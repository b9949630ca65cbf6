/** The in-memory store of the inventory manager: the item and sale
    collections with their id counters, the four operations that change them
    (add, update, delete, sell), and the save and load of both collections
    through the CSV files. */
module Inventory {
  import opened Wrappers
  import Text
  import opened Records
  import Csv
  import opened Operations

  class Store {
    var items: seq<Item>
    var sales: seq<Sale>
    var nextItemId: int
    var nextSaleId: int

    /** The whole state as a value. */
    function State(): Snapshot
      reads this
    {
      Snapshot(items, sales, nextItemId, nextSaleId)
    }

    /** The state before any load: no records, both counters at 1. */
    constructor ()
      ensures State() == Snapshot([], [], 1, 1)
      ensures CountersAhead(State()) && IdsUnique(State())
    {
      items := [];
      sales := [];
      nextItemId := 1;
      nextSaleId := 1;
    }

    /** find_if over the items: the position of the first item with this id,
        or |items| when there is none. */
    method FindItem(id: int) returns (k: nat)
      ensures k == IndexOf(items, id)
    {
      k := 0;
      while k < |items| && items[k].id != id
        invariant k <= |items|
        invariant forall j :: 0 <= j < k ==> items[j].id != id
      {
        k := k + 1;
      }
    }

    /** logic_addItem: takes the next item id, appends the new item at the
        end and returns its id. */
    method AddItem(name: string, sizeColor: string, quantity: int, purchasePrice: int, sellingPrice: int)
      returns (id: int)
      modifies this
      ensures (id, State()) == Add(old(State()), name, sizeColor, quantity, purchasePrice, sellingPrice)
    {
      id := nextItemId;
      nextItemId := nextItemId + 1;
      items := items + [Item(id, name, sizeColor, quantity, purchasePrice, sellingPrice)];
    }

    /** logic_deleteItem: erases the first item with this id and reports
        whether there was one. */
    method DeleteItem(id: int) returns (deleted: bool)
      modifies this
      ensures (deleted, State()) == Delete(old(State()), id)
    {
      var k := FindItem(id);
      if k < |items| {
        items := items[..k] + items[k + 1..];
        deleted := true;
      } else {
        deleted := false;
      }
    }

    /** logic_updateItem: overwrites the quantity and both prices of the
        first item with this id and reports whether there was one. */
    method UpdateItem(id: int, quantity: int, purchasePrice: int, sellingPrice: int) returns (updated: bool)
      modifies this
      ensures (updated, State()) == Update(old(State()), id, quantity, purchasePrice, sellingPrice)
    {
      var k := FindItem(id);
      if k < |items| {
        items := items[k := items[k].(quantity := quantity, purchasePrice := purchasePrice, sellingPrice := sellingPrice)];
        updated := true;
      } else {
        updated := false;
      }
    }

    /** logic_sellItem: fails when no item has this id, or when qty is above
        its stock; otherwise takes qty off the stock and records the sale
        under the next sale id. The clock reading is the date parameter. */
    method SellItem(id: int, qty: int, date: string) returns (r: SellResult)
      modifies this
      ensures (r, State()) == Sell(old(State()), id, qty, date)
    {
      var k := FindItem(id);
      if k == |items| {
        r := NotFound;
      } else if qty > items[k].quantity {
        r := NotEnoughStock;
      } else {
        var it := items[k];
        var profit := (it.sellingPrice - it.purchasePrice) * qty;
        items := items[k := it.(quantity := it.quantity - qty)];
        sales := sales + [Sale(nextSaleId, it.id, it.name, qty, profit, date)];
        nextSaleId := nextSaleId + 1;
        r := Sold(profit);
      }
    }

    /** saveData: the two files as written, one row per record in collection
        order. */
    method Save() returns (itemLines: seq<string>, saleLines: seq<string>)
      ensures itemLines == Csv.ItemLines(items)
      ensures saleLines == Csv.SaleLines(sales)
    {
      itemLines := [];
      for k := 0 to |items|
        invariant itemLines == Csv.ItemLines(items[..k])
      {
        Csv.ItemLinesPrefix(items, k);
        itemLines := itemLines + [Csv.ItemRow(items[k])];
      }
      assert items[..|items|] == items;
      saleLines := [];
      for k := 0 to |sales|
        invariant saleLines == Csv.SaleLines(sales[..k])
      {
        Csv.SaleLinesPrefix(sales, k);
        saleLines := saleLines + [Csv.SaleRow(sales[k])];
      }
      assert sales[..|sales|] == sales;
    }

    /** seedData: appends the three default items, each taking the next item
        id. */
    method SeedData()
      modifies this
      ensures State() == Csv.Seeded(old(State()))
    {
      items := items + [Item(nextItemId, "Widget", "Small", 10, 500, 800)];
      nextItemId := nextItemId + 1;
      items := items + [Item(nextItemId, "Bolt", "Red", 3, 50, 100)];
      nextItemId := nextItemId + 1;
      items := items + [Item(nextItemId, "Gadget", "Blue", 20, 1000, 1500)];
      nextItemId := nextItemId + 1;
    }

    /** loadData: empties the store, reads the items file and then the sales
        file line by line, and seeds the default items when nothing was read.
        ok is false when a row's numbers did not convert; the load stops
        there, keeping what it had read. */
    method Load(itemFile: Option<seq<string>>, saleFile: Option<seq<string>>) returns (ok: bool)
      modifies this
      ensures (State(), ok) == Csv.LoadStore(itemFile, saleFile)
      ensures CountersAhead(State())
    {
      items, sales := [], [];
      nextItemId, nextSaleId := 1, 1;
      ok := true;
      Csv.LoadKeepsCountersAhead(itemFile, saleFile);
      if itemFile.Some? {
        items, nextItemId, ok := Csv.ReadItems(itemFile.value);
        if !ok {
          return;
        }
      }
      if saleFile.Some? {
        sales, nextSaleId, ok := Csv.ReadSales(saleFile.value);
        if !ok {
          return;
        }
      }
      if items == [] && sales == [] {
        SeedData();
      }
    }
  }

  /** Ids are not reused within a session: an item added after another was
      added and deleted gets a new id, and the store keeps its invariants. */
  method AddDeleteAdd(store: Store, name: string) returns (first: int, second: int)
    requires CountersAhead(store.State()) && IdsUnique(store.State())
    modifies store
    ensures first < second
    ensures first !in ItemIds(store.items) && IndexOf(store.items, second) == |store.items| - 1
    ensures CountersAhead(store.State()) && IdsUnique(store.State())
  {
    AddKeepsIds(store.State(), name, "", 1, 0, 0);
    first := store.AddItem(name, "", 1, 0, 0);
    DeleteKeepsIds(store.State(), first);
    var deleted := store.DeleteItem(first);
    ghost var afterDelete := store.State();
    AddKeepsIds(store.State(), name, "", 1, 0, 0);
    second := store.AddItem(name, "", 1, 0, 0);
    ItemIdsAppend(afterDelete.items, store.items[|afterDelete.items|]);
    assert store.items == afterDelete.items + [store.items[|afterDelete.items|]];
  }

  /** On an empty store delete, update and sell all report that the id is
      not there. */
  method UnknownIdExample() returns (deleted: bool, updated: bool, sold: SellResult)
    ensures !deleted && !updated && sold == NotFound && sold.Code() == 1
  {
    var store := new Store();
    deleted := store.DeleteItem(99);
    updated := store.UpdateItem(99, 1, 100, 100);
    sold := store.SellItem(99, 1, "2024-01-01 10:00:00");
  }

  /** Adding "Widget" at 5.00/8.00 with 10 in stock to an empty store gives
      id 1; selling 4 of it earns 12.00, leaves 6 in stock and records one
      sale. */
  method SellExample() returns (id: int, sold: SellResult, stock: int, recorded: seq<Sale>)
    ensures id == 1 && sold == Sold(1200) && sold.Code() == 0 && stock == 6
    ensures recorded == [Sale(1, 1, "Widget", 4, 1200, "2024-01-01 10:00:00")]
  {
    var store := new Store();
    id := store.AddItem("Widget", "Small", 10, 500, 800);
    sold := store.SellItem(id, 4, "2024-01-01 10:00:00");
    stock := store.items[0].quantity;
    recorded := store.sales;
  }

  /** Selling more than the stock fails and changes nothing; selling a
      negative quantity is accepted and raises the stock. */
  method StockCheckExample() returns (tooMany: SellResult, negative: SellResult, stock: int)
    ensures tooMany == NotEnoughStock && tooMany.Code() == 2
    ensures negative == Sold(-100) && stock == 5
  {
    var store := new Store();
    var id := store.AddItem("Bolt", "Red", 3, 50, 100);
    tooMany := store.SellItem(id, 4, "2024-01-01 10:00:00");
    negative := store.SellItem(id, -2, "2024-01-01 10:00:00");
    stock := store.items[0].quantity;
  }
}

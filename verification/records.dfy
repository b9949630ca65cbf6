/** The two record types of the inventory, the lookup of an item by id, the
    id invariants the store keeps, the default items, and the two read-only
    queries of the menu (name search and low-stock alert). Prices and profits
    are whole cents. */
module Records {
  import Text

  /** A stocked product. */
  datatype Item = Item(id: int, name: string, sizeColor: string, quantity: int, purchasePrice: int, sellingPrice: int)

  /** A completed sale; itemName is a snapshot of the item's name at sale time
      and itemId may outlive the item it refers to. */
  datatype Sale = Sale(id: int, itemId: int, itemName: string, quantitySold: int, profit: int, dateSold: string)

  /** The ids of some records, by the given projection, in record order. */
  function IdsBy<T>(records: seq<T>, id: T -> int): seq<int> {
    seq(|records|, k requires 0 <= k < |records| => id(records[k]))
  }

  function ItemId(it: Item): int {
    it.id
  }

  function SaleId(s: Sale): int {
    s.id
  }

  /** The item ids, one per item, in item order. */
  function ItemIds(items: seq<Item>): (ids: seq<int>)
    ensures |ids| == |items|
    ensures forall k :: 0 <= k < |items| ==> ids[k] == items[k].id
  {
    IdsBy(items, ItemId)
  }

  /** The sale ids, one per sale, in sale order. */
  function SaleIds(sales: seq<Sale>): (ids: seq<int>)
    ensures |ids| == |sales|
    ensures forall k :: 0 <= k < |sales| ==> ids[k] == sales[k].id
  {
    IdsBy(sales, SaleId)
  }

  /** Every id lies below the counter that allocates the next one. */
  predicate AllBelow(ids: seq<int>, next: int) {
    forall k :: 0 <= k < |ids| ==> ids[k] < next
  }

  /** No id occurs twice. */
  predicate Distinct(ids: seq<int>) {
    forall i, j :: 0 <= i < j < |ids| ==> ids[i] != ids[j]
  }

  /** find_if on the id: the position of the first item with that id, or
      |items| when no item has it. */
  function IndexOf(items: seq<Item>, id: int): (r: nat)
    ensures r <= |items|
    ensures r < |items| ==> items[r].id == id
    ensures forall k :: 0 <= k < r ==> items[k].id != id
  {
    if items == [] || items[0].id == id then 0
    else 1 + IndexOf(items[1..], id)
  }

  /** The lookup finds an item exactly when some item has the id. */
  lemma IndexOfPresent(items: seq<Item>, id: int)
    ensures IndexOf(items, id) < |items| <==> id in ItemIds(items)
  {
    if id in ItemIds(items) {
      var j :| 0 <= j < |items| && ItemIds(items)[j] == id;
      assert items[j].id == id;
    }
  }

  /** A new id at or above the counter keeps the ids distinct and below the
      incremented counter. */
  lemma AppendFreshId(ids: seq<int>, next: int)
    requires AllBelow(ids, next)
    ensures AllBelow(ids + [next], next + 1)
    ensures Distinct(ids) ==> Distinct(ids + [next])
  {
  }

  lemma ItemIdsAppend(items: seq<Item>, x: Item)
    ensures ItemIds(items + [x]) == ItemIds(items) + [x.id]
  {
  }

  lemma SaleIdsAppend(sales: seq<Sale>, x: Sale)
    ensures SaleIds(sales + [x]) == SaleIds(sales) + [x.id]
  {
  }

  /** Removing the item at position k removes exactly its id. */
  lemma ItemIdsRemove(items: seq<Item>, k: nat)
    requires k < |items|
    ensures ItemIds(items[..k] + items[k + 1..]) == ItemIds(items)[..k] + ItemIds(items)[k + 1..]
  {
  }

  /** Replacing an item by one with the same id leaves the ids alone. */
  lemma ItemIdsReplace(items: seq<Item>, k: nat, x: Item)
    requires k < |items| && x.id == items[k].id
    ensures ItemIds(items[k := x]) == ItemIds(items)
  {
  }

  /** Removing one id keeps the others distinct and below the counter. */
  lemma RemoveKeepsIds(ids: seq<int>, k: nat, next: int)
    requires k < |ids|
    ensures AllBelow(ids, next) ==> AllBelow(ids[..k] + ids[k + 1..], next)
    ensures Distinct(ids) ==> Distinct(ids[..k] + ids[k + 1..])
    ensures Distinct(ids) ==> ids[k] !in ids[..k] + ids[k + 1..]
  {
    var rest := ids[..k] + ids[k + 1..];
    assert forall i :: 0 <= i < |rest| ==> rest[i] == ids[if i < k then i else i + 1];
  }

  /** The whole store state: both collections and both id counters. */
  datatype Snapshot = Snapshot(items: seq<Item>, sales: seq<Sale>, nextItemId: int, nextSaleId: int)

  /** Each counter is positive and above every id it has handed out. */
  predicate CountersAhead(s: Snapshot) {
    && 1 <= s.nextItemId && 1 <= s.nextSaleId
    && AllBelow(ItemIds(s.items), s.nextItemId)
    && AllBelow(SaleIds(s.sales), s.nextSaleId)
  }

  /** No two items share an id, and no two sales do. */
  predicate IdsUnique(s: Snapshot) {
    Distinct(ItemIds(s.items)) && Distinct(SaleIds(s.sales))
  }

  /** A sale keeps both invariants: the sold item keeps its id and the new
      sale takes the sale counter, which moves on. */
  lemma SaleKeepsIds(s: Snapshot, k: nat, x: Item, sale: Sale)
    requires k < |s.items| && x.id == s.items[k].id && sale.id == s.nextSaleId
    ensures ItemIds(s.items[k := x]) == ItemIds(s.items)
    ensures SaleIds(s.sales + [sale]) == SaleIds(s.sales) + [sale.id]
    ensures var t := s.(items := s.items[k := x], sales := s.sales + [sale], nextSaleId := s.nextSaleId + 1);
      && (CountersAhead(s) ==> CountersAhead(t))
      && (CountersAhead(s) && IdsUnique(s) ==> IdsUnique(t))
  {
    ItemIdsReplace(s.items, k, x);
    SaleIdsAppend(s.sales, sale);
    if CountersAhead(s) {
      AppendFreshId(SaleIds(s.sales), s.nextSaleId);
    }
  }

  /** The three default items, with consecutive ids from first. */
  function SeedItems(first: int): (r: seq<Item>)
    ensures |r| == 3 && ItemIds(r) == [first, first + 1, first + 2]
  {
    [ Item(first, "Widget", "Small", 10, 500, 800),
      Item(first + 1, "Bolt", "Red", 3, 50, 100),
      Item(first + 2, "Gadget", "Blue", 20, 1000, 1500) ]
  }

  /** The low-stock threshold of the alert. */
  const LowStockLimit := 5

  predicate IsLowStock(it: Item) {
    it.quantity <= LowStockLimit
  }

  /** The search test: the lower-cased key occurs in the lower-cased name. */
  predicate NameMatches(name: string, key: string) {
    Text.Contains(Text.ToLower(name), Text.ToLower(key))
  }

  /** The items that keep holds of, in their original order. */
  function Filter(items: seq<Item>, keep: Item -> bool): (r: seq<Item>)
    ensures |r| <= |items|
    ensures forall x :: x in r <==> x in items && keep(x)
    ensures (forall x :: x in items ==> keep(x)) ==> r == items
  {
    if items == [] then []
    else (if keep(items[0]) then [items[0]] else []) + Filter(items[1..], keep)
  }

  /** The items listed by the name search, in inventory order. */
  function Search(items: seq<Item>, key: string): (r: seq<Item>)
    ensures forall x :: x in r <==> x in items && NameMatches(x.name, key)
  {
    Filter(items, (x: Item) => NameMatches(x.name, key))
  }

  /** The items listed by the low-stock alert, in inventory order. */
  function LowStock(items: seq<Item>): (r: seq<Item>)
    ensures forall x :: x in r <==> x in items && x.quantity <= 5
  {
    Filter(items, IsLowStock)
  }

  lemma {:induction false} FilterSameTest(items: seq<Item>, f: Item -> bool, g: Item -> bool)
    requires forall x :: x in items ==> f(x) == g(x)
    ensures Filter(items, f) == Filter(items, g)
    decreases |items|
  {
    if items != [] {
      FilterSameTest(items[1..], f, g);
    }
  }

  /** Filtering a concatenation filters each part and keeps them in order;
      with the one-item case below this fixes the result completely: the
      items that pass, each once per occurrence, in list order. */
  lemma {:induction false} FilterAppend(a: seq<Item>, b: seq<Item>, keep: Item -> bool)
    ensures Filter(a + b, keep) == Filter(a, keep) + Filter(b, keep)
    decreases |a|
  {
    if a == [] {
      assert a + b == b;
    } else {
      assert (a + b)[1..] == a[1..] + b;
      FilterAppend(a[1..], b, keep);
    }
  }

  /** No items give none; one item is kept exactly when it passes. */
  lemma FilterOne(x: Item, keep: Item -> bool)
    ensures Filter([], keep) == []
    ensures Filter([x], keep) == if keep(x) then [x] else []
  {
  }

  /** The search lists the matches in inventory order: an item in the middle
      of the list comes after the matches before it and ahead of those after
      it, once, and only when its name matches. */
  lemma SearchInOrder(a: seq<Item>, x: Item, b: seq<Item>, key: string)
    ensures Search(a + [x] + b, key) ==
      Search(a, key) + (if NameMatches(x.name, key) then [x] else []) + Search(b, key)
  {
    var keep := (y: Item) => NameMatches(y.name, key);
    FilterAppend(a + [x], b, keep);
    FilterAppend(a, [x], keep);
    FilterOne(x, keep);
  }

  /** The low-stock alert lists the low items in inventory order, each once
      per occurrence. */
  lemma LowStockInOrder(a: seq<Item>, x: Item, b: seq<Item>)
    ensures LowStock(a + [x] + b) ==
      LowStock(a) + (if x.quantity <= 5 then [x] else []) + LowStock(b)
  {
    FilterAppend(a + [x], b, IsLowStock);
    FilterAppend(a, [x], IsLowStock);
    FilterOne(x, IsLowStock);
  }

  /** The search does not depend on the letter case of the key. */
  lemma SearchIgnoresKeyCase(items: seq<Item>, key: string)
    ensures Search(items, Text.ToLower(key)) == Search(items, key)
  {
    Text.ToLowerIdempotent(key);
    FilterSameTest(items, (x: Item) => NameMatches(x.name, Text.ToLower(key)), (x: Item) => NameMatches(x.name, key));
  }

  /** Every item matches the empty key. */
  lemma EmptyKeyMatchesAll(items: seq<Item>)
    ensures Search(items, "") == items
  {
    forall x | x in items
      ensures NameMatches(x.name, "")
    {
      assert Text.OccursAt(Text.ToLower(x.name), "", 0);
    }
  }
}

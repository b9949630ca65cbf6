/** The CSV persistence of the store. A file is its sequence of lines, or
    None when it cannot be opened. Saving writes one comma-joined row per
    record; loading reads the lines in order, skips blank lines and rows with
    fewer than six fields, converts the first six fields of every other row,
    and raises each id counter past the largest id read. A row whose numbers
    do not convert stops the load. */
module Csv {
  import opened Wrappers
  import Text
  import Decimal
  import opened Records
  import Operations

  /** The six leading fields of a row; fields after the sixth are ignored. */
  type Row = (string, string, string, string, string, string)

  /** An item row: id, name, size/colour, quantity, purchase price, selling price. */
  function ItemFields(it: Item): seq<string> {
    [ Decimal.IntToString(it.id), it.name, it.sizeColor, Decimal.IntToString(it.quantity),
      Decimal.PriceToString(it.purchasePrice), Decimal.PriceToString(it.sellingPrice) ]
  }

  /** A sale row: id, item id, item name, quantity sold, profit, date. */
  function SaleFields(s: Sale): seq<string> {
    [ Decimal.IntToString(s.id), Decimal.IntToString(s.itemId), s.itemName,
      Decimal.IntToString(s.quantitySold), Decimal.PriceToString(s.profit), s.dateSold ]
  }

  function ItemRow(it: Item): string {
    Text.Join(ItemFields(it))
  }

  function SaleRow(s: Sale): string {
    Text.Join(SaleFields(s))
  }

  /** The items file as saved: one row per item, in order. */
  function ItemLines(items: seq<Item>): seq<string> {
    seq(|items|, k requires 0 <= k < |items| => ItemRow(items[k]))
  }

  /** The sales file as saved: one row per sale, in order. */
  function SaleLines(sales: seq<Sale>): seq<string> {
    seq(|sales|, k requires 0 <= k < |sales| => SaleRow(sales[k]))
  }

  /** The rows of one more item. */
  lemma ItemLinesPrefix(items: seq<Item>, k: nat)
    requires k < |items|
    ensures ItemLines(items[..k + 1]) == ItemLines(items[..k]) + [ItemRow(items[k])]
  {
  }

  /** The rows of one more sale. */
  lemma SaleLinesPrefix(sales: seq<Sale>, k: nat)
    requires k < |sales|
    ensures SaleLines(sales[..k + 1]) == SaleLines(sales[..k]) + [SaleRow(sales[k])]
  {
  }

  /** The item of a row, or None when a numeric field does not convert. */
  function DecodeItem(r: Row): Option<Item> {
    match (Decimal.ParseInt(r.0), Decimal.ParseInt(r.3), Decimal.ParsePrice(r.4), Decimal.ParsePrice(r.5))
    case (Some(id), Some(qty), Some(buy), Some(sell)) => Some(Item(id, r.1, r.2, qty, buy, sell))
    case _ => None
  }

  /** The sale of a row, or None when a numeric field does not convert. */
  function DecodeSale(r: Row): Option<Sale> {
    match (Decimal.ParseInt(r.0), Decimal.ParseInt(r.1), Decimal.ParseInt(r.3), Decimal.ParsePrice(r.4))
    case (Some(id), Some(itemId), Some(qty), Some(profit)) => Some(Sale(id, itemId, r.2, qty, profit, r.5))
    case _ => None
  }

  /** What reading one line yields. */
  datatype LineResult<T> = Skip | Record(value: T) | Malformed

  /** One line of a file: blank lines and rows of fewer than six fields are
      skipped; any other row converts to a record or is malformed. */
  function ReadLine<T>(line: string, decode: Row -> Option<T>): LineResult<T> {
    if Text.Trim(line) == [] then Skip
    else
      var f := Text.Fields(line);
      if |f| < 6 then Skip
      else
        match decode((f[0], f[1], f[2], f[3], f[4], f[5]))
        case None => Malformed
        case Some(x) => Record(x)
  }

  /** The records read from a file, and whether a malformed row stopped the
      reading (the records before it are kept). */
  datatype Loaded<T> = Loaded(records: seq<T>, failed: bool)

  /** What each line of a file reads as, in file order. */
  function ReadLines<T>(lines: seq<string>, decode: Row -> Option<T>): seq<LineResult<T>> {
    seq(|lines|, k requires 0 <= k < |lines| => ReadLine(lines[k], decode))
  }

  /** The records of a sequence of line results, in order, up to the first
      malformed one, and whether there was one (the records before it are
      kept). */
  function Collect<T>(results: seq<LineResult<T>>): (r: Loaded<T>)
    ensures |r.records| <= |results|
    decreases |results|
  {
    if results == [] then Loaded([], false)
    else
      var prev := Collect(results[..|results| - 1]);
      if prev.failed then prev
      else
        match results[|results| - 1]
        case Skip => prev
        case Malformed => Loaded(prev.records, true)
        case Record(x) => Loaded(prev.records + [x], false)
  }

  /** The records read from lines, in file order. */
  function LoadLines<T>(lines: seq<string>, decode: Row -> Option<T>): (r: Loaded<T>)
    ensures |r.records| <= |lines|
  {
    Collect(ReadLines(lines, decode))
  }

  /** Every record collected is the record of one of the results. */
  lemma {:induction false} CollectedComeFromResults<T>(results: seq<LineResult<T>>)
    ensures forall x :: x in Collect(results).records ==> Record(x) in results
    decreases |results|
  {
    if results != [] {
      var init := results[..|results| - 1];
      CollectedComeFromResults(init);
      assert forall r :: r in init ==> r in results;
    }
  }

  /** Every record loaded is what some line of the file reads as. */
  lemma LoadedRecordsComeFromLines<T>(lines: seq<string>, decode: Row -> Option<T>)
    ensures forall x :: x in LoadLines(lines, decode).records ==>
      exists k :: 0 <= k < |lines| && ReadLine(lines[k], decode) == Record(x)
  {
    CollectedComeFromResults(ReadLines(lines, decode));
  }

  /** The records of a file that may not exist: a missing file gives none. */
  function FileRecords<T>(file: Option<seq<string>>, decode: Row -> Option<T>): Loaded<T> {
    if file.Some? then LoadLines(file.value, decode) else Loaded([], false)
  }

  /** The counter after loading records with these ids: it starts at 1 and is
      raised to id + 1 by every id at or above it. */
  function NextId(ids: seq<int>): (r: int)
    ensures 1 <= r
    decreases |ids|
  {
    if ids == [] then 1
    else
      var c := NextId(ids[..|ids| - 1]);
      var last := ids[|ids| - 1];
      if last >= c then last + 1 else c
  }

  /** The counter is above every id read, and is either 1 or one above an id
      read: the least positive counter above them all. */
  lemma {:induction false} NextIdBounds(ids: seq<int>)
    ensures AllBelow(ids, NextId(ids))
    ensures NextId(ids) == 1 || NextId(ids) - 1 in ids
    decreases |ids|
  {
    if ids != [] {
      var init := ids[..|ids| - 1];
      NextIdBounds(init);
      assert ids == init + [ids[|ids| - 1]];
    }
  }

  /** One more id read: the counter moves past it if it is not already. */
  lemma NextIdAppend(ids: seq<int>, x: int)
    ensures NextId(ids + [x]) == if x >= NextId(ids) then x + 1 else NextId(ids)
  {
    assert (ids + [x])[..|ids|] == ids;
  }

  /** seedData: the default items appended with ids from the item counter. */
  function Seeded(s: Snapshot): Snapshot {
    s.(items := s.items + SeedItems(s.nextItemId), nextItemId := s.nextItemId + 3)
  }

  /** loadData: the store after reading the items file and then the sales
      file, and whether every row read was well formed. Both collections
      start empty and both counters at 1; when nothing at all was read the
      store is seeded. A malformed item row stops the load before the sales
      file is read. */
  function LoadStore(itemFile: Option<seq<string>>, saleFile: Option<seq<string>>): (Snapshot, bool) {
    var li := FileRecords(itemFile, DecodeItem);
    var withItems := Snapshot(li.records, [], NextId(ItemIds(li.records)), 1);
    if li.failed then (withItems, false)
    else
      var ls := FileRecords(saleFile, DecodeSale);
      var loaded := withItems.(sales := ls.records, nextSaleId := NextId(SaleIds(ls.records)));
      if ls.failed then (loaded, false)
      else if loaded.items == [] && loaded.sales == [] then (Seeded(loaded), true)
      else (loaded, true)
  }

  /** One more line result. */
  lemma CollectStep<T>(results: seq<LineResult<T>>, i: nat)
    requires i < |results| && !Collect(results[..i]).failed
    ensures Collect(results[..i + 1]) ==
      var prev := Collect(results[..i]);
      match results[i]
      case Skip => prev
      case Malformed => Loaded(prev.records, true)
      case Record(x) => Loaded(prev.records + [x], false)
  {
    assert results[..i + 1][..i] == results[..i];
  }

  /** A skipped line leaves the records as they were. */
  lemma CollectSkip<T>(results: seq<LineResult<T>>, i: nat, records: seq<T>)
    requires i < |results| && Collect(results[..i]) == Loaded(records, false)
    requires results[i] == Skip
    ensures Collect(results[..i + 1]) == Loaded(records, false)
  {
    CollectStep(results, i);
  }

  /** A line that converts appends its record. */
  lemma CollectRecord<T>(results: seq<LineResult<T>>, i: nat, records: seq<T>, x: T)
    requires i < |results| && Collect(results[..i]) == Loaded(records, false)
    requires results[i] == Record(x)
    ensures Collect(results[..i + 1]) == Loaded(records + [x], false)
  {
    CollectStep(results, i);
  }

  /** A malformed line result ends the load: all the results give the
      records collected before it, and fail. */
  lemma CollectMalformed<T>(results: seq<LineResult<T>>, i: nat, records: seq<T>)
    requires i < |results| && Collect(results[..i]) == Loaded(records, false)
    requires results[i] == Malformed
    ensures Collect(results) == Loaded(records, true)
  {
    SplitAfter(results, i);
    CollectStep(results, i);
    FailedLoadStays(results[..i + 1], results[i + 1..]);
  }

  lemma SplitAfter<T>(s: seq<T>, i: nat)
    requires i < |s|
    ensures s[..i + 1] + s[i + 1..] == s
  {
  }

  /** Once a malformed line has stopped the load, later lines change nothing. */
  lemma FailedLoadStays<T>(a: seq<LineResult<T>>, b: seq<LineResult<T>>)
    requires Collect(a).failed
    ensures Collect(a + b) == Collect(a)
  {
    CollectConcat(a, b);
  }

  /** The body of the load loops for one line: skips a blank line, splits
      the line with parseCSV, skips a row of fewer than six fields and
      converts the others. */
  method ReadRow<T>(line: string, decode: Row -> Option<T>) returns (res: LineResult<T>)
    ensures res == ReadLine(line, decode)
  {
    if Text.Trim(line) == [] {
      return Skip;
    }
    var data := Text.ParseCsv(line);
    if |data| < 6 {
      return Skip;
    }
    match decode((data[0], data[1], data[2], data[3], data[4], data[5]))
    case None => res := Malformed;
    case Some(x) => res := Record(x);
  }

  /** A record read raises the counter past its id if it is not already. */
  lemma NextIdOfRecord<T>(records: seq<T>, x: T, id: T -> int)
    ensures NextId(IdsBy(records + [x], id)) ==
      var c := NextId(IdsBy(records, id));
      if id(x) >= c then id(x) + 1 else c
  {
    assert IdsBy(records + [x], id) == IdsBy(records, id) + [id(x)];
    NextIdAppend(IdsBy(records, id), id(x));
  }

  /** One load loop of loadData: reads the lines in order and appends every
      record row, raising the counter past each id read; stops at the first
      malformed row with ok false. The item loop and the sale loop are this
      loop with their own record type. */
  method ReadRecords<T>(lines: seq<string>, decode: Row -> Option<T>, id: T -> int)
    returns (records: seq<T>, next: int, ok: bool)
    ensures LoadLines(lines, decode) == Loaded(records, !ok)
    ensures next == NextId(IdsBy(records, id))
  {
    records, next, ok := [], 1, true;
    ghost var results := ReadLines(lines, decode);
    var i := 0;
    while i < |lines|
      invariant 0 <= i <= |lines|
      invariant Collect(results[..i]) == Loaded(records, false)
      invariant next == NextId(IdsBy(records, id))
    {
      var res := ReadRow(lines[i], decode);
      assert res == results[i];
      match res {
        case Skip =>
          CollectSkip(results, i, records);
        case Malformed =>
          CollectMalformed(results, i, records);
          return records, next, false;
        case Record(x) =>
          CollectRecord(results, i, records, x);
          NextIdOfRecord(records, x, id);
          records := records + [x];
          if id(x) >= next {
            next := id(x) + 1;
          }
      }
      i := i + 1;
    }
    assert results[..i] == results;
  }

  /** The item loop of loadData. */
  method ReadItems(lines: seq<string>) returns (items: seq<Item>, nextItemId: int, ok: bool)
    ensures LoadLines(lines, DecodeItem) == Loaded(items, !ok)
    ensures nextItemId == NextId(ItemIds(items))
  {
    items, nextItemId, ok := ReadRecords(lines, DecodeItem, ItemId);
  }

  /** The sale loop of loadData. */
  method ReadSales(lines: seq<string>) returns (sales: seq<Sale>, nextSaleId: int, ok: bool)
    ensures LoadLines(lines, DecodeSale) == Loaded(sales, !ok)
    ensures nextSaleId == NextId(SaleIds(sales))
  {
    sales, nextSaleId, ok := ReadRecords(lines, DecodeSale, SaleId);
  }

  /** Reading more lines only appends: what the first lines gave is kept, in
      order, ahead of what the later lines give. */
  lemma {:induction false} CollectConcat<T>(a: seq<LineResult<T>>, b: seq<LineResult<T>>)
    ensures Collect(a + b) ==
      var la := Collect(a);
      var lb := Collect(b);
      if la.failed then la else Loaded(la.records + lb.records, lb.failed)
    decreases |b|
  {
    if b == [] {
      assert a + b == a;
    } else {
      var b' := b[..|b| - 1];
      assert (a + b)[..|a + b| - 1] == a + b';
      assert (a + b)[|a + b| - 1] == b[|b| - 1];
      CollectConcat(a, b');
      var la := Collect(a);
      var lb' := Collect(b');
      if !la.failed && !lb'.failed {
        assert la.records + lb'.records + [] == la.records + lb'.records;
        match b[|b| - 1]
        case Record(x) =>
          assert la.records + lb'.records + [x] == la.records + (lb'.records + [x]);
        case _ =>
      }
    }
  }

  /** After a load every counter is positive and above every id loaded, on
      every outcome. */
  lemma LoadKeepsCountersAhead(itemFile: Option<seq<string>>, saleFile: Option<seq<string>>)
    ensures CountersAhead(LoadStore(itemFile, saleFile).0)
  {
    var li := FileRecords(itemFile, DecodeItem);
    var ls := FileRecords(saleFile, DecodeSale);
    NextIdBounds(ItemIds(li.records));
    NextIdBounds(SaleIds(ls.records));
    if !li.failed && !ls.failed && li.records == [] && ls.records == [] {
      assert ItemIds([] + SeedItems(1)) == [1, 2, 3];
    }
  }

  /** When no record was read and no row was malformed (no files, or files
      of blank and short lines), the store holds exactly the three default
      items with ids 1, 2 and 3, the item counter is 4 and there are no sales. */
  lemma LoadSeedsWhenEmpty(itemFile: Option<seq<string>>, saleFile: Option<seq<string>>)
    requires FileRecords(itemFile, DecodeItem) == Loaded([], false)
    requires FileRecords(saleFile, DecodeSale) == Loaded([], false)
    ensures LoadStore(itemFile, saleFile) == (Snapshot(SeedItems(1), [], 4, 1), true)
    ensures ItemIds(LoadStore(itemFile, saleFile).0.items) == [1, 2, 3]
  {
    var li := FileRecords(itemFile, DecodeItem);
    var ls := FileRecords(saleFile, DecodeSale);
    assert ItemIds(li.records) == [] && SaleIds(ls.records) == [];
    assert NextId([]) == 1;
    var loaded := Snapshot([], [], 1, 1);
    assert Seeded(loaded) == Snapshot(SeedItems(1), [], 4, 1) by {
      assert [] + SeedItems(1) == SeedItems(1);
    }
  }

  /** Without files the store is seeded. */
  lemma LoadWithoutFiles()
    ensures LoadStore(None, None) == (Snapshot(SeedItems(1), [], 4, 1), true)
  {
    LoadSeedsWhenEmpty(None, None);
  }

  /** A line that starts with a non-whitespace character is not blank. */
  lemma NotBlank(line: string)
    requires line != [] && !Text.IsSpace(line[0])
    ensures Text.Trim(line) != []
  {
  }

  /** A saved item row reads back as the same item, provided its name and
      size/colour contain no comma. */
  lemma ItemRowRoundTrip(it: Item)
    requires ',' !in it.name && ',' !in it.sizeColor
    ensures ReadLine(ItemRow(it), DecodeItem) == Record(it)
  {
    var f := ItemFields(it);
    Decimal.ParseIntOfIntToString(it.id);
    Decimal.ParseIntOfIntToString(it.quantity);
    Decimal.ParsePriceOfPriceToString(it.purchasePrice);
    Decimal.ParsePriceOfPriceToString(it.sellingPrice);
    assert DecodeItem((f[0], f[1], f[2], f[3], f[4], f[5])) == Some(it);
    ReadJoinedRow(f, DecodeItem, it);
  }

  /** A saved sale row reads back as the same sale, provided its item name
      and date contain no comma and the date is not empty. */
  lemma SaleRowRoundTrip(s: Sale)
    requires ',' !in s.itemName && ',' !in s.dateSold && s.dateSold != []
    ensures ReadLine(SaleRow(s), DecodeSale) == Record(s)
  {
    var f := SaleFields(s);
    Decimal.ParseIntOfIntToString(s.id);
    Decimal.ParseIntOfIntToString(s.itemId);
    Decimal.ParseIntOfIntToString(s.quantitySold);
    Decimal.ParsePriceOfPriceToString(s.profit);
    assert DecodeSale((f[0], f[1], f[2], f[3], f[4], f[5])) == Some(s);
    ReadJoinedRow(f, DecodeSale, s);
  }

  /** A row written from six comma-free fields, the first starting with a
      non-whitespace character and the last non-empty, reads as what its
      fields decode to. */
  lemma ReadJoinedRow<T>(f: seq<string>, decode: Row -> Option<T>, x: T)
    requires |f| == 6
    requires ',' !in f[0] && ',' !in f[1] && ',' !in f[2] && ',' !in f[3] && ',' !in f[4] && ',' !in f[5]
    requires f[0] != [] && !Text.IsSpace(f[0][0]) && f[5] != []
    requires decode((f[0], f[1], f[2], f[3], f[4], f[5])) == Some(x)
    ensures ReadLine(Text.Join(f), decode) == Record(x)
  {
    var row := Text.Join(f);
    assert forall k :: 0 <= k < |f| ==> ',' !in f[k];
    Text.JoinStart(f);
    assert row[0] == f[0][0];
    NotBlank(row);
    Text.FieldsOfJoin(f);
  }

  /** A sale saved with an empty date is lost on reload: the row ends in a
      comma, getline does not extract the empty last field, and a row of five
      fields is skipped. */
  lemma EmptyDateSaleIsSkipped(s: Sale)
    requires ',' !in s.itemName && s.dateSold == []
    ensures ReadLine(SaleRow(s), DecodeSale) == Skip
  {
    var f := SaleFields(s);
    var first := f[..5];
    assert f == first + [""];
    Text.EmptyLastFieldIsLost(first);
    Text.JoinStart(f);
    assert SaleRow(s)[0] == f[0][0];
    NotBlank(SaleRow(s));
  }

  /** The text fields of an item that its row carries back: no comma, which
      would split a field, and no newline, which would split the row into
      two lines. */
  predicate ItemStorable(it: Item) {
    ',' !in it.name && ',' !in it.sizeColor && '\n' !in it.name && '\n' !in it.sizeColor
  }

  /** The same for a sale, whose date, the last field of the row, must also
      be non-empty. */
  predicate SaleStorable(s: Sale) {
    && ',' !in s.itemName && ',' !in s.dateSold && '\n' !in s.itemName && '\n' !in s.dateSold
    && s.dateSold != []
  }

  /** Every record of the store can be saved and read back. */
  predicate Storable(s: Snapshot) {
    && (forall k :: 0 <= k < |s.items| ==> ItemStorable(s.items[k]))
    && (forall k :: 0 <= k < |s.sales| ==> SaleStorable(s.sales[k]))
  }

  /** Line results that are all records collect to those records. */
  lemma {:induction false} CollectRecords<T>(results: seq<LineResult<T>>, xs: seq<T>)
    requires |results| == |xs|
    requires forall k :: 0 <= k < |xs| ==> results[k] == Record(xs[k])
    ensures Collect(results) == Loaded(xs, false)
    decreases |xs|
  {
    if xs != [] {
      var n := |xs| - 1;
      CollectRecords(results[..n], xs[..n]);
      assert xs[..n] + [xs[n]] == xs;
    }
  }

  /** A saved items file reads back as the items saved. */
  lemma LoadItemLines(items: seq<Item>)
    requires forall k :: 0 <= k < |items| ==> ItemStorable(items[k])
    ensures LoadLines(ItemLines(items), DecodeItem) == Loaded(items, false)
  {
    var results := ReadLines(ItemLines(items), DecodeItem);
    forall k | 0 <= k < |items|
      ensures results[k] == Record(items[k])
    {
      ItemRowRoundTrip(items[k]);
    }
    CollectRecords(results, items);
  }

  /** A saved sales file reads back as the sales saved. */
  lemma LoadSaleLines(sales: seq<Sale>)
    requires forall k :: 0 <= k < |sales| ==> SaleStorable(sales[k])
    ensures LoadLines(SaleLines(sales), DecodeSale) == Loaded(sales, false)
  {
    var results := ReadLines(SaleLines(sales), DecodeSale);
    forall k | 0 <= k < |sales|
      ensures results[k] == Record(sales[k])
    {
      SaleRowRoundTrip(sales[k]);
    }
    CollectRecords(results, sales);
  }

  /** Saving a non-empty store and loading it back gives the same items and
      sales in the same order; each counter resumes just above the largest id
      present, which is never above the counter before the save. */
  lemma SaveLoadRoundTrip(s: Snapshot)
    requires Storable(s)
    requires s.items != [] || s.sales != []
    ensures LoadStore(Some(ItemLines(s.items)), Some(SaleLines(s.sales))) ==
      (Snapshot(s.items, s.sales, NextId(ItemIds(s.items)), NextId(SaleIds(s.sales))), true)
    ensures CountersAhead(s) ==>
      NextId(ItemIds(s.items)) <= s.nextItemId && NextId(SaleIds(s.sales)) <= s.nextSaleId
  {
    LoadItemLines(s.items);
    LoadSaleLines(s.sales);
    NextIdBounds(ItemIds(s.items));
    NextIdBounds(SaleIds(s.sales));
  }

  /** Ids are reused across a save and a reload. A store holds items 1 and 2
      with the item counter at 3; item 2 is deleted and the store is saved
      and loaded again. The reloaded counter is 2, one above the largest id
      left, so the next item added is given the deleted id 2. */
  lemma ReloadReusesDeletedId(a: Item, b: Item, name: string, sizeColor: string, quantity: int, purchasePrice: int, sellingPrice: int)
    requires a.id == 1 && b.id == 2 && ItemStorable(a) && ItemStorable(b)
    ensures var s := Snapshot([a, b], [], 3, 1);
      var (deleted, t) := Operations.Delete(s, 2);
      var (reloaded, ok) := LoadStore(Some(ItemLines(t.items)), Some(SaleLines(t.sales)));
      && CountersAhead(s) && IdsUnique(s) && deleted && ok
      && Operations.Add(reloaded, name, sizeColor, quantity, purchasePrice, sellingPrice).0 == 2
  {
    var s := Snapshot([a, b], [], 3, 1);
    assert ItemIds(s.items) == [1, 2];
    assert IndexOf(s.items, 2) == 1;
    var (deleted, t) := Operations.Delete(s, 2);
    assert t.items == [a];
    assert Storable(t);
    SaveLoadRoundTrip(t);
    assert ItemIds(t.items) == [1];
    assert NextId([1]) == 2 by {
      assert [1][..0] == [];
    }
  }
}

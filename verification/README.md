# Inventory manager — a Dafny model

This project models the logic layer of a small console inventory manager
written in C++ (`main.cpp`). The program keeps two in-memory collections and
two id counters:

- `items`, the stocked products;
- `sales`, the completed sales;
- `nextItemId` and `nextSaleId`, which hand out ids.

Four operations change that state: add, delete, update and sell an item. Both
collections are saved to and loaded from two comma-separated files. A few
string helpers (trim, lower-case, the "cancel" test) and two read-only
queries (name search, low-stock alert) complete the core.

Modules, in dependency order:

- `Wrappers`: `Option`.
- `Text`: whitespace trimming, C-locale lower-casing, the cancel test,
  substring search, and the field split of a CSV line. The field split has a
  pure definition (`Fields`) and the character loop that computes it
  (`ParseCsv`). The join of fields into one row is its partner.
- `Decimal`: the text of the numeric fields. Integers are written and read
  as an optional `-` and digits. Prices are whole cents written with two
  decimals. Each writer has a round-trip lemma with its reader.
- `Records`: the `Item` and `Sale` records, the lookup of the first item
  with an id, the two id invariants, the seed items, and the two queries.
- `Operations`: the four state-changing operations as functions from the
  state before to the outcome and the state after. Lemmas state their
  success and failure cases, their frames and the invariants they keep.
- `Csv`: the row format, the reading of a file line by line, the counter
  recovery, the whole load, and the save→load round trip.
- `Inventory`: `class Store` holds the four fields. It performs each operation
  in place with `modifies this`, and each method is proved equal to its
  `Operations` function. It also holds the save, seed and load loops.

Modelling choices:

- Prices and profits are `int` cents, so `profit = (sell - buy) * qty` is
  exact.
- A file is `Option<seq<string>>`, its lines, with `None` when it cannot be
  opened.
- The clock reading stamped on a sale is a `date` parameter.

Behaviours of the code worth knowing, which the model keeps:

- **Id reuse.** `nextItemId` and `nextSaleId` are auto-increment counters
  (`main.cpp:40-41`), so one would expect ids never to be reused. Within a
  session this holds (`Inventory.AddDeleteAdd`). The counters are not saved,
  however: `loadData` recovers each one as one above the largest id in its
  file (`main.cpp:271`, `main.cpp:294`). A deleted item that had the largest
  id gets its id handed out again after a save and a reload
  (`Csv.ReloadReusesDeletedId`).
- **Commas in text fields.** The save format does not escape commas, so a
  name containing one reads back as different fields. Every row also ends
  in a newline and the file is read line by line, so a name containing a
  newline splits its row into two lines, each with too few fields, and the
  record is lost. The round-trip lemmas therefore require text fields with
  neither character (`Csv.ItemStorable`, `Csv.SaleStorable`).
- **Empty last field.** `getline` does not extract an empty field after a
  trailing comma. A sale saved with an empty date is therefore skipped on
  reload (`Csv.EmptyDateSaleIsSkipped`).

## Model

| member | source | states |
|---|---|---|
| `Inventory.Store.constructor` | main.cpp:38-41 | the store starts with no items and no sales and both counters at 1, which satisfies both id invariants |
| `Inventory.Store.FindItem` | main.cpp:131 | the `find_if` loop returns the position of the first item with the id, or the item count when there is none (`Records.IndexOf`) |
| `Records.IndexOf` | main.cpp:131 | the result is at most the item count; an item found has the id; every item before it has another id |
| `Records.IndexOfPresent` | main.cpp:131-132 | the lookup finds an item exactly when some item carries the id |
| `Inventory.Store.AddItem` | main.cpp:117-121 | the returned id and the new state are those of `Operations.Add` on the old state |
| `Operations.AddAppends` | main.cpp:117-121 | add returns the old item counter and appends exactly one item with the given fields after the unchanged old items; the counter goes up by one; sales and the sale counter are untouched |
| `Operations.AddKeepsIds` | main.cpp:118-119 | with every id below the counter, the new id is fresh and the lookup finds the new item at the end; both id invariants are preserved |
| `Inventory.Store.DeleteItem` | main.cpp:130-137 | the result and the new state are those of `Operations.Delete` on the old state |
| `Operations.DeleteRemoves` | main.cpp:130-137 | delete returns true exactly when the id is present; it then removes exactly the first item with that id and keeps the others in order; otherwise nothing changes; sales and counters are never touched |
| `Operations.DeleteKeepsIds` | main.cpp:130-137 | delete preserves both id invariants; with unique ids no item with the deleted id remains |
| `Inventory.Store.UpdateItem` | main.cpp:149-158 | the result and the new state are those of `Operations.Update` on the old state |
| `Operations.UpdateOverwrites` | main.cpp:149-158 | update returns true exactly when the id is present; that item gets the new quantity and prices and keeps its id, name and size/colour; every other item, the ids, the sales and the counters are unchanged; on an absent id nothing changes |
| `Operations.UpdateKeepsIds` | main.cpp:149-158 | update preserves both id invariants |
| `Inventory.Store.SellItem` | main.cpp:168-182 | the result and the new state are those of `Operations.Sell` on the old state, the clock reading being the date parameter |
| `Operations.SellFailures` | main.cpp:168-172 | status 1 exactly when the id is absent; status 2 exactly when qty exceeds the item's stock; on both nothing changes and no profit is produced; status 0 exactly on a sale; qty at or below zero is not refused |
| `Operations.SellRecords` | main.cpp:172-181 | a sale earns (selling − purchase price) × qty, takes exactly qty off that item, changes no other item, appends one sale with the old sale counter, the item's id, its current name, qty, the profit and the date, and moves the sale counter on by one |
| `Operations.SellKeepsIds` | main.cpp:174-178 | a sale preserves both id invariants |
| `Inventory.AddDeleteAdd` | main.cpp:117-137 | within a session an item added after another was added and deleted gets a larger id, the deleted id is gone, the new item is last, and both invariants hold |
| `Inventory.UnknownIdExample` | main.cpp:130-170 | on an empty store delete and update report false and sell reports status 1 |
| `Inventory.SellExample` | main.cpp:168-181 | selling 4 of an item bought at 5.00 and sold at 8.00 with 10 in stock earns 12.00, leaves 6 and records one sale with id 1 |
| `Inventory.StockCheckExample` | main.cpp:168-176 | selling more than the stock gives status 2; a negative qty is sold and raises the stock |
| `Text.TrimStart` | main.cpp:49 | the result is the suffix of the input after its leading whitespace, and starts with a non-whitespace character if not empty |
| `Text.TrimEnd` | main.cpp:51 | the result is the prefix of the input before its trailing whitespace, and ends with a non-whitespace character if not empty |
| `Text.Trim` | main.cpp:48-53 | the result is a slice of the input with only whitespace before and after it; it is empty exactly when the input is all whitespace, and otherwise starts and ends with a non-whitespace character |
| `Text.TrimIdempotent` | main.cpp:48-53 | trimming twice is trimming once |
| `Text.LowerChar` | main.cpp:57 | `tolower` in the C locale: only `A`–`Z` change, and none is left; whitespace stays whitespace |
| `Text.ToLower` | main.cpp:55-58 | same length, every character lower-cased |
| `Text.ToLowerIdempotent` | main.cpp:55-58 | lower-casing twice is lower-casing once |
| `Text.TrimLowerCommute` | main.cpp:60-62 | trimming and lower-casing commute |
| `Text.CancelIgnoresCase` | main.cpp:60-63 | the cancel test gives the same answer on the lower-cased input |
| `Text.CancelIgnoresSpace` | main.cpp:60-63 | the cancel test gives the same answer on the trimmed input |
| `Text.Fields` | main.cpp:226-234 | a line gives no fields exactly when it is empty |
| `Text.FieldsHaveNoComma` | main.cpp:230-232 | no field of a parsed line contains a comma |
| `Text.FieldsAtComma` | main.cpp:230-232 | the text before the first comma is the first field, and parsing continues after it |
| `Text.FieldsWithoutComma` | main.cpp:226-234 | a non-empty line without a comma is one field |
| `Text.ParseCsv` | main.cpp:226-234 | the character loop that builds the field list computes exactly `Fields` of the line |
| `Text.FieldsOfJoin` | main.cpp:194-199 | parsing a saved row gives back its fields when none contains a comma and the last one is not empty |
| `Text.JoinOfFields` | main.cpp:226-234 | joining the fields of a line with commas gives the line back unless it ends in a comma |
| `Text.EmptyLastFieldIsLost` | main.cpp:230-232 | a row whose last field is empty parses without that field |
| `Decimal.IntToString` | main.cpp:194 | an integer field is non-empty text with no comma and no leading whitespace |
| `Decimal.ParseIntOfIntToString` | main.cpp:264-267 | reading an integer field gives back the integer written |
| `Decimal.PriceToString` | main.cpp:198-199 | a price field is non-empty text with no comma and no leading whitespace |
| `Decimal.ParsePriceOfPriceToString` | main.cpp:268-269 | reading a price field gives back the amount written |
| `Inventory.Store.Save` | main.cpp:189-222 | the two files as written are one row per item and one row per sale, in collection order (`Csv.ItemLines`, `Csv.SaleLines`) |
| `Csv.ItemRowRoundTrip` | main.cpp:194-199 | a saved item row reads back as the same item when its name and size/colour contain no comma |
| `Csv.SaleRowRoundTrip` | main.cpp:211-216 | a saved sale row reads back as the same sale when its item name and date contain no comma and the date is not empty |
| `Csv.EmptyDateSaleIsSkipped` | main.cpp:216 | a sale saved with an empty date ends its row in a comma, parses to five fields and is skipped on reload |
| `Csv.ReadRow` | main.cpp:258-262 | one line: blank lines and rows of fewer than six fields are skipped; other rows convert to a record or are malformed |
| `Csv.ReadRecords` | main.cpp:256-276 | the load loop reads exactly what `LoadLines` specifies, and its counter ends at `NextId` of the ids read |
| `Csv.ReadItems` | main.cpp:256-276 | the items loop: the items read and the item counter are those of the file's lines |
| `Csv.ReadSales` | main.cpp:279-299 | the sales loop: the sales read and the sale counter are those of the file's lines |
| `Csv.LoadLines` | main.cpp:257-275 | a file gives at most one record per line |
| `Csv.LoadedRecordsComeFromLines` | main.cpp:258-274 | every record loaded is what some line of the file reads as |
| `Csv.CollectConcat` | main.cpp:257-275 | reading more lines only appends records: what the first lines gave is kept, in order, and a malformed row ends the reading |
| `Csv.NextIdBounds` | main.cpp:271 | the recovered counter is above every id read, and is 1 or one above an id read |
| `Csv.NextIdAppend` | main.cpp:271 | one more id read moves the counter to one past it when it is at or above the counter, and leaves it otherwise |
| `Csv.LoadKeepsCountersAhead` | main.cpp:249-304 | after any load both counters are at least 1 and above every id loaded |
| `Csv.LoadSeedsWhenEmpty` | main.cpp:301-303 | when nothing was read and nothing was malformed, the store holds exactly the three seed items with ids 1, 2 and 3, the item counter is 4 and there are no sales |
| `Csv.LoadWithoutFiles` | main.cpp:249-304 | with neither file present the store is seeded |
| `Inventory.Store.Load` | main.cpp:249-304 | the loop state after the load is `Csv.LoadStore` of the two files, and both counters are ahead of every id |
| `Inventory.Store.SeedData` | main.cpp:239-244 | appends the three default items with ids from the item counter, which moves on by three (`Csv.Seeded`) |
| `Records.SeedItems` | main.cpp:240-242 | the three default items have consecutive ids from the counter |
| `Csv.LoadItemLines` | main.cpp:256-276 | a saved items file reads back as exactly the items saved, in order |
| `Csv.LoadSaleLines` | main.cpp:279-299 | a saved sales file reads back as exactly the sales saved, in order |
| `Csv.SaveLoadRoundTrip` | main.cpp:249-304 | saving a non-empty store with storable text and loading it gives the same items and sales in the same order; each counter resumes one above the largest id present, never above its value before the save |
| `Csv.ReloadReusesDeletedId` | main.cpp:249-276 | a store with items 1 and 2 and the item counter at 3 deletes item 2, is saved and loaded again; the reload succeeds and the next item added gets id 2 again |
| `Records.Filter` | main.cpp:372-385 | the items kept are exactly those in the list that pass the test, and no more of them than in the list |
| `Records.FilterAppend` | main.cpp:373-374 | filtering a concatenation is the concatenation of the filtered parts, in order |
| `Records.FilterOne` | main.cpp:374-375 | no items give none; one item is kept exactly when it passes; with `FilterAppend` this fixes the result as the passing items in list order, once per occurrence |
| `Records.SearchInOrder` | main.cpp:373-384 | the search lists an item after the matches before it and ahead of those after it, once, exactly when its lower-cased name contains the lower-cased key |
| `Records.Search` | main.cpp:374-375 | an item is listed exactly when its lower-cased name contains the lower-cased key |
| `Records.SearchIgnoresKeyCase` | main.cpp:371-375 | searching for the lower-cased key lists the same items |
| `Records.EmptyKeyMatchesAll` | main.cpp:374-375 | every item matches the empty key |
| `Records.LowStock` | main.cpp:395 | an item is listed exactly when its quantity is at most 5 |
| `Records.LowStockInOrder` | main.cpp:394-398 | the alert lists an item after the low items before it and ahead of those after it, once, exactly when its quantity is at most 5 |
| `Operations.Add` | main.cpp:117-121 | definition of add on the state; its properties are `Operations.AddAppends` and `Operations.AddKeepsIds` |
| `Operations.Delete` | main.cpp:130-137 | definition of delete on the state; its properties are `Operations.DeleteRemoves` and `Operations.DeleteKeepsIds` |
| `Operations.Update` | main.cpp:149-158 | definition of update on the state; its properties are `Operations.UpdateOverwrites` and `Operations.UpdateKeepsIds` |
| `Operations.Sell` | main.cpp:168-182 | definition of sell on the state; its properties are `Operations.SellFailures`, `Operations.SellRecords` and `Operations.SellKeepsIds` |
| `Csv.LoadStore` | main.cpp:249-304 | definition of the whole load; its properties are `Csv.LoadKeepsCountersAhead`, `Csv.LoadSeedsWhenEmpty` and `Csv.SaveLoadRoundTrip` |
| `Csv.Seeded` | main.cpp:239-244 | definition of seeding on the state, computed in place by `Inventory.Store.SeedData` |
| `Csv.NextId` | main.cpp:271 | the counter recovered from the ids read, always at least 1; its meaning is `Csv.NextIdBounds` and `Csv.NextIdAppend` |
| `Csv.Collect` | main.cpp:257-275 | the records of the line results in order up to the first malformed row, never more records than lines; see `Csv.CollectConcat` |
| `Csv.ReadLine` | main.cpp:258-262 | definition of reading one line, computed by `Csv.ReadRow` |
| `Csv.DecodeItem` | main.cpp:263-270 | definition of the item conversion of a row; `Csv.ItemRowRoundTrip` states it inverts the save |
| `Csv.DecodeSale` | main.cpp:286-293 | definition of the sale conversion of a row; `Csv.SaleRowRoundTrip` states it inverts the save |
| `Csv.ItemRow` | main.cpp:194-199 | definition of an item row; `Csv.ItemRowRoundTrip` states it reads back |
| `Csv.SaleRow` | main.cpp:211-216 | definition of a sale row; `Csv.SaleRowRoundTrip` states it reads back |
| `Text.IsCancel` | main.cpp:60-63 | definition of the cancel test; see `Text.CancelIgnoresCase` and `Text.CancelIgnoresSpace` |
| `Text.Join` | main.cpp:194-199 | definition of writing fields with a comma between each two; `Text.FieldsOfJoin` and `Text.JoinOfFields` relate it to `Text.Fields` |
| `Text.Contains` | main.cpp:375 | definition of `find(key) != npos`; see `Records.EmptyKeyMatchesAll` |
| `Decimal.ParseInt` | main.cpp:264 | definition of reading an integer field; `Decimal.ParseIntOfIntToString` states it inverts the writer |
| `Decimal.ParsePrice` | main.cpp:268-269 | definition of reading a price field; `Decimal.ParsePriceOfPriceToString` states it inverts the writer |

## Left out

- Console I/O is not modelled: `promptLine`, every `ui_*` function and the menu loop of `main`. They only prompt and print. The search and low-stock tests are kept as queries.
- File streams are not modelled: opening, closing and the status messages. A file is its sequence of lines, `None` when it cannot be opened, and save returns the two line sequences.
- `getCurrentDate` is not modelled, because it reads the clock. The sale date is a parameter.
- Prices and profit are `double` in the source. The model uses exact `int` cents, so rounding and IEEE behaviour are not captured.
- The stream's default six-significant-digit formatting of prices is not modelled. Prices are written as `units.cc`.
- `stoi`/`stod` accept a leading number followed by junk and throw on text without one. The model's parsers accept only the whole field as digits, with an optional `-` and, for prices, up to two decimals.
- A throw from `stoi`/`stod` during `loadData` is not caught and ends the program. The model instead ends the load with `ok` false and keeps the records read so far.
- `toInt` and `toDouble` (main.cpp:65-83) are not modelled; they serve only the console input.
- 32-bit overflow of the id counters, of `quantity` and of the `long`→`int` cast is not modelled: integers are unbounded.
- Line endings are not modelled: a file is already split into lines. A newline inside a text field, which splits its row in two on reload, is therefore outside the round-trip lemmas, which require its absence (`Csv.ItemStorable`, `Csv.SaleStorable`).
- `Text.LowerChar` lower-cases ASCII letters only, as `tolower` does in the C locale; other locales are not modelled.

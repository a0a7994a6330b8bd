# Warehouse order bookkeeping (depo-web), modelled in Dafny

The warehouse tool keeps the marketplace orders of a small shop in one JSON
store (`output.json`). It fetches new orders page by page from the
Entegra API and merges them in. A list of invoiced order numbers
(`done_orders.json`) keeps those orders from coming back. Old delivered
orders move to `archive.json`. The tool also shows a pick list ("depo"):
the open orders' line items grouped per product, sorted and searchable. Shelf
locations for the products are kept in `locations.csv`.

Three front ends sit on top of this logic: two FastAPI servers
(`serverdeneme/server.py` and `serverdeneme/server2.py`) and a Tk desktop
window (`main.py`). Each filters the orders by status bucket, platform,
cargo company and date. Each ticks the `collected` flag of line items by
barcode, cancels or prints orders, and colours them by urgency. The shipping
label (`invoice.py`) word-wraps the address and chooses the order number and
the barcode text.

The model works on decoded JSON, in these modules:
- `Records`: orders and line items. A JSON scalar whose absence, `null`-ness
  or `str()` matters is a `Field`.
- `Text`: the Python string operations that are used.
- `Seqs`: the order-preserving sub-list relation.
- `Storage`: the files, as a `Disk` class whose fields the operations
  rewrite. A file that cannot be read is explicit.
- `Api`, `Utils`, `Depo`: the bookkeeping modules of the same names.
- `StoreEdits`, `OrderFilters`, `Picklist`, `Locations`, `Urgency`: logic
  shared by the front ends.
- `Server`, `Server2`, `Gui`: the front ends.
- `Invoice`: the label.

Loops in the source are methods with loop invariants. Each is proved equal to
a specification function, and the properties are proved as lemmas about
those functions. Every timestamp is already parsed, in whole seconds
(`None` when missing or malformed). The current time is a parameter `now`.

The variants disagree with each other, and lemmas make this visible:
- The merge keeps a stored order over a fetched copy (`Api.MergeStoredWins`).
  The first server's refresh fallback overwrites it
  (`Server.FallbackOverwritesMergeKeeps`). That fallback runs only when
  importing `merge_and_save_orders` fails (serverdeneme/server.py:30-33), so
  with the shipped api.py, which defines it, the fallback is never reached.
- The second server cancels an order by writing "İptal Edildi". Its own
  filters do not recognise that name as cancelled. Python's `lower()` turns
  the dotted capital İ into "i" followed by a combining dot above (U+0307),
  so "iptal" does not occur in the result (`Server2.CancelledOrderStaysListed`,
  `Server2.PythonCancelledNameNotIptal`).
  The desktop window also checks for status "-1", so there the order does
  move (`Gui.CancelledOrderMoves`).
- If a surviving order's date does not parse, the second server's order list
  skips the date filters entirely (`Server2.UndatedOrderSkipsDates`). The
  warehouse view lets only that one order through (`Depo.InDateRange`). The
  first server and the desktop window fail instead
  (`Server.IndexOrdersSpec`, `Gui.CardsFilterSpec`).

In several places the code does less than it is evidently meant to do; the
model follows the code:
- The merge is meant never to create two entries with one identifier. The
  code keeps two copies of an order that arrive in the same fetched batch
  (`Api.BatchDuplicatesKept`).
- The merge is meant to be idempotent. The code is idempotent only while the
  store holds no done order (`Api.MergeIdempotent`), and
  `Api.MergeNotIdempotentWithDoneStored` gives a counterexample.
- Failures are meant to degrade to empty results. Yet `delete_order` raises
  on an unreadable store, and the first server's order list and the desktop
  window raise on a date that does not parse. The model returns these
  failures as explicit results. (Both servers also raise on a null status
  name, which the model does not represent; see "## Left out".)
- Under "ALL" ("TÜMÜ"), the order list is meant to hold no cancelled order.
  In the second server, an order it cancelled itself stays listed.

## Model

| member | source | states |
|---|---|---|
| Storage.Disk.Orders | api.py:81-87 | reading the store gives the stored list, and [] whenever the file is missing or unreadable |
| Storage.Disk.SaveOrders | api.py:77-79 | saving replaces the whole store with the given list and leaves the other files alone |
| Records.HourOfDay | utils.py:17 | the hour of a timestamp lies in 0..23 and is the hour of the day the second falls in |
| Api.DoneSet | api.py:57-61 | a missing or unreadable done file is the empty set; otherwise the set holds exactly the listed ids |
| Api.Unseen | api.py:68-71 | the fetched orders kept are exactly those whose `str(no or id)` no stored order has, in fetch order |
| Api.NotDone | api.py:72 | the orders kept are exactly those with neither `str(no)` nor `str(order_number)` done, in their original order |
| Api.NotDoneAppend | api.py:70-72 | the done filter distributes over concatenation, so stored and fetched orders are filtered independently |
| Api.NotDoneKeepsAll | api.py:72 | a list with no done order passes the done filter unchanged |
| Api.NotDoneDropsAll | api.py:72 | a list of done orders is filtered away entirely |
| Api.Merge | api.py:55-75 | an order is in the result exactly when it is not done and is either stored or fetched with a key no stored order has; the result is a sub-list of stored ++ fetched (so no longer than both), and every stored order that is not done comes first, unchanged and in order |
| Api.MergeStoredWins | api.py:68-73 | every stored order that is not done survives unchanged; everything after the survivors is a fetched order whose key no stored order has, so a stored copy wins over a fetched one; every fetched order that is not done and has an unseen key is added |
| Api.BatchDuplicatesKept | api.py:71 | two copies of one order in the same fetched batch are both kept |
| Api.MergeIdempotent | api.py:68-73 | merging the same batch again changes nothing when no done order is stored |
| Api.MergeNotIdempotentWithDoneStored | api.py:68-73 | with a done order stored, merging twice differs from merging once: the dropped stored order no longer blocks its fetched copy |
| Api.MergeAndSaveOrders | api.py:55-75 | the store becomes the merge of what the store and the done file held, with unreadable files read as empty |
| Api.PagesRead | api.py:42-53 | the number of pages read never exceeds the pages there are |
| Api.PagesReadStops | api.py:45-52 | the pages read are non-empty, all but the last are full (200 orders), and reading stops at the end of the pages, at an empty page or after a short page |
| Api.ConcatSnoc | api.py:49 | extending by one page appends that page's orders |
| Api.GetAllOrders | api.py:42-53 | the paging loop returns the concatenation, in order, of exactly the pages it reads |
| Api.ArchivePartition | api.py:97-107 | keep and archive together are a permutation of the input; an order is archived exactly when its date parses, its status is the string "4" and it is at least `days` whole days old |
| Api.ArchivePartsInOrder | api.py:97-107 | both halves keep the input's relative order |
| Api.Partition | api.py:97-107 | the loop appends each order to keep or to archive as the partition specifies |
| Api.ArchiveOldOrders | api.py:89-111 | the store is rewritten with the kept orders and the archive file with the archived ones; an unreadable store counts as empty |
| Utils.CalcDaysAgo | utils.py:5-12 | the label is empty exactly when the date does not parse; otherwise it is "-", the whole days elapsed (rounded down) and " gün" |
| Utils.GetHour | utils.py:14-19 | the result is an hour 0..23: the timestamp's hour, or 0 when it does not parse |
| Utils.InsertSorted | utils.py:22 | inserting into a strictly sorted list keeps it strictly sorted and adds exactly the one string |
| Utils.UniqueListSpec | utils.py:21-22 | `unique_list` is strictly sorted (no repeats) and holds exactly the non-empty, not all-whitespace inputs |
| Utils.SortedByMembers | utils.py:22 | two strictly sorted lists with the same members are equal |
| Utils.UniqueListCanonical | utils.py:21-22 | `unique_list` is the one strictly sorted list of the admitted strings |
| Utils.Remove | utils.py:29-39 | the kept orders are exactly those whose `str(no)` and `str(order_number)` differ from the key, in their original order |
| Utils.RemoveIdempotent | utils.py:29-39 | removing a number twice is removing it once |
| Utils.RemoveNothing | utils.py:29-39 | removing a number no order carries changes nothing |
| Utils.AnyMatchSnoc | utils.py:36-37 | one more order matches the key iff an earlier one did or the new one does |
| Utils.Remaining | utils.py:31-39 | the loop keeps the non-matching orders in order and reports whether any matched |
| Utils.DeleteOrder | utils.py:25-47 | an unreadable store raises and is left alone; otherwise the matching orders are dropped, and the file is rewritten only when one matched |
| Utils.AddDone | utils.py:56-57 | the id is appended at the end unless already present: old entries keep their order, the id is present afterwards, and nothing else is added |
| Utils.AddDoneIdempotent | utils.py:56-57 | recording the same id twice gives the list recording it once gives |
| Utils.AddToDoneOrders | utils.py:49-59 | a missing file starts an empty list, an unreadable one raises and is left alone, otherwise `str(order_no)` is recorded once |
| Utils.DoneNeverMergedBack | api.py:72 | once a number is recorded as done, no later merge lets an order with that `no` or `order_number` into the store |
| Depo.FirstKnownInSpec | depo.py:14-27 | the name found is one of the marketplace names and occurs in the input, and no earlier one does; finding none means none occurs |
| Depo.NormalizePlatformSpec | depo.py:12-28 | the result is the first marketplace name in the stripped, lower-cased input, or that cleaned input when it holds none |
| Depo.KnownPlatformsUnambiguous | depo.py:14-27 | no marketplace name contains a name tried before it, so the order of the tests does not hide one |
| Depo.FirstKnownOfKnown | depo.py:14-27 | a marketplace name is recognised as itself |
| Depo.FirstKnownSkips | depo.py:14-27 | the first name that occurs is the one returned |
| Depo.NormalizeKnown | depo.py:12-28 | normalising a marketplace name gives it back |
| Depo.NormalizeIdempotent | depo.py:12-28 | normalising twice is normalising once |
| Depo.KisaAd | depo.py:91-92 | a name of at most 46 characters is unchanged; a longer one is its first 46 characters plus "..." |
| Depo.KisaAdIdempotent | depo.py:91-92 | shortening twice is shortening once |
| Depo.IsChecked | depo.py:301-305 | a row is ticked exactly when every line filed under it is collected (vacuously when there are none) |
| Depo.SiparisNo | depo.py:70 | a bucket's order number is `order_number` when present, else `order_no` when present, else `id` when present, else ""; each case is fixed separately |
| Depo.Lines | depo.py:52 | one pair per line item of the order, in order, each paired with that order |
| Depo.FlatMembers | depo.py:32-66 | a pair is contributed exactly when its order is in the input, is admitted and the pair is one of that order's lines |
| Depo.ContributionsFromPassingOrders | depo.py:33-51 | every contributed line comes from an input order that is open, on the chosen platform and within the dates |
| Depo.WithKeyMembers | depo.py:53-66 | the lines under a key are exactly the pairs with that (name, barcode) key |
| Depo.MinLabelIsLeast | depo.py:61-68 | a row's age label is one of its lines' labels, and no line's label sorts before it as text |
| Depo.AgeLabelsCompareAsText | depo.py:67-68 | labels are compared as text, not as day counts: "-10 gün" sorts before "-2 gün", but so does "-1 gün", and the empty label sorts first |
| Depo.AddShareLookup | depo.py:69-77 | adding a share keeps one bucket per platform and appends the share to that platform's bucket only |
| Depo.GroupInvariant | depo.py:52-77 | after the loop there is one product per (name, barcode); each has its first line's stock code, the summed quantity, the least age label and per-platform buckets of its lines; its lines are exactly the pairs with its key, in encounter order; every pair has its product |
| Depo.InsertByNamePerm | depo.py:79 | inserting one product adds exactly that product |
| Depo.InsertByNameSorted | depo.py:79 | inserting into a list sorted by lower-cased name keeps it sorted |
| Depo.InsertByNameStable | depo.py:79 | inserting keeps equal-named products in their order, the new one last |
| Depo.SortByNameSpec | depo.py:79 | the sort is ordered by lower-cased name, is a permutation and is stable |
| Depo.FilterTerm | depo.py:80-88 | the search keeps exactly the products whose name, barcode or stock code contains the term, in order |
| Depo.Search | depo.py:80-88 | an empty term keeps everything; otherwise the lower-cased term selects as above |
| Depo.SortedSubseq | depo.py:78-88 | leaving products out keeps the list sorted |
| Depo.PlatformTest | depo.py:39-42 | an empty or "TÜMÜ" filter admits every order; otherwise the upper-cased normalised platform must equal the stripped, upper-cased filter |
| Depo.DateTest | depo.py:43-51 | bounds are inclusive, and an order whose date does not parse is never excluded by date |
| Depo.OrderPasses | depo.py:33-51 | an order contributes iff no closing keyword is in its lower-cased status and it passes the platform and date tests |
| Depo.FileLines | depo.py:52-77 | filing one order's lines leaves the grouping of all lines seen so far |
| Depo.GetDepoUrunler | depo.py:30-89 | the loops give the search over the name-sorted grouping of the lines of the passing orders |
| Depo.DepoUrunlerSorted | depo.py:78-89 | the rows returned are sorted by lower-cased name |
| Depo.DepoUrunlerFromGroup | depo.py:78-89 | every row returned is one of the grouped products |
| Depo.DepoUrunlerRows | depo.py:52-89 | every row returned agrees with its lines, and its lines are all lines with its key |
| Depo.DepoUrunlerCovers | depo.py:52-89 | with no search term, every contributed line appears under a row |
| Depo.DepoUrunlerSpec | depo.py:30-89 | every row agrees with its lines, which come from passing input orders; with no search term, every such line is shown |
| Picklist.LocationOf | serverdeneme/server.py:180 | a product's shelf is the registry's entry for its name, or "" |
| Picklist.MarkRows | serverdeneme/server.py:179-182 | one row per product, in order, each with its shelf and whether all its lines are collected |
| Picklist.MarkPicklist | serverdeneme/server.py:179-182 | the first server's loop marks every product and drops none |
| Picklist.UnfinishedRows | serverdeneme/server2.py:190-196 | the second server's loop keeps exactly the marked rows that still have an uncollected line |
| Picklist.UnfinishedRowsSpec | serverdeneme/server2.py:190-196 | those rows are a sub-list of the marked rows, and a row is kept iff some line is not collected |
| Locations.ApplyKeys | serverdeneme/server.py:95-97 | after the rows, the names present are the old ones plus those a row of two or more fields names |
| Locations.ApplyLastWins | serverdeneme/server.py:95-97 | the last row naming a product sets its location |
| Locations.ApplyUntouched | serverdeneme/server.py:95-97 | a name no row mentions keeps its old location |
| Locations.ReadLocations | serverdeneme/server.py:90-98 | the reading loop builds the registry the rows describe |
| Locations.ReadWritten | serverdeneme/server.py:100-104 | reading back what was written gives the registry that was written |
| Locations.SortedNames | serverdeneme/server.py:103 | the registry's names, strictly ascending, each exactly once |
| Locations.SortedRows | serverdeneme/server.py:100-104 | the rows written are one [name, location] row per entry, sorted by name |
| Locations.WriteLocations | serverdeneme/server.py:100-104 | the file afterwards reads as exactly the registry written; nothing else changes |
| StoreEdits.ToggleValueIgnoresCase | serverdeneme/server.py:154 | the accepted spellings of "true" do not depend on case, and each has one to four characters |
| StoreEdits.MarkItems | serverdeneme/server.py:81-85 | every item with the barcode gets `collected = value`; the rest are unchanged |
| StoreEdits.MarkAll | serverdeneme/server.py:80-85 | every order, in place and in order, has its matching items marked |
| StoreEdits.MarkItemsChanges | serverdeneme/server.py:83-85 | marking changes an order's items exactly when a matching item held another value |
| StoreEdits.MarkAllChanges | serverdeneme/server.py:83-85 | marking changes the list exactly when some matching item held another value, so `changed` is exact |
| StoreEdits.MarkAllIdempotent | serverdeneme/server.py:77-88 | after marking no matching item differs, so marking twice is marking once |
| StoreEdits.MarkLines | serverdeneme/server.py:81-85 | the inner loop marks the items and reports whether one changed |
| StoreEdits.MarkOrders | serverdeneme/server.py:79-85 | the nested loops mark the whole list and report exactly whether something changed |
| StoreEdits.ToggleCollected | serverdeneme/server.py:77-88 | the store reads as the marked list afterwards, and it is rewritten exactly when some flag changed |
| StoreEdits.FirstWithNo | serverdeneme/server2.py:110-117 | the index found is the first order whose `str(no)` is the key, or -1 when none is |
| StoreEdits.MarkLineTouchesFirstOnly | serverdeneme/server2.py:107-120 | every order but the first with that number, later namesakes included, is left as it was |
| StoreEdits.MarkOrderLine | serverdeneme/server2.py:110-117 | the loop with `break` marks only the first matching order, and `changed` reports a change in it |
| StoreEdits.SetStatusFirst | serverdeneme/server2.py:155-159 | only the first order with that number gets the new status pair; all others are unchanged |
| StoreEdits.SetStatusAll | main.py:212-215 | every order with that number gets the new status pair; the others are unchanged |
| StoreEdits.FirstAndAllStatus | serverdeneme/server2.py:155-159 | the first-match and all-matches rewrites agree when the number is unique; otherwise a later namesake keeps its old status under the first |
| StoreEdits.RewriteFirstStatus | serverdeneme/server2.py:155-159 | the loop with `break` performs the first-match rewrite |
| StoreEdits.RewriteAllStatus | main.py:212-215 | the loop without `break` performs the all-matches rewrite |
| OrderFilters.NotIptal | serverdeneme/server2.py:58 | keeps exactly the orders whose lower-cased status name lacks "iptal", in order |
| OrderFilters.ByPlatform | serverdeneme/server2.py:70-71 | "TÜMÜ" keeps everything; otherwise exactly the orders of that platform, in order |
| OrderFilters.ByCargo | serverdeneme/server2.py:72-73 | "TÜMÜ" keeps everything; otherwise exactly the orders of that cargo company, in order |
| OrderFilters.Since | serverdeneme/server2.py:81 | keeps exactly the dated orders at or after the bound, in order |
| OrderFilters.Until | serverdeneme/server2.py:87 | keeps exactly the dated orders at or before the bound, in order |
| OrderFilters.RaisingBoundsSpec | serverdeneme/server.py:122-127 | bounds that raise fail exactly on a bad bound or on an undated order meeting a bound; otherwise they keep exactly the orders within the inclusive bounds, in order |
| Urgency.ColorFor | serverdeneme/server2.py:37-45 | red at 24 hours or more, amber from 16 to 24 hours, then light red if placed before noon, else green; each colour exactly in its case |
| Urgency.UrgencyGrowsWithAge | serverdeneme/server2.py:37-45 | an order never becomes less urgent as it ages |
| Urgency.ServerColor | serverdeneme/server2.py:33-47 | a date that does not parse gives green; otherwise the thresholds above |
| Urgency.CardColor | main.py:302-320 | a date that does not parse counts as 0 hours at hour 0, so light red; otherwise the thresholds above |
| Urgency.ColorVariants | main.py:155-170 | the window and the servers agree on every parsed date and disagree on every unparsable one |
| Server2.ByStatus | serverdeneme/server2.py:56-68 | "TÜMÜ" keeps the orders not cancelled by name; a bucket keeps the orders one of its keywords matches; in order |
| Server2.Undated | serverdeneme/server2.py:56-73 | keeps exactly the orders passing the status, platform and cargo tests, in order |
| Server2.FilterOrders | serverdeneme/server2.py:55-90 | with every status name a string, the result is a sub-list of the input |
| Server2.FilterOrdersDated | serverdeneme/server2.py:55-90 | when every surviving order is dated, the result is exactly the orders meeting every test, with inclusive bounds |
| Server2.UndatedOrderSkipsDates | serverdeneme/server2.py:78-89 | one undated surviving order switches off both date bounds |
| Server2.UnknownBucketEmpty | serverdeneme/server2.py:67-68 | a bucket name the map lacks lists nothing |
| Server2.ToggleCollectedByBarcode | serverdeneme/server2.py:92-105 | an empty barcode changes nothing; otherwise every matching item is marked, `changed` is exact, and the store is rewritten only then |
| Server2.MarkLineUnchanged | serverdeneme/server2.py:107-120 | toggling an order's line leaves the list as it is exactly when no order has that number or no matching item of the first one differs |
| Server2.ToggleOrderLine | serverdeneme/server2.py:107-120 | only the first order with the number is touched, and the store is rewritten exactly when one of its flags changed |
| Server2.OrderCancel | serverdeneme/server2.py:152-161 | the first matching order gets ("-1", "İptal Edildi"), and the list is written back even when nothing matched |
| Server2.OrderPrint | serverdeneme/server2.py:163-172 | the first matching order gets ("4", "Kargoya Verildi"), and the list is written back |
| Server2.CancelledOrderStaysListed | serverdeneme/server2.py:58-68 | an order cancelled here stays under "TÜMÜ" and is missing from the cancelled bucket |
| Server2.CancelledNameNotIptal | serverdeneme/server2.py:158 | "iptal" does not occur in the lower-cased cancel name |
| Server2.PythonCancelledNameNotIptal | serverdeneme/server2.py:158 | "iptal" does not occur in the cancel name as Python lower-cases it, "i" + U+0307 + "ptal edildi" |
| Server2.PicklistPage | serverdeneme/server2.py:182-205 | a date that does not parse fails the page; otherwise the listed products that still have an uncollected line, with their shelves |
| Server2.LocationsSet | serverdeneme/server2.py:237-242 | the stripped location is recorded under the name, and the file holds the sorted registry |
| Server2.ImportRows | serverdeneme/server2.py:255 | blank lines are dropped, and every row has at least one field |
| Server2.CleanRow | serverdeneme/server2.py:258-259 | stripping keeps whether a row has two fields |
| Server2.ImportInto | serverdeneme/server2.py:257-259 | the import loop applies the stripped rows in order on top of the registry |
| Server2.LocationsImport | serverdeneme/server2.py:252-261 | the registry becomes the old one with the file's stripped rows applied in order, and the file holds the sorted result |
| Server2.ImportEffect | serverdeneme/server2.py:252-261 | a name takes the location of the last line naming it once stripped; a name no line names keeps its old location or stays absent |
| Server2.CleanedNames | serverdeneme/server2.py:258-259 | a stripped row names a key exactly when some row of two or more fields does once stripped |
| Server2.CleanedLastWins | serverdeneme/server2.py:257-259 | the last row naming a key, once stripped, sets its location |
| Server.IndexOrdersSpec | serverdeneme/server.py:114-127 | with every status name a string, the page fails exactly on a bad date or a date meeting an undated order; otherwise it lists exactly the orders passing every test, in stored order, hiding "iptal" ones only under "TÜMÜ" |
| Server.ToggleCollectedForm | serverdeneme/server.py:149-160 | every item with the form's barcode gets the form's flag; with nothing to change the store is not rewritten |
| Server.EmptyBarcodeMarksBlankItems | serverdeneme/server.py:77-85 | with no empty-barcode guard, a toggle with "" marks exactly the items stored without a barcode |
| Server.OrderPrint | serverdeneme/server.py:163-170 | the order is removed and then recorded as done; a failing step ends the handler, and afterwards no stored order matches the number |
| Server.PicklistPage | serverdeneme/server.py:173-186 | a date that does not parse fails the page; otherwise every listed product with its shelf and collected mark, none dropped |
| Server.LocationsSet | serverdeneme/server.py:197-202 | the location is recorded as typed, not stripped, and the file holds the sorted registry |
| Server.FindKey | serverdeneme/server.py:247-250 | the position found carries the key, and -1 means no entry does |
| Server.LastWithKeyFound | serverdeneme/server.py:247-250 | a key has a last order exactly when some order carries it, and that order is the last such |
| Server.FindKeyUnique | serverdeneme/server.py:247-250 | in a dict-like list each entry is the one found for its key |
| Server.UpsertStep | serverdeneme/server.py:250 | one dict assignment keeps the keys distinct, keeps existing keys in place, makes the order the entry for its key and leaves other keys' entries alone |
| Server.UpsertAllSpec | serverdeneme/server.py:248-250 | folding a batch keeps keys distinct and stored keys in place, and each entry is the batch's last order with its key or else the old entry |
| Server.UpsertAllDistinct | serverdeneme/server.py:247 | putting a list with distinct keys into a dict gives the list back |
| Server.UpsertAllAppend | serverdeneme/server.py:247-250 | putting two batches in turn is putting their concatenation |
| Server.FallbackMergeSpec | serverdeneme/server.py:246-251 | the saved list has unique keys and an entry for every key seen; each entry is the last fetched order with its key, or else the last stored one; the keys come in order of first occurrence in stored ++ fetched, so new keys follow in fetch order, and stored keys keep their places when they were distinct |
| Server.UpsertAllFirstOccurrence | serverdeneme/server.py:246-251 | a dict filled from a list holds only keys of that list, in the order of their first occurrence, as Python's insertion-ordered dict does |
| Server.FirstOccurrenceStep | serverdeneme/server.py:251 | one more `by_no[key] = o` keeps that order: a new key goes last, an existing key keeps its place |
| Server.FirstOccurrenceAppend | serverdeneme/server.py:251 | assigning a key not seen before appends it, and its first position is the end of the list so far |
| Server.FirstOccurrenceReplace | serverdeneme/server.py:251 | assigning a key already present leaves every key's first position, and so the order, unchanged |
| Server.FallbackOverwritesMergeKeeps | serverdeneme/server.py:250 | for one stored order and a changed fetched copy, the fallback keeps the fetched copy and the merge keeps the stored one |
| Server.DictReplace | serverdeneme/server.py:250 | assigning to a present key keeps its place in the insertion order |
| Server.DictAppend | serverdeneme/server.py:250 | assigning to a new key appends it to the insertion order |
| Server.RefreshFallback | serverdeneme/server.py:246-251 | the store is rewritten with the fallback merge of the stored and fetched orders |
| Gui.BucketWords | main.py:254-260 | a status the map lacks has no keywords |
| Gui.ByBucket | main.py:249-265 | "TÜMÜ" keeps exactly the orders not cancelled; the cancelled bucket exactly the cancelled ones; any other bucket the keyword matches that are not cancelled; in order |
| Gui.CancelledOrderMoves | main.py:210-215 | an order the window cancels counts as cancelled and shows under the cancelled bucket only |
| Gui.CardsFilterSpec | main.py:249-284 | the refresh fails exactly on a bad date or a date meeting an undated kept order; otherwise it keeps, in order, exactly the orders passing every test that have a collected line |
| Gui.UnknownBucketEmpty | main.py:260 | a status the window does not know lists nothing |
| Gui.NoKeysSnoc | main.py:290-293 | one more order adds its number to the numbers seen |
| Gui.FirstWithNoSnoc | main.py:287-294 | the first order with a number stays the first when orders are added |
| Gui.FirstByNoSubseq | main.py:287-294 | de-duplication keeps a sub-list of the orders |
| Gui.FirstByNoKeys | main.py:287-294 | no two kept orders share a number, and no number is lost |
| Gui.FirstByNoKeepsFirst | main.py:287-294 | each kept order is the first one with its number |
| Gui.Dedupe | main.py:287-294 | the `seen` loop keeps the first order of each number, in order |
| Gui.RefreshCards | main.py:240-294 | the cards are the filtered orders, one per number, or a failure exactly when the filter fails |
| Gui.SetCollected | main.py:87-93 | every item with the barcode is set, and the list is always written back |
| Gui.CheckboxUpdate | main.py:198-204 | as above with the line's own barcode; a line stored without a barcode matches nothing, and the list is still saved |
| Gui.IptalEt | main.py:210-216 | every order with the number gets ("-1", "İptal Edildi") and then counts as cancelled |
| Gui.TryPrintInvoice | main.py:219-233 | printing happens only with every line ticked; then the order is removed and recorded as done, and any failure ends the sequence there |
| Invoice.WordsOfGroups | invoice.py:15-25 | the words of lines that each split into their groups are the groups' words in order |
| Invoice.StripAppend | invoice.py:18 | stripping "line word" gives the line's words joined with the new word |
| Invoice.WrapStep | invoice.py:17-23 | each turn of the wrap loop keeps its invariant, whether the word fits or starts a new line |
| Invoice.WrapEnd | invoice.py:24-26 | after the loop the lines keep the text's words and were filled greedily |
| Invoice.WrapText | invoice.py:13-26 | the lines hold exactly the words of `text.split()` in order, stripped, only the first may be empty and blank text gives none; a line of two or more words fits, and each line but the last would overflow with the next word |
| Invoice.OrderNumber | invoice.py:45-46 | a Hepsiburada order (any case) shows `order_number`, and any other shows `no`, or "-" when missing |
| Invoice.OrderNumberIsNoKey | invoice.py:45-46 | outside Hepsiburada the label shows the key the handlers look the order up by |
| Invoice.CargoText | invoice.py:83 | the cargo code as shown is stripped |
| Invoice.BarcodeValue | invoice.py:83-85 | the stripped cargo code, or the order number's text when that code is empty or "-" |
| Invoice.BarcodeFallback | invoice.py:83-85 | the barcode is empty or "-" only when the order number reads that way, and a null cargo code prints as "None" |
| Invoice.AddressLines | invoice.py:79 | at most four address lines are drawn, the first ones, and all of them when there are at most four |
| Invoice.SliceBound | invoice.py:113 | a slice bound is clamped into the list and kept when it is already inside it |
| Invoice.VisibleItems | invoice.py:113 | at most `max_urun_satir` items, taken from the list starting at `urun_start_index` |
| Invoice.VisibleWindowsCover | invoice.py:113 | two consecutive windows of m rows show what one window of 2m rows shows |
| Text.SplitJoin | invoice.py:15-18 | joining words and splitting again gives the words back |
| Text.SplitBeforeSpace | invoice.py:15 | `split()` of two texts meeting at whitespace is the two splits concatenated |
| Text.LowerIdempotent | depo.py:13 | lower-casing twice is lower-casing once |
| Text.LexTotal | utils.py:22 | string order is total on distinct strings, as `sorted` needs |
| Text.LexTransitive | utils.py:22 | string order is transitive |
| Text.SplitOnFieldCount | serverdeneme/server2.py:255-258 | a line has a second comma field exactly when it contains a comma |
| Seqs.Filter | main.py:281-284 | a list comprehension keeps exactly the admitted elements, in order |
| Seqs.SubseqTransitive | serverdeneme/server2.py:55-90 | filters applied in turn keep a sub-list of the input |

## Left out

- File I/O and JSON/CSV encoding are not modelled. Each file is a field of `Storage.Disk`, and a read failure is an explicit value. CSV quoting is not modelled: a row is its list of fields.
- `datetime.now()` is a parameter `now` in whole seconds. `strptime` is not modelled: a timestamp is given already parsed, or as `None` when missing or malformed. A filter box's date is blank, unparsable or a day.
- Fractional hours in the colour thresholds are compared as whole seconds, which is exact for timestamps in whole seconds.
- Records.Order.statusName: a null `store_order_status_name` is not represented; the model reads it as "". Both servers call `.lower()` on it directly (serverdeneme/server.py:116, serverdeneme/server2.py:58 and 68), so on a null name Python raises AttributeError: the first server's order list fails under "TÜMÜ", and the second server's fails under "TÜMÜ" and under every named bucket. `Server.IndexOrders` and `Server2.FilterOrders` do not model that failure. The desktop window and the warehouse view guard with `or ""` and read a null as "", as the model does.
- Text.Upper: maps ASCII, the Turkish small letters ç, ğ, ö, ş, ü and the dotless ı only. Python's `upper()` also maps other letters (é, â, …) and turns ß into "SS". `Depo.PlatformTest` therefore differs from Python only on platform text with other non-ASCII letters.
- Text.Lower: maps ASCII and the Turkish capitals Ç, Ğ, Ö, Ş, Ü, but leaves the dotted capital İ as one character, whereas Python's `lower()` gives "i" followed by U+0307. Matches that depend on it are not modelled: the search "ki" finds "KİTAP" in Python's warehouse product search, but not in `Depo.Search` or `Depo.FilterTerm`. The cancellation name is unaffected (`Server2.PythonCancelledNameNotIptal`).
- Records.Quantity: Python's `int()` converts the stored value; it turns the text "3" into 3 and raises on None, on "2.5" and on other non-numeric text. The model takes the quantity as an already-parsed integer (1 when the key is missing), so neither the conversion of numeric text nor those exceptions are modelled.
- The HTTP layer is not modelled: routing, templates, redirects and status codes. The same goes for `order_detail`, `_enrich_order`, `locations_page` and `locations_export` (rendering only).
- The token handlers and `token.txt` are not modelled: they store a credential and contain no order logic. `TokenAlEntegra.py` is not part of this model.
- The network request behind a page fetch is not modelled. The remote source is a finite list of pages, and a failed request reads as an empty page.
- `refresh_from_api`: the first server's choice among fetch candidates is not modelled. Only its dict fallback is (`Server.RefreshFallback`), which runs only when importing `merge_and_save_orders` fails; with the shipped api.py that import succeeds, so the fallback is unreachable. Both servers otherwise chain `Api.GetAllOrders` and `Api.MergeAndSaveOrders`.
- The Tk widgets, card layout, pop-up window and image fetching (`get_img` and its cache) are not modelled.
- The background refresh thread and the `after` timer of `main.py` are not modelled: their point is concurrency and scheduling.
- The platform and cargo drop-down lists (`platformlar`, `kargolar`) are not modelled. Their sorted distinct values are the `unique_list` pattern (`Utils.UniqueListSpec`).
- The warehouse window's own refresh (`guncelle`) is not modelled: its filter of unticked rows is the second server's pick-list filter (`Picklist.UnfinishedRows`).
- PIL drawing, barcode rendering and win32 printing on the label are not modelled. Neither is the per-row line count of the item table. Text width is a function parameter, as the font metrics of `draw.textlength`.
- Barcodes, names and stock codes are modelled as strings only. A missing key reads as "". Non-string or null values, which `str()` would print differently, are not modelled.
- Done-list entries are modelled as strings only. A non-string entry, which never equals `str(no)`, is not modelled.
- Invoice.VisibleItems: the bound on the number of items is stated only for a non-negative start and row count. Negative slice bounds are still clamped as Python does.
- Utils.DeleteOrder: a match counts as found even when the last matching order is an empty JSON object. Python's `if silinen:` treats an empty object as not found; that case arises only for the order number "None".
- Depo: each line carries the platform and age label that the loop works out from its order (`Depo.Pair`). The grouping lemmas are stated over these pairs.

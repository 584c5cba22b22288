# Tesco ketchup tracker: the snapshot differ and product extraction

The tracker scrapes one grocery category page on every run. It turns each
product tile into a `{name, price, link}` record and compares the resulting
snapshot with the one saved by the previous run. It reports new products,
removed products and price changes. A notification goes out only when the
report holds more than its fixed header.

This project models that core in Dafny:

- `snapshots.dfy` (module `Snapshots`): the product record, with the price
  in whole euro cents. Also the set of names of a snapshot and the
  name-to-product map built from the previous snapshot, where a later entry
  overwrites an earlier one with the same name.
- `differ.dfy` (module `Differ`): the three report sections.
  - New products: a filter of the current snapshot.
  - Removed names: a set difference.
  - Price changes: old price, new price, signed difference, direction.
  - The report text is a sequence of `Line`s, built section by section by
    loops. `CompareAndNotify` decides to notify when the text is more than
    its `Title` line.
- `diff_properties.dfy` (module `DiffProperties`): what the report
  guarantees over whole snapshots. It covers order, "last entry wins",
  self-diff, first run, one added, removed or re-priced product, and the
  direction and sign of a change.
- `extractor.dfy` (module `Extractor`): the per-tile part of
  `fetch_products`. A tile is kept only if title, price and link are all
  present. The price text is normalised (every `€` removed, every `,` turned
  into `.`), the link is resolved against `https://www.tesco.ie`, and the
  first malformed price or missing `href` aborts extraction.

Modelling decisions:

- Prices are integers (cents). Comparisons and differences are exact.
- The text-to-number conversion (`float(...)` followed by scaling to cents)
  is a parameter `parse: string -> Option<int>`. `None` stands for the
  exception `float` raises.
- The report is structured. Each `Line` stands for one `report +=` of the
  source: title, section headings, entries. The notify test
  `report.strip() != header` becomes `report != [Title]`. Every appended
  piece contains non-blank text, so the two tests agree.
- The removed names come out of a set whose iteration order is
  unspecified. `AppendRemovedSection` takes them out one at a time in any
  order. It returns the order it used as a ghost value and proves that this
  order lists every removed name exactly once.
- Names are keys but not unique: the code uses a product's name as its key
  (main.py:49-53) but does not make names unique. With duplicate names,
  diffing a snapshot against itself can report a price change
  (`DuplicateNamesSelfDiff`), so the properties that need unique names
  require them.
- Two errors abort extraction: a malformed price, and an anchor without
  `href` (`link_tag["href"]`, main.py:33). The price is converted first
  (main.py:32), and the model keeps both errors in that order.

## Model

| member | source | states |
|---|---|---|
| `Snapshots.NameMap` | main.py:49 | the map's keys are exactly the snapshot's names; every key maps to an entry of the snapshot carrying that name; each name maps to its LAST entry in the snapshot (later entries overwrite earlier ones) |
| `Snapshots.InsertLast` | main.py:49 | inserting one more entry keeps the "every name maps to its last entry" property for the extended snapshot |
| `Snapshots.UniqueNameMap` | main.py:49 | when names are unique, every entry is exactly the product its name maps to |
| `Differ.NewItemsMembers` | main.py:53 | a product is a new item iff it is in `current` and its name is not among the previous names |
| `Snapshots.Names` | main.py:50-51 | the set of names of a snapshot; described by `DiffProperties.NamesAppend`, `DiffProperties.InsertedNames` and `Differ.Removed` |
| `Differ.NewItems` | main.py:53 | the new-products filter; never longer than `current`, and described by `Differ.NewItemsMembers` and `DiffProperties.NewItemsAppend` |
| `Differ.Removed` | main.py:59 | a name is removed iff some previous entry carries it and no current entry does |
| `Differ.ChangeOf` | main.py:67-71 | a change line carries the product's name, the old price, the new price and `diff` with new = old + diff; the direction is Up iff the new price is higher |
| `Differ.ChangesFor` | main.py:66-71 | the zero or one change lines of one product; described by `Differ.AppendChangeOf` and `Differ.PriceChangesSnoc` |
| `Differ.PriceChanges` | main.py:65-71 | the change lines of `current` in order; described by `Differ.PriceChangesSound`, `Differ.PriceChangesComplete`, `Differ.PriceChangesSnoc` and `DiffProperties.PriceChangesAppend` |
| `Differ.SignPrefix` | main.py:71 | the "+" printed before a positive difference; `DiffProperties.ChangeDirection` proves it is "+" exactly for a rise |
| `Differ.Diff` | main.py:49-71 | the three sections of one comparison; described by `DiffProperties.NewItemsOfDiff`, `DiffProperties.ChangeAgainstLastEntry`, `DiffProperties.DiffSelf` and the added, removed and re-priced lemmas |
| `Differ.NewSection` | main.py:54-57 | empty when there is no new product, otherwise a heading followed by one line per new product |
| `Differ.RemovedSection` | main.py:60-63 | empty when no name was removed, otherwise a heading followed by one line per removed name |
| `Differ.NewEntriesAt` | main.py:56-57 | line `i` of the new-products lines is the entry of the `i`-th new product |
| `Differ.RemovedEntriesAt` | main.py:62-63 | line `i` of the removed lines is the entry of the `i`-th listed name |
| `Differ.ChangeEntriesAt` | main.py:65-71 | line `i` of the change lines is the entry of the `i`-th price change |
| `Differ.Render` | main.py:48-71 | the report text starts with the title line; `Differ.NotifyIffContent` proves it is more than the title exactly when some section has content |
| `Differ.PriceChangesSound` | main.py:65-68 | every change line belongs to a product of `current` whose name is in the previous map, compares against that mapped price, and the two prices differ |
| `Differ.PriceChangesComplete` | main.py:65-68 | every product of `current` whose name is in the previous map with a different price gets its change line |
| `Differ.PriceChangesSnoc` | main.py:65 | one more product of `current` adds exactly that product's change lines at the end (the lines follow `current`'s order) |
| `Differ.NotifyIffContent` | main.py:73 | the report text differs from the bare header iff some section (new, removed, changed) is non-empty, for any listing order of the removed names |
| `Differ.AppendNewSection` | main.py:54-57 | appends a heading and one line per new product, in order, or nothing when there are no new products |
| `Differ.AppendRemovedSection` | main.py:60-63 | appends a heading and one line per removed name, or nothing when no name was removed; the order used lists every removed name exactly once |
| `Differ.AppendRemovedEntries` | main.py:62-63 | the loop over the removed-name set appends one line per name, in an order that lists every name of the set exactly once |
| `Differ.AppendChangeOf` | main.py:66-71 | for one product, appends its change line exactly when its name is in the previous map with a different price, and nothing otherwise |
| `Differ.AppendPriceChanges` | main.py:65-71 | appends exactly the change lines of the specification `PriceChanges`, in `current` order |
| `Differ.CompareAndNotify` | main.py:47-74 | the report text is the rendering of the three sections of the diff; notification happens iff at least one section has content |
| `DiffProperties.NewItemsAppend` | main.py:53 | the new products of a concatenation are those of each part, one after the other: the filter keeps `current`'s order |
| `DiffProperties.NewItemsOfDiff` | main.py:50-53 | a product is reported new iff it is in `current` and no previous entry has its name |
| `DiffProperties.RemovedNeverCurrent` | main.py:59 | no name of the current snapshot is ever reported as removed |
| `DiffProperties.NoChangesWhenPricesAgree` | main.py:65-68 | if every current product the map knows has its mapped price, there are no change lines |
| `DiffProperties.ChangeAgainstLastEntry` | main.py:49-69 | every change line compares a current product against the last previous entry with the same name, and those prices differ |
| `DiffProperties.LastIndexOfName` | main.py:49 | every name occurring in a snapshot has a last entry at or after any given occurrence |
| `DiffProperties.ChangeReported` | main.py:65-71 | a current product whose price differs from the last previous entry with its name is reported with that old price |
| `DiffProperties.NoChangeLine` | main.py:65-68 | with unique current names, a product that is new or whose price equals the mapped old price has no change line |
| `DiffProperties.NewItemsHaveNoChange` | main.py:53-66 | a product reported as new never has a price-change line |
| `DiffProperties.ChangeDirection` | main.py:69-71 | for every change line, diff = new - old and is non-zero; Up and the "+" prefix exactly when diff > 0, Down exactly when diff < 0 |
| `DiffProperties.DiffSelf` | main.py:47-73 | diffing a snapshot against itself gives no new and no removed products; with unique names no price changes either, so no notification |
| `DiffProperties.DuplicateNamesSelfDiff` | main.py:49 | with two entries sharing a name, the self-diff reports the first compared against the later one |
| `DiffProperties.FirstRun` | main.py:47-59 | against an empty previous snapshot every current product is new and nothing else is reported |
| `DiffProperties.NewItemsAllKept` | main.py:53 | when no current name is among the previous names, the new products are the whole current snapshot |
| `DiffProperties.NewItemsNoneKept` | main.py:53 | when every current name is among the previous names, there are no new products |
| `DiffProperties.AddedProduct` | main.py:47-71 | inserting one product with a fresh name at any position of a snapshot with unique names reports exactly that product as new, no removed name and no price change |
| `DiffProperties.RemovedProduct` | main.py:47-71 | dropping the product at any position of a snapshot with unique names reports exactly its name as removed, no new product and no price change |
| `DiffProperties.PriceMoved` | main.py:47-71 | re-pricing the product at any position of a snapshot with unique names gives no new or removed product and exactly one change line: that product against its old price |
| `DiffProperties.NamesAppend` | main.py:50-51 | the names of a concatenation are the union of the names of its parts |
| `DiffProperties.PriceChangesAppend` | main.py:65-71 | the change lines of a concatenation are those of each part, one after the other |
| `DiffProperties.NoChangesForKnownEntries` | main.py:65-68 | against a snapshot with unique names, products that appear in it unchanged or whose name it lacks give no change line |
| `DiffProperties.InsertedNames` | main.py:50-51 | inserting a product anywhere adds exactly its name |
| `DiffProperties.InsertedNewItems` | main.py:53 | among products with known names, the one product with an unknown name is the only new one, wherever it stands |
| `Extractor.RemoveAll` | main.py:32 | the deleted character no longer occurs in the result |
| `Extractor.ReplaceAll` | main.py:32 | same length; each position holds the replacement where the input held the replaced character, else the input character |
| `Extractor.NormalizePrice` | main.py:32 | the normalised price text contains no `€` and no `,` |
| `Extractor.RemoveAllMultiset` | main.py:32 | deletion keeps every other character exactly as often as it occurs |
| `Extractor.RemoveAllAppend` | main.py:32 | deletion distributes over concatenation, so it keeps the order of the remaining characters |
| `Extractor.ReplaceAllAppend` | main.py:32 | replacement distributes over concatenation |
| `Extractor.NormalizePriceAppend` | main.py:32 | normalisation distributes over concatenation |
| `Extractor.NormalizePriceChar` | main.py:32 | on one character normalisation drops `€`, turns `,` into `.` and keeps anything else |
| `Extractor.NormalizePriceIdempotent` | main.py:32 | normalising twice gives the same text as normalising once |
| `Extractor.RemoveAllAbsent` | main.py:32 | deleting a character that does not occur changes nothing |
| `Extractor.NormalizeExample` | main.py:32 | the text "€1,99" normalises to "1.99" |
| `Extractor.ResolveLink` | main.py:33 | the link is the origin `https://www.tesco.ie` followed by exactly the href |
| `Extractor.ResolveLinkInjective` | main.py:33 | different hrefs never resolve to the same link |
| `Extractor.CompleteCandidates` | main.py:30 | a tile is kept iff it is one of the input tiles and has title, price and anchor |
| `Extractor.CompleteCandidatesAppend` | main.py:26-30 | the complete tiles of a concatenation are those of each part, one after the other: the filter keeps page order |
| `Extractor.ExtractOne` | main.py:30-34 | an incomplete tile is skipped; a complete one fails exactly when its price is rejected or its anchor has no href; otherwise it gives the product made from its title, parsed price and resolved link |
| `Extractor.Extract` | main.py:26-35 | the products of all tiles in page order, or the first error; described by `Extractor.ExtractSucceedsIff`, `Extractor.ExtractProducts` and `Extractor.ExtractErrorPersists` |
| `Extractor.ExtractSucceedsIff` | main.py:26-34 | extraction succeeds iff no complete tile has a price the conversion rejects or an anchor without `href` |
| `Extractor.ExtractProducts` | main.py:26-34 | a successful extraction gives one product per complete tile, in page order, with the tile's title, the parsed normalised price and the resolved link |
| `Extractor.ExtractErrorPersists` | main.py:26-34 | once a prefix of the tiles fails, the whole extraction fails with that same first error |
| `Extractor.FetchProducts` | main.py:25-35 | the loop that appends products returns exactly the specification `Extract` of the tiles, including its first error |

## Left out

- Fetching the page: the HTTP GET with its fixed header and 15-second timeout, and the two-second delay before it (main.py:20-22). Network I/O and the clock.
- Selecting tiles and fields with BeautifulSoup, and `get_text(strip=True)` (main.py:23-29, main.py:31-32). This is a foreign library. Tiles arrive as `Candidate` values whose fields are already-extracted texts.
- `float(...)` (main.py:32). Floating-point parsing is a parameter of the model that returns cents or `None`.
- `:.2f` rendering, the emoji and the exact report wording (main.py:48, main.py:55-57, main.py:61-63, main.py:71). Text formatting is abstracted into `Line` values that carry the same data.
- `send_report` and the Telegram bot, `BOT_TOKEN` and `CHAT_ID` from the environment (main.py:8-9, main.py:16-18). These are an external service and process configuration. Sending is the `notify` result of `CompareAndNotify`.
- `load_old_data`, `save_data` and `main` (main.py:37-45, main.py:76-83). File I/O and the order of the pipeline.
- The order of the removed-names section is not determined. Python does not specify set iteration order, so the model proves the result for any order.
- `Extractor.NormalizePrice`: its own contract states only that no `€` or `,` survives. The full character-by-character behaviour is stated by `NormalizePriceAppend` and `NormalizePriceChar`.

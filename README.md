# Price manager: product table and price-history log

A model of the core of a small product-price service. The service is a REST
API over two tables. `products` holds name, category, cost, price and two
timestamps. `price_history` is an append-only log of price changes. Five
operations act on them, with a read-only history query beside them:

- create a product;
- list products and get one product;
- partially update a product, logging a history entry when its price
  really changes;
- delete a product, leaving its history in the log;
- bulk-adjust the prices of every product, or of one category, by a
  percentage, logging one entry per product touched;
- read a product's price history, newest first.

Each product view also shows a derived margin, computed from cost and price.

The model has four modules:

- `Domain` (domain.dfy): the records, the margin, the bulk price rounding,
  the partial-update semantics and the bulk category filter.
- `History` (history.dfy): the history query and the lemmas about its order.
- `Store` (store.dfy): class `PriceStore`. It holds the table as a `map` from
  id to product and the log as a `seq` in insertion order. It also holds the
  two id counters and a logical clock. Each operation of the service is a
  method or a function of the class.
- `Scenarios` (scenarios.dfy): example request sequences (a bulk increase,
  an empty selection, a deletion, a sequence of updates, some margins),
  derived from the class's contracts alone.

The records are datatypes in `Domain`, one per model of main.py:
`Product` and `ProductCreate` (main.py:26-40, the shared fields of
`ProductBase` written out), `ProductUpdate` (main.py:43-47, `None` for a field
the request leaves out), `ProductRead` (main.py:50-54), `PriceHistory`
(main.py:57-63) and `BulkIncreaseRequest` (main.py:75-78). `PriceHistoryRead`
(main.py:66-72) has the same fields as `PriceHistory`, so the history query
returns `PriceHistory` values.

Representation choices:

- Money is in integer cents. A margin is in hundredths of a percent, and so is
  a bulk percentage. The two decimal places the service rounds to are
  therefore exact integers.
- Rounding is to the nearest integer, ties to even. That is what Python's
  `round` does on an exactly representable value.
- Each reading of the wall clock is one tick of a strictly increasing logical
  clock (`PriceStore.Now`). Product creation reads it once for both
  timestamps. In main.py:35-36 they come from two `default_factory` calls of
  `datetime.utcnow` made one right after the other when the row is built, so
  the two values may differ by a few microseconds; the model treats them as
  one reading.
- The error the service raises as HTTP 404 is the `Err(NotFound)` variant of
  a `Result`.
- Unordered queries return rows in ascending id, the order of a table scan.
  Listing products and selecting products for a bulk change are such queries.
  The bulk contracts are stated over whatever visiting order was used.
  This order is returned as the ghost sequence `order`.

## Model

| member | source | states |
|---|---|---|
| `Domain.RoundHalfEven` | main.py:100 | the result is within half a unit of n/d, and an exact tie goes to the even neighbour |
| `Domain.ComputeMargin` | main.py:97-100 | zero when the cost is zero; otherwise within half a hundredth of a percent of the exact markup (price - cost) / cost * 100 |
| `Domain.ProductToRead` | main.py:103-113 | the view keeps every stored field (dropping the margin gives back the product) and carries the margin of its cost and price |
| `Domain.AdjustPrice` | main.py:222-227 | the new price is within half a cent of old price * (1 + percentage / 100) |
| `Domain.NewBulkRequest` | main.py:75-78 | a bulk request without a reason carries the default reason "Ajuste masivo" |
| `Domain.SuppliedFields` | main.py:167 | exactly the supplied fields of the request, each with its value: every listed field was supplied, and every supplied field is listed |
| `Domain.SetAttr` | main.py:169 | one `setattr` overwrites exactly the named attribute with its value; every other attribute, the id and both timestamps are kept |
| `Domain.SetSuppliedFields` | main.py:167-169 | setting the supplied fields one by one yields the patch: supplied fields replaced, omitted fields, id and timestamps unchanged |
| `Domain.SetAttrLoopIsPatch` | main.py:167-169 | folding the attribute assignments over the supplied fields equals the field-wise patch semantics |
| `Domain.PriceChanged` | main.py:175 | holds exactly when the supplied fields include a price, and that price differs from the stored one |
| `Domain.Selects` | main.py:215-216 | an absent or empty category (a falsy value) keeps every product; any other keeps exactly the products of that category |
| `Domain.SelectedIds` | main.py:214-218 | with no category or an empty one every product is selected; otherwise exactly the products of that category |
| `History.HistoryOf` | main.py:266-270 | holds exactly the log entries of the product; on a log ascending in time it is strictly newest first |
| `History.HistoryOfAppend` | main.py:266-270 | a newly logged entry becomes the first of its product's history and leaves other products' histories unchanged |
| `History.HistoryOfConcat` | main.py:266-270 | entries logged later come before all earlier ones in a product's history |
| `History.SingleEntryHistory` | main.py:266-270 | a log segment with a single entry for a product contributes exactly that entry |
| `History.SameTails` | main.py:269 | two newest-first sequences with the same entries and the same first entry agree on all later entries |
| `History.DescendingUnique` | main.py:269 | two newest-first sequences with the same entries are equal, so ordering by creation time descending fixes the result |
| `History.HistoryOfIsTheOrderedQuery` | main.py:266-270 | any newest-first listing of exactly the product's entries is the query result |
| `Store.PriceStore.constructor` | main.py:90-92 | the store starts with an empty table and an empty log, and its invariant holds |
| `Store.PriceStore.Now` | main.py:171 | a clock reading is strictly later than every earlier one |
| `Store.PriceStore.CreateProduct` | main.py:118-127 | adds one product under an id not in use, with created_at = updated_at = now; the log is unchanged; returns its view |
| `Store.PriceStore.ScanIds` | main.py:132 | the rows of an unordered query: each requested id once, ascending |
| `Store.PriceStore.ListProducts` | main.py:130-133 | the view of every stored product, each exactly once |
| `Store.PriceStore.GetProduct` | main.py:141-148 | NotFound exactly when the id is absent; otherwise the product's view |
| `Store.PriceStore.UpdateProduct` | main.py:156-186 | NotFound and no change for an absent id; otherwise the patch with updated_at refreshed, other products unchanged; exactly one entry (id, old price, new price, "Actualización individual") is logged exactly when a differing price is supplied, otherwise the log is unchanged |
| `Store.PriceStore.DeleteProduct` | main.py:190-200 | NotFound and no change for an absent id; otherwise only that id is removed and the log is unchanged |
| `Store.PriceStore.SelectIds` | main.py:214-218 | each selected product id exactly once |
| `Store.PriceStore.AdjustOne` | main.py:226-239 | one turn of the bulk loop: adjusted price and fresh updated_at for the product, then one log entry with old price, new price and the request's reason |
| `Store.PriceStore.Touch` | main.py:171-172 | the product is written back with updated_at set to a fresh clock reading; nothing else changes |
| `Store.PriceStore.LogPriceChange` | main.py:175-182 | exactly one entry with the next history id, the given old and new prices and reason, stamped with a fresh clock reading, is appended; the table is unchanged |
| `Store.PriceStore.AdjustAll` | main.py:223-241 | the table becomes `BulkTable` of the visited ids and the log gains `BulkLog` of them, one entry per id in visiting order; the count returned equals the number visited |
| `Store.PriceStore.BulkTurn` | main.py:226-241 | one turn of the loop takes the state after k turns to the state after k + 1 turns |
| `Store.BulkTableFrame` | main.py:223-241 | a product the loop has not yet visited is unchanged |
| `Store.BulkTableVisited` | main.py:226-231 | the k-th visited product holds its adjusted price and the update time of the k-th turn |
| `Store.BulkTableSpec` | main.py:223-241 | the bulk change keeps the stored ids; every visited product gets its adjusted price and the update time of its turn, every other product is unchanged |
| `Store.BulkTableStep` | main.py:226-231 | turn k of the loop finds the k-th product as stored and sets its adjusted price and the update time of turn k |
| `Store.BulkLogStep` | main.py:233-239 | turn k of the loop appends exactly the k-th entry of the bulk log |
| `Store.PriceStore.BulkIncrease` | main.py:210-248 | visits exactly the selected products, once each; an empty selection answers 0 and changes nothing; otherwise one entry per selected product (also when the price does not change), unselected products untouched, and the count equals the selection size |
| `Store.PriceStore.GetHistory` | main.py:258-272 | NotFound exactly when the product is absent; otherwise exactly its entries, strictly newest first (empty when it has none) |
| `Store.BulkLogInHistory` | main.py:225-241 | after a bulk change a selected product's history gains exactly its bulk entry as the newest; other histories are unchanged |
| `Store.BulkLogEntries` | main.py:233-239 | the entries `BulkLog` describes: one per visited product, in visiting order, with its old price, its adjusted price and the request's reason; their ids and creation times strictly increase |
| `Scenarios.BulkTenPercentScenario` | main.py:222-247 | +10% without a category on two products priced 100.00 and 200.00 gives 110.00 and 220.00 respectively, two history entries, and the answer count 2 with the percentage and no category echoed |
| `Scenarios.EmptySelectionScenario` | main.py:214-220 | a category matching no product answers that nothing was updated (count 0) and changes neither the table nor the log |
| `Scenarios.DeleteScenario` | main.py:194-199 | after a delete both get and get-history answer NotFound, and the log still holds the product's entries |
| `Scenarios.UpdateWithoutPriceChangeScenario` | main.py:166-182 | updating only the name and then re-sending the stored price leave the log and the product's history unchanged, with the new name stored |
| `Scenarios.UpdateNewPriceScenario` | main.py:175-182 | a new price logs one entry with the old and the new price, and it becomes the newest entry of the product's history |
| `Scenarios.MarginExamples` | main.py:97-100 | margin of zero cost is 0; 100.00 against 150.00 is 50.00 %; equal cost and price is 0 |

## Left out

- The web framework: routing, status codes, `Depends`, the dependency that
  opens a session, and the startup hook that creates the tables. The store is
  a value held by the caller, and an HTTP 404 is `Err(NotFound)` without its
  message text.
- The ORM and the SQLite engine: sessions, `commit`/`refresh`, query building
  and `from_orm`. Each operation is a sequential update of the map and the
  log, so all-or-nothing commits hold trivially.
- Id assignment is a counter that never reuses an id. SQLite without
  AUTOINCREMENT may reuse the largest id after it is deleted. A new product
  could then show the orphaned history of a deleted one. The model does not
  capture this.
- ComputeMargin: works on exact integers in cents and hundredths of a percent.
  It does not model float representation error before Python's rounding.
- AdjustPrice: takes the percentage in hundredths of a percent. Finer
  percentages and float error in the factor 1 + percentage / 100 are not
  modelled.
- Wall-clock time: replaced by the logical clock, so timestamps never tie. A
  real clock could give two readings the same microsecond. Creation reads the
  clock once for both of its timestamps, where the service reads it twice in
  a row (main.py:35-36), so the model does not capture `updated_at` being a
  few microseconds after `created_at` on a new product.
- Validation of field types by the request models. Also left out: an update
  field sent explicitly as `null`. `setattr` puts `None` on the object, but
  name, category, cost and price are required columns (main.py:26-30), and
  for the price the history row's `new_price` would be null as well
  (main.py:175-179). The commit at main.py:184 then fails with an integrity
  error, the request fails and nothing changes. The model leaves that failure
  out: supplied fields are `Some` values.
- The order of listing and of bulk selection is not specified by the service.
  The model scans in ascending id. The bulk contracts expose the order used
  as a ghost result.
- The response shapes of the service (a JSON object with the count, the
  percentage and the category) are the `BulkResponse` datatype. The
  deletion's confirmation is its message string.

/**
 * The product table and the append-only price-history log, with the
 * operations of the service acting on them in place.
 *
 * The relational store becomes two fields: a map from id to product and
 * the log in insertion order. Ids are handed out by counters, and every
 * reading of the wall clock is a tick of a logical clock, so timestamps
 * strictly increase across readings.
 */
module Store {
  import opened Domain
  import opened History

  class PriceStore {
    var products: map<int, Product>
    var history: seq<PriceHistory>
    var nextProductId: int
    var nextHistoryId: int
    var clock: int

    /** The table and the log keep their invariants (see TableInvariant
        and LogInvariant) with respect to the counters and the clock. */
    ghost predicate Valid()
      reads this
    {
      TableInvariant(products, nextProductId, clock) && LogInvariant(history, nextHistoryId, clock)
    }

    /** An empty store, as after the tables are created. */
    constructor ()
      ensures Valid()
      ensures products == map[] && history == []
    {
      products := map[];
      history := [];
      nextProductId := 1;
      nextHistoryId := 1;
      clock := 0;
    }

    /** One reading of the wall clock. */
    method Now() returns (t: int)
      requires Valid()
      modifies this`clock
      ensures Valid()
      ensures clock == old(clock) + 1 && t == clock
    {
      ClockAdvances(products, nextProductId, history, nextHistoryId, clock, clock + 1);
      clock := clock + 1;
      t := clock;
    }

    /** Creation: a fresh id, both timestamps from one reading of the clock
        and the history left alone. */
    method CreateProduct(data: ProductCreate) returns (r: ProductRead)
      requires Valid()
      modifies this
      ensures Valid()
      ensures r.id !in old(products)
      ensures clock == old(clock) + 1
      ensures products == old(products)[r.id :=
        Product(r.id, data.name, data.category, data.cost, data.price, clock, clock)]
      ensures r == ProductToRead(products[r.id])
      ensures history == old(history) && nextHistoryId == old(nextHistoryId)
    {
      var now := Now();
      var product := Product(nextProductId, data.name, data.category, data.cost, data.price, now, now);
      TableAdd(products, nextProductId, clock, product);
      products := products[nextProductId := product];
      nextProductId := nextProductId + 1;
      r := ProductToRead(product);
    }

    /** The ids of `keep` in the order of a table scan, ascending. */
    method ScanIds(keep: set<int>) returns (ids: seq<int>)
      requires Valid() && keep <= products.Keys
      ensures forall id :: id in ids <==> id in keep
      ensures forall i, j :: 0 <= i < j < |ids| ==> ids[i] < ids[j]
      ensures |ids| == |keep|
    {
      ids := [];
      var i := 1;
      while i < nextProductId
        invariant 1 <= i <= nextProductId
        invariant forall id :: id in ids <==> id in keep && id < i
        invariant forall a, b :: 0 <= a < b < |ids| ==> ids[a] < ids[b]
        invariant forall a :: 0 <= a < |ids| ==> ids[a] < i
      {
        if i in keep {
          ids := ids + [i];
        }
        i := i + 1;
      }
      assert (set id | id in ids) == keep;
      DistinctCard(ids);
    }

    /** Every product, each once, as its read view, in table-scan order. */
    method ListProducts() returns (r: seq<ProductRead>)
      requires Valid()
      ensures |r| == |products|
      ensures forall i :: 0 <= i < |r| ==> r[i].id in products && r[i] == ProductToRead(products[r[i].id])
      ensures forall i, j :: 0 <= i < j < |r| ==> r[i].id != r[j].id
      ensures forall id :: id in products ==> exists i :: 0 <= i < |r| && r[i].id == id
    {
      var ids := ScanIds(products.Keys);
      var table := products;
      assert forall i :: 0 <= i < |ids| ==> ids[i] in ids;
      r := seq(|ids|, i requires 0 <= i < |ids| && ids[i] in table => ProductToRead(table[ids[i]]));
      assert forall i :: 0 <= i < |r| ==> r[i].id == ids[i];
    }

    /** The read view of product `id`, or NotFound. */
    function GetProduct(id: int): (r: Result<ProductRead>)
      reads this
      ensures r.Err? <==> id !in products
      ensures r.Err? ==> r.error == NotFound
      ensures r.Ok? ==> r.value == ProductToRead(products[id])
    {
      if id in products then Ok(ProductToRead(products[id])) else Err(NotFound)
    }

    /** Partial update: NotFound (and nothing changes) for an absent id;
        otherwise the supplied fields are overwritten one by one, the update
        time is refreshed unconditionally, and one history entry is logged
        exactly when a price is supplied that differs from the stored one. */
    method UpdateProduct(id: int, u: ProductUpdate) returns (r: Result<ProductRead>)
      requires Valid()
      modifies this
      ensures Valid()
      ensures nextProductId == old(nextProductId)
      ensures id !in old(products) ==>
        && r == Err(NotFound)
        && products == old(products) && history == old(history)
        && clock == old(clock) && nextHistoryId == old(nextHistoryId)
      ensures id in old(products) ==>
        && products == old(products)[id := Patch(old(products)[id], u).(updatedAt := old(clock) + 1)]
        && products[id].updatedAt > old(products)[id].updatedAt
        && r == Ok(ProductToRead(products[id]))
      ensures id in old(products) && PriceChanged(u, old(products)[id].price) ==>
        && history == old(history) + [PriceHistory(old(nextHistoryId), id, old(products)[id].price,
                                                   u.price.value, Some(IndividualReason), old(clock) + 2)]
        && nextHistoryId == old(nextHistoryId) + 1
        && clock == old(clock) + 2
      ensures id in old(products) && !PriceChanged(u, old(products)[id].price) ==>
        && history == old(history) && nextHistoryId == old(nextHistoryId)
        && clock == old(clock) + 1
    {
      if id !in products {
        return Err(NotFound);
      }
      var oldPrice := products[id].price;
      var product := SetSuppliedFields(products[id], u);
      Touch(product);
      if u.price.Some? && u.price.value != oldPrice {
        LogPriceChange(id, oldPrice, u.price.value, Some(IndividualReason));
      }
      r := Ok(ProductToRead(products[id]));
    }

    /** Writes `p` back to the table with a fresh update time. */
    method Touch(p: Product)
      requires Valid() && p.id in products && p.createdAt == products[p.id].createdAt
      modifies this
      ensures Valid()
      ensures products == old(products)[p.id := p.(updatedAt := old(clock) + 1)]
      ensures clock == old(clock) + 1
      ensures history == old(history) && nextHistoryId == old(nextHistoryId)
      ensures nextProductId == old(nextProductId)
    {
      var now := Now();
      var product := p.(updatedAt := now);
      TableSet(products, nextProductId, clock, product);
      products := products[p.id := product];
    }

    /** Logs one price change, stamped with a fresh reading of the clock. */
    method LogPriceChange(productId: int, oldPrice: int, newPrice: int, reason: Option<string>)
      requires Valid()
      modifies this
      ensures Valid()
      ensures history == old(history) + [PriceHistory(old(nextHistoryId), productId, oldPrice,
                                                      newPrice, reason, old(clock) + 1)]
      ensures clock == old(clock) + 1 && nextHistoryId == old(nextHistoryId) + 1
      ensures products == old(products) && nextProductId == old(nextProductId)
    {
      var created := Now();
      var entry := PriceHistory(nextHistoryId, productId, oldPrice, newPrice, reason, created);
      LogAppend(history, nextHistoryId, created - 1, entry);
      history := history + [entry];
      nextHistoryId := nextHistoryId + 1;
    }

    /** Deletion: NotFound for an absent id; otherwise only that product
        leaves the table, and its history entries stay in the log. */
    method DeleteProduct(id: int) returns (r: Result<string>)
      requires Valid()
      modifies this
      ensures Valid()
      ensures history == old(history) && clock == old(clock)
      ensures nextProductId == old(nextProductId) && nextHistoryId == old(nextHistoryId)
      ensures id !in old(products) ==> r == Err(NotFound) && products == old(products)
      ensures id in old(products) ==> r == Ok(DeletedDetail) && products == old(products) - {id}
    {
      if id !in products {
        return Err(NotFound);
      }
      TableRemove(products, nextProductId, clock, id);
      products := products - {id};
      r := Ok(DeletedDetail);
    }

    /** The ids a bulk request selects, each once, in table-scan order. */
    method SelectIds(category: Option<string>) returns (ids: seq<int>)
      requires Valid()
      ensures forall id :: id in ids <==> id in SelectedIds(products, category)
      ensures forall i, j :: 0 <= i < j < |ids| ==> ids[i] != ids[j]
      ensures forall k :: 0 <= k < |ids| ==> ids[k] in products
      ensures |ids| == |SelectedIds(products, category)|
    {
      ids := ScanIds(SelectedIds(products, category));
      assert forall k :: 0 <= k < |ids| ==> ids[k] in ids;
    }

    /** One turn of the bulk loop: product `id` gets the adjusted price and
        a fresh update time, then its history entry is logged. */
    method AdjustOne(id: int, percentage: int, reason: Option<string>)
      requires Valid() && id in products
      modifies this
      ensures Valid()
      ensures products == old(products)[id := old(products)[id].(
        price := AdjustPrice(old(products)[id].price, percentage),
        updatedAt := old(clock) + 1)]
      ensures history == old(history) + [PriceHistory(
        old(nextHistoryId), id, old(products)[id].price,
        AdjustPrice(old(products)[id].price, percentage), reason, old(clock) + 2)]
      ensures clock == old(clock) + 2 && nextHistoryId == old(nextHistoryId) + 1
      ensures nextProductId == old(nextProductId)
    {
      var oldPrice := products[id].price;
      var newPrice := AdjustPrice(oldPrice, percentage);
      Touch(products[id].(price := newPrice));
      LogPriceChange(id, oldPrice, newPrice, reason);
    }

    /** The bulk loop over the selected ids `ids`, visited in order. */
    method AdjustAll(ids: seq<int>, percentage: int, reason: Option<string>) returns (updatedCount: nat)
      requires Valid()
      requires forall i, j :: 0 <= i < j < |ids| ==> ids[i] != ids[j]
      requires forall k :: 0 <= k < |ids| ==> ids[k] in products
      modifies this
      ensures Valid()
      ensures updatedCount == |ids|
      ensures clock == old(clock) + 2 * |ids|
      ensures nextHistoryId == old(nextHistoryId) + |ids|
      ensures nextProductId == old(nextProductId)
      ensures products == BulkTable(old(products), ids, |ids|, percentage, old(clock))
      ensures history == old(history) + BulkLog(old(products), ids, percentage, reason,
                                                 old(nextHistoryId), old(clock))
    {
      updatedCount := 0;
      var k := 0;
      while k < |ids|
        invariant 0 <= k <= |ids| && updatedCount == k
        invariant Valid()
        invariant clock == old(clock) + 2 * k
        invariant nextHistoryId == old(nextHistoryId) + k
        invariant nextProductId == old(nextProductId)
        invariant products == BulkTable(old(products), ids, k, percentage, old(clock))
        invariant history == old(history) + BulkLog(old(products), ids, percentage, reason,
                                                     old(nextHistoryId), old(clock))[..k]
      {
        BulkTurn(ids, k, percentage, reason, old(products), old(history), old(nextHistoryId), old(clock));
        updatedCount := updatedCount + 1;
        k := k + 1;
      }
      assert BulkLog(old(products), ids, percentage, reason, old(nextHistoryId), old(clock))[..k]
          == BulkLog(old(products), ids, percentage, reason, old(nextHistoryId), old(clock));
    }

    /** Turn `k` of the bulk loop, from the state after `k` turns to the state
        after `k + 1` turns of a loop that started on `table0` and `log0`. */
    method BulkTurn(ids: seq<int>, k: int, percentage: int, reason: Option<string>,
                    ghost table0: map<int, Product>, ghost log0: seq<PriceHistory>,
                    ghost firstId: int, ghost clock0: int)
      requires Valid() && 0 <= k < |ids|
      requires forall i, j :: 0 <= i < j < |ids| ==> ids[i] != ids[j]
      requires forall j :: 0 <= j < |ids| ==> ids[j] in table0
      requires clock == clock0 + 2 * k && nextHistoryId == firstId + k
      requires products == BulkTable(table0, ids, k, percentage, clock0)
      requires history == log0 + BulkLog(table0, ids, percentage, reason, firstId, clock0)[..k]
      modifies this
      ensures Valid()
      ensures clock == clock0 + 2 * (k + 1) && nextHistoryId == firstId + k + 1
      ensures nextProductId == old(nextProductId)
      ensures products == BulkTable(table0, ids, k + 1, percentage, clock0)
      ensures history == log0 + BulkLog(table0, ids, percentage, reason, firstId, clock0)[..k + 1]
    {
      BulkTableStep(table0, ids, k, percentage, clock0);
      BulkLogStep(table0, ids, k, percentage, reason, firstId, clock0);
      ghost var next := BulkTable(table0, ids, k + 1, percentage, clock0);
      ghost var log := log0 + BulkLog(table0, ids, percentage, reason, firstId, clock0)[..k + 1];
      assert next == products[ids[k] := products[ids[k]].(
        price := AdjustPrice(products[ids[k]].price, percentage), updatedAt := clock + 1)];
      assert log == history + [PriceHistory(nextHistoryId, ids[k], products[ids[k]].price,
        AdjustPrice(products[ids[k]].price, percentage), reason, clock + 2)];
      AdjustOne(ids[k], percentage, reason);
    }

    /** Bulk change: every selected product gets its adjusted price and a
        fresh update time, and the log gains exactly one entry per selected
        product, also when the rounded price equals the old one. `order` is
        the order in which the selection was visited. */
    method BulkIncrease(req: BulkIncreaseRequest) returns (r: BulkResponse, ghost order: seq<int>)
      requires Valid()
      modifies this
      ensures Valid()
      ensures forall id :: id in order <==> id in SelectedIds(old(products), req.category)
      ensures forall i, j :: 0 <= i < j < |order| ==> order[i] != order[j]
      ensures forall k :: 0 <= k < |order| ==> order[k] in old(products)
      ensures r.Updated() == |order| == |SelectedIds(old(products), req.category)|
      ensures order == [] ==>
        && r == NothingUpdated
        && products == old(products) && history == old(history)
        && clock == old(clock) && nextHistoryId == old(nextHistoryId)
      ensures order != [] ==> r == Applied(|order|, req.percentage, req.category)
      ensures nextProductId == old(nextProductId)
      ensures products.Keys == old(products).Keys
      ensures forall id :: id in products && id !in order ==> products[id] == old(products)[id]
      ensures forall k :: 0 <= k < |order| ==>
        products[order[k]] == old(products)[order[k]].(
          price := AdjustPrice(old(products)[order[k]].price, req.percentage),
          updatedAt := old(clock) + 2 * k + 1)
      ensures history == old(history) + BulkLog(old(products), order, req.percentage, req.reason,
                                                 old(nextHistoryId), old(clock))
    {
      var ids := SelectIds(req.category);
      order := ids;
      if |ids| == 0 {
        return NothingUpdated, order;
      }

      BulkTableSpec(products, ids, req.percentage, clock);
      var updatedCount := AdjustAll(ids, req.percentage, req.reason);
      r := Applied(updatedCount, req.percentage, req.category);
    }

    /** The price history of product `id`, newest first, or NotFound when the
        product is absent; a product with no entries has an empty history. */
    function GetHistory(id: int): (r: Result<seq<PriceHistory>>)
      requires Valid()
      reads this
      ensures r.Err? <==> id !in products
      ensures r.Err? ==> r.error == NotFound
      ensures r.Ok? ==> forall e :: e in r.value <==> e in history && e.productId == id
      ensures r.Ok? ==> Descending(r.value)
    {
      if id !in products then Err(NotFound) else Ok(HistoryOf(history, id))
    }
  }

  /** The table is keyed by product id, ids come from the counter, and a
      product was not updated before it was created nor after the clock. */
  ghost predicate TableInvariant(products: map<int, Product>, nextProductId: int, clock: int) {
    && 1 <= nextProductId
    && forall id :: id in products ==>
         && products[id].id == id
         && 1 <= id < nextProductId
         && products[id].createdAt <= products[id].updatedAt <= clock
  }

  /** The log's ids come from the counter, its timestamps from the clock, and
      both strictly increase along the log. */
  ghost predicate LogInvariant(history: seq<PriceHistory>, nextHistoryId: int, clock: int) {
    && (forall i :: 0 <= i < |history| ==>
          history[i].id < nextHistoryId && history[i].createdAt <= clock)
    && Ascending(history)
    && (forall i, j :: 0 <= i < j < |history| ==> history[i].id < history[j].id)
  }

  lemma ClockAdvances(products: map<int, Product>, nextProductId: int,
                      history: seq<PriceHistory>, nextHistoryId: int, clock: int, later: int)
    requires TableInvariant(products, nextProductId, clock) && LogInvariant(history, nextHistoryId, clock)
    requires clock <= later
    ensures TableInvariant(products, nextProductId, later) && LogInvariant(history, nextHistoryId, later)
  {
  }

  lemma TableAdd(products: map<int, Product>, nextProductId: int, clock: int, p: Product)
    requires TableInvariant(products, nextProductId, clock)
    requires p.id == nextProductId && p.createdAt <= p.updatedAt <= clock
    ensures nextProductId !in products
    ensures TableInvariant(products[p.id := p], nextProductId + 1, clock)
  {
  }

  lemma TableSet(products: map<int, Product>, nextProductId: int, clock: int, p: Product)
    requires TableInvariant(products, nextProductId, clock)
    requires p.id in products && p.createdAt <= p.updatedAt <= clock
    ensures TableInvariant(products[p.id := p], nextProductId, clock)
  {
  }

  lemma TableRemove(products: map<int, Product>, nextProductId: int, clock: int, id: int)
    requires TableInvariant(products, nextProductId, clock)
    ensures TableInvariant(products - {id}, nextProductId, clock)
  {
  }

  lemma LogAppend(history: seq<PriceHistory>, nextHistoryId: int, clock: int, e: PriceHistory)
    requires LogInvariant(history, nextHistoryId, clock)
    requires e.id == nextHistoryId && clock < e.createdAt
    ensures LogInvariant(history + [e], nextHistoryId + 1, e.createdAt)
  {
  }

  /** The entries the bulk loop logs when it visits `ids` in order, starting
      from history id `firstId` and clock reading `clock0`: for the k-th id,
      its old and adjusted prices and the request's reason. */
  function BulkLog(products: map<int, Product>, ids: seq<int>, percentage: int,
                   reason: Option<string>, firstId: int, clock0: int): seq<PriceHistory>
    requires forall k :: 0 <= k < |ids| ==> ids[k] in products
  {
    seq(|ids|, k requires 0 <= k < |ids| =>
      PriceHistory(firstId + k, ids[k], products[ids[k]].price,
                   AdjustPrice(products[ids[k]].price, percentage), reason, clock0 + 2 * k + 2))
  }

  /** The table after the first `turns` turns of the bulk loop over `ids`,
      started at clock reading `clock0`: the k-th id gets its adjusted price
      and the update time of the k-th turn. */
  ghost function BulkTable(products: map<int, Product>, ids: seq<int>, turns: nat, percentage: int,
                           clock0: int): (t: map<int, Product>)
    requires turns <= |ids|
    requires forall k :: 0 <= k < |ids| ==> ids[k] in products
    ensures t.Keys == products.Keys
  {
    if turns == 0 then products
    else
      var n := turns - 1;
      var p := products[ids[n]];
      BulkTable(products, ids, n, percentage, clock0)[ids[n] :=
        p.(price := AdjustPrice(p.price, percentage), updatedAt := clock0 + 2 * n + 1)]
  }

  /** An id the loop has not yet visited keeps its stored product. */
  lemma {:induction false} BulkTableFrame(products: map<int, Product>, ids: seq<int>, turns: nat,
                                          percentage: int, clock0: int, id: int)
    requires turns <= |ids|
    requires forall k :: 0 <= k < |ids| ==> ids[k] in products
    requires forall k :: 0 <= k < turns ==> ids[k] != id
    ensures id in products ==> BulkTable(products, ids, turns, percentage, clock0)[id] == products[id]
  {
    if turns > 0 {
      BulkTableFrame(products, ids, turns - 1, percentage, clock0, id);
    }
  }

  /** The k-th visited id holds its adjusted price and the update time of
      the k-th turn, provided no id is visited twice. */
  lemma {:induction false} BulkTableVisited(products: map<int, Product>, ids: seq<int>, turns: nat,
                                            percentage: int, clock0: int, k: int)
    requires turns <= |ids|
    requires forall i, j :: 0 <= i < j < |ids| ==> ids[i] != ids[j]
    requires forall j :: 0 <= j < |ids| ==> ids[j] in products
    requires 0 <= k < turns
    ensures BulkTable(products, ids, turns, percentage, clock0)[ids[k]] == products[ids[k]].(
      price := AdjustPrice(products[ids[k]].price, percentage),
      updatedAt := clock0 + 2 * k + 1)
  {
    var n := turns - 1;
    if k < n {
      assert ids[k] != ids[n];
      BulkTableVisited(products, ids, n, percentage, clock0, k);
    }
  }

  /** Turn k of the bulk loop on the table: the k-th id, which no earlier
      turn visited, gets its adjusted price and the update time of turn k. */
  lemma BulkTableStep(products: map<int, Product>, ids: seq<int>, k: nat, percentage: int, clock0: int)
    requires k < |ids|
    requires forall i, j :: 0 <= i < j < |ids| ==> ids[i] != ids[j]
    requires forall j :: 0 <= j < |ids| ==> ids[j] in products
    ensures var before := BulkTable(products, ids, k, percentage, clock0);
      && ids[k] in before && before[ids[k]] == products[ids[k]]
      && BulkTable(products, ids, k + 1, percentage, clock0)
         == before[ids[k] := before[ids[k]].(
              price := AdjustPrice(before[ids[k]].price, percentage),
              updatedAt := clock0 + 2 * k + 1)]
  {
    BulkTableFrame(products, ids, k, percentage, clock0, ids[k]);
  }

  /** Turn k of the bulk loop on the log: the k-th entry is appended. */
  lemma BulkLogStep(products: map<int, Product>, ids: seq<int>, k: nat, percentage: int,
                    reason: Option<string>, firstId: int, clock0: int)
    requires k < |ids|
    requires forall j :: 0 <= j < |ids| ==> ids[j] in products
    ensures var log := BulkLog(products, ids, percentage, reason, firstId, clock0);
      log[..k + 1] == log[..k] + [PriceHistory(firstId + k, ids[k], products[ids[k]].price,
                                               AdjustPrice(products[ids[k]].price, percentage),
                                               reason, clock0 + 2 * k + 2)]
  {
    var log := BulkLog(products, ids, percentage, reason, firstId, clock0);
    assert log[..k + 1] == log[..k] + [log[k]];
  }

  /** The bulk change on the table: the same ids are stored; every selected
      product gets its adjusted price and the update time of its turn in the
      loop, each exactly once; every other product is unchanged. */
  lemma BulkTableSpec(products: map<int, Product>, ids: seq<int>, percentage: int, clock0: int)
    requires forall i, j :: 0 <= i < j < |ids| ==> ids[i] != ids[j]
    requires forall k :: 0 <= k < |ids| ==> ids[k] in products
    ensures BulkTable(products, ids, |ids|, percentage, clock0).Keys == products.Keys
    ensures forall id :: id in products && id !in ids ==>
      BulkTable(products, ids, |ids|, percentage, clock0)[id] == products[id]
    ensures forall k :: 0 <= k < |ids| ==>
      BulkTable(products, ids, |ids|, percentage, clock0)[ids[k]] == products[ids[k]].(
        price := AdjustPrice(products[ids[k]].price, percentage),
        updatedAt := clock0 + 2 * k + 1)
  {
    forall id | id in products && id !in ids
      ensures BulkTable(products, ids, |ids|, percentage, clock0)[id] == products[id]
    {
      BulkTableFrame(products, ids, |ids|, percentage, clock0, id);
    }
    forall k | 0 <= k < |ids|
      ensures BulkTable(products, ids, |ids|, percentage, clock0)[ids[k]] == products[ids[k]].(
        price := AdjustPrice(products[ids[k]].price, percentage),
        updatedAt := clock0 + 2 * k + 1)
    {
      BulkTableVisited(products, ids, |ids|, percentage, clock0, k);
    }
  }

  /** The bulk log holds one entry per visited id, in visiting order, with
      the product's old price, its adjusted price and the request's reason;
      its ids and creation times strictly increase. */
  lemma BulkLogEntries(products: map<int, Product>, ids: seq<int>, percentage: int,
                       reason: Option<string>, firstId: int, clock0: int)
    requires forall k :: 0 <= k < |ids| ==> ids[k] in products
    ensures var log := BulkLog(products, ids, percentage, reason, firstId, clock0);
      && |log| == |ids| && Ascending(log)
      && (forall i, j :: 0 <= i < j < |log| ==> log[i].id < log[j].id)
      && (forall k :: 0 <= k < |log| ==>
            && log[k].productId == ids[k]
            && log[k].oldPrice == products[ids[k]].price
            && log[k].newPrice == AdjustPrice(products[ids[k]].price, percentage)
            && log[k].reason == reason)
  {
  }

  /** What a bulk change does to the price-history query: a selected
      product's history gains exactly its bulk entry, as the newest one, and
      every other product's history is as it was. */
  lemma BulkLogInHistory(log: seq<PriceHistory>, products: map<int, Product>, ids: seq<int>,
                         percentage: int, reason: Option<string>, firstId: int, clock0: int,
                         productId: int)
    requires forall i, j :: 0 <= i < j < |ids| ==> ids[i] != ids[j]
    requires forall k :: 0 <= k < |ids| ==> ids[k] in products
    ensures productId !in ids ==>
      HistoryOf(log + BulkLog(products, ids, percentage, reason, firstId, clock0), productId)
      == HistoryOf(log, productId)
    ensures forall k :: 0 <= k < |ids| && ids[k] == productId ==>
      HistoryOf(log + BulkLog(products, ids, percentage, reason, firstId, clock0), productId)
      == [BulkLog(products, ids, percentage, reason, firstId, clock0)[k]] + HistoryOf(log, productId)
  {
    var added := BulkLog(products, ids, percentage, reason, firstId, clock0);
    HistoryOfConcat(log, added, productId);
    var mine := HistoryOf(added, productId);
    assert mine != [] ==> mine[0] in mine;
    forall k | 0 <= k < |ids| && ids[k] == productId
      ensures mine == [added[k]]
    {
      SingleEntryHistory(added, k, productId);
    }
  }

  /** A sequence without repetitions is as long as the set of its elements. */
  lemma {:induction false} DistinctCard(xs: seq<int>)
    requires forall i, j :: 0 <= i < j < |xs| ==> xs[i] < xs[j]
    ensures |(set x | x in xs)| == |xs|
    decreases |xs|
  {
    if xs != [] {
      var init := xs[..|xs| - 1];
      DistinctCard(init);
      assert (set x | x in xs) == (set x | x in init) + {xs[|xs| - 1]};
      assert xs[|xs| - 1] !in (set x | x in init);
    }
  }
}

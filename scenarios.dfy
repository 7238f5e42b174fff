/**
 * Client-side consequences of the store's contracts: example request
 * sequences, derived from the specifications alone.
 */
module Scenarios {
  import opened Domain
  import opened History
  import opened Store

  /** A 10% bulk increase without a category on products priced 100.00 and
      200.00 yields 110.00 and 220.00, two history entries and a count of 2. */
  method BulkTenPercentScenario() returns (s: PriceStore, a: int, b: int, res: BulkResponse)
    ensures s.Valid()
    ensures a != b && s.products.Keys == {a, b}
    ensures s.products[a].price == 11000 && s.products[b].price == 22000
    ensures |s.history| == 2
    ensures res == Applied(2, 1000, None) && res.Updated() == 2
  {
    s := new PriceStore();
    var ra := s.CreateProduct(ProductCreate("Yerba", "Almacen", 6000, 10000));
    var rb := s.CreateProduct(ProductCreate("Cafe", "Almacen", 12000, 20000));
    a, b := ra.id, rb.id;
    assert s.products.Keys == {a, b};
    ghost var order: seq<int>;
    res, order := s.BulkIncrease(NewBulkRequest(1000, None));
    assert a in order && b in order;
    ghost var ka :| 0 <= ka < |order| && order[ka] == a;
    ghost var kb :| 0 <= kb < |order| && order[kb] == b;
    assert s.products[a].price == AdjustPrice(10000, 1000) == 11000;
    assert s.products[b].price == AdjustPrice(20000, 1000) == 22000;
  }

  /** A bulk request whose category matches no product answers that nothing
      was updated and changes nothing. */
  method EmptySelectionScenario(s: PriceStore, category: string) returns (res: BulkResponse)
    requires s.Valid() && category != ""
    requires forall id :: id in s.products ==> s.products[id].category != category
    modifies s
    ensures s.Valid()
    ensures res == NothingUpdated && res.Updated() == 0
    ensures s.products == old(s.products) && s.history == old(s.history)
  {
    assert forall id :: id !in SelectedIds(s.products, Some(category));
    assert SelectedIds(s.products, Some(category)) == {};
    ghost var order: seq<int>;
    res, order := s.BulkIncrease(NewBulkRequest(500, Some(category)));
  }

  /** After a deletion the product is NotFound for reading and for its
      history, while the log still holds its entries. */
  method DeleteScenario(s: PriceStore, id: int)
    requires s.Valid() && id in s.products
    modifies s
    ensures s.Valid()
    ensures s.GetProduct(id) == Err(NotFound)
    ensures s.GetHistory(id) == Err(NotFound)
    ensures s.history == old(s.history)
    ensures HistoryOf(s.history, id) == HistoryOf(old(s.history), id)
  {
    var r := s.DeleteProduct(id);
    assert r == Ok(DeletedDetail);
  }

  /** Updating only the name, then re-sending the stored price, logs
      nothing. */
  method UpdateWithoutPriceChangeScenario(s: PriceStore, id: int)
    requires s.Valid() && id in s.products
    modifies s
    ensures s.Valid()
    ensures s.history == old(s.history)
    ensures id in s.products && s.products[id].name == "Renombrado"
    ensures s.products[id].price == old(s.products[id].price)
    ensures s.GetHistory(id) == Ok(HistoryOf(old(s.history), id))
  {
    var price := s.products[id].price;
    var r1 := s.UpdateProduct(id, ProductUpdate(Some("Renombrado"), None, None, None));
    var r2 := s.UpdateProduct(id, ProductUpdate(None, None, None, Some(price)));
  }

  /** A new price logs one entry, which becomes the newest of the product's
      history, with the old and the new price. */
  method UpdateNewPriceScenario(s: PriceStore, id: int, newPrice: int)
    requires s.Valid() && id in s.products && newPrice != s.products[id].price
    modifies s
    ensures s.Valid()
    ensures |s.history| == |old(s.history)| + 1
    ensures s.history[|s.history| - 1].oldPrice == old(s.products[id].price)
    ensures s.history[|s.history| - 1].newPrice == newPrice
    ensures s.GetHistory(id) == Ok([s.history[|s.history| - 1]] + HistoryOf(old(s.history), id))
  {
    var h0 := s.history;
    var r := s.UpdateProduct(id, ProductUpdate(None, None, None, Some(newPrice)));
    var e := s.history[|s.history| - 1];
    assert s.history == h0 + [e];
    HistoryOfAppend(h0, e, id);
  }

  /** Margin examples: no cost gives 0, 100.00 against
      150.00 gives 50.00 %, equal cost and price give 0. */
  lemma MarginExamples(price: int)
    ensures ComputeMargin(0, price) == 0
    ensures ComputeMargin(10000, 15000) == 5000
    ensures ComputeMargin(10000, 10000) == 0
  {
  }
}

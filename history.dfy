/**
 * The price-history query: the entries of one product, newest first.
 * The log is kept in insertion order; with a strictly increasing clock
 * the order of creation times is the order of insertion, so the query's
 * "order by creation time, descending" is the reverse of that order.
 */
module History {
  import opened Domain

  /** Creation times strictly increase along the log. */
  predicate Ascending(log: seq<PriceHistory>) {
    forall i, j :: 0 <= i < j < |log| ==> log[i].createdAt < log[j].createdAt
  }

  /** Creation times strictly decrease along the sequence: newest first. */
  predicate Descending(s: seq<PriceHistory>) {
    forall i, j :: 0 <= i < j < |s| ==> s[i].createdAt > s[j].createdAt
  }

  /** The entries of `log` that refer to `productId`, latest-inserted first. */
  function HistoryOf(log: seq<PriceHistory>, productId: int): (r: seq<PriceHistory>)
    ensures forall e :: e in r <==> e in log && e.productId == productId
    ensures Ascending(log) ==> Descending(r)
    decreases |log|
  {
    if log == [] then []
    else
      var last := log[|log| - 1];
      var rest := HistoryOf(log[..|log| - 1], productId);
      if last.productId == productId then [last] + rest else rest
  }

  /** Appending one entry to the log puts it at the front of its own
      product's history and leaves every other product's history as it was. */
  lemma HistoryOfAppend(log: seq<PriceHistory>, e: PriceHistory, productId: int)
    ensures HistoryOf(log + [e], productId) ==
            if e.productId == productId then [e] + HistoryOf(log, productId)
            else HistoryOf(log, productId)
  {
    assert (log + [e])[..|log + [e]| - 1] == log;
  }

  /** In a newest-first sequence every later entry is older than the first. */
  lemma NewestFirst(s: seq<PriceHistory>, i: int)
    requires Descending(s) && 0 <= i < |s|
    ensures i == 0 || s[i].createdAt < s[0].createdAt
  {
  }

  /** The order the query asks for determines the answer: two newest-first
      sequences holding the same entries are the same sequence. */
  lemma {:induction false} DescendingUnique(a: seq<PriceHistory>, b: seq<PriceHistory>)
    requires Descending(a) && Descending(b)
    requires forall e :: e in a <==> e in b
    ensures a == b
    decreases |a|
  {
    assert a != [] ==> a[0] in b;
    assert b != [] ==> b[0] in a;
    if a != [] && b != [] {
      var j :| 0 <= j < |b| && b[j] == a[0];
      var k :| 0 <= k < |a| && a[k] == b[0];
      NewestFirst(b, j);
      NewestFirst(a, k);
      assert a[0] == b[0];
      SameTails(a, b);
      DescendingUnique(a[1..], b[1..]);
      assert a == [a[0]] + a[1..] && b == [b[0]] + b[1..];
    }
  }

  /** Two newest-first sequences with the same entries and the same first
      entry also agree on the entries after it. */
  lemma SameTails(a: seq<PriceHistory>, b: seq<PriceHistory>)
    requires Descending(a) && Descending(b) && a != [] && b != [] && a[0] == b[0]
    requires forall e :: e in a <==> e in b
    ensures forall e :: e in a[1..] <==> e in b[1..]
  {
    forall e | e in a[1..]
      ensures e in b[1..]
    {
      var i :| 1 <= i < |a| && a[i] == e;
      assert e.createdAt < a[0].createdAt;
      assert e in b;
    }
    forall e | e in b[1..]
      ensures e in a[1..]
    {
      var i :| 1 <= i < |b| && b[i] == e;
      assert e.createdAt < b[0].createdAt;
      assert e in a;
    }
  }

  /** Hence the query result is the only newest-first listing of exactly
      the product's entries. */
  lemma HistoryOfIsTheOrderedQuery(log: seq<PriceHistory>, productId: int, q: seq<PriceHistory>)
    requires Ascending(log)
    requires Descending(q)
    requires forall e :: e in q <==> e in log && e.productId == productId
    ensures q == HistoryOf(log, productId)
  {
    DescendingUnique(q, HistoryOf(log, productId));
  }

  /** The history over a log extended by `b` lists `b`'s entries before the
      older ones. */
  lemma {:induction false} HistoryOfConcat(a: seq<PriceHistory>, b: seq<PriceHistory>, productId: int)
    ensures HistoryOf(a + b, productId) == HistoryOf(b, productId) + HistoryOf(a, productId)
    decreases |b|
  {
    if b == [] {
      assert a + b == a;
    } else {
      var init, last := b[..|b| - 1], b[|b| - 1];
      var own := if last.productId == productId then [last] else [];
      assert b == init + [last];
      calc {
        HistoryOf(a + b, productId);
        { assert a + b == (a + init) + [last]; }
        HistoryOf((a + init) + [last], productId);
        { HistoryOfAppend(a + init, last, productId); }
        own + HistoryOf(a + init, productId);
        { HistoryOfConcat(a, init, productId); }
        own + (HistoryOf(init, productId) + HistoryOf(a, productId));
        { HistoryOfAppend(init, last, productId); }
        HistoryOf(b, productId) + HistoryOf(a, productId);
      }
    }
  }

  /** A log segment holding exactly one entry `e` for a product contributes
      exactly that entry to the product's history. */
  lemma SingleEntryHistory(b: seq<PriceHistory>, k: int, productId: int)
    requires Ascending(b)
    requires 0 <= k < |b| && b[k].productId == productId
    requires forall j :: 0 <= j < |b| && j != k ==> b[j].productId != productId
    ensures HistoryOf(b, productId) == [b[k]]
  {
    var h := HistoryOf(b, productId);
    forall e
      ensures e in h <==> e in [b[k]]
    {
      if e in b && e.productId == productId {
        var j :| 0 <= j < |b| && b[j] == e;
        assert j == k;
      }
    }
    DescendingUnique(h, [b[k]]);
  }
}

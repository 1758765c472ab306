/**
 * The sales side of the Square-to-MySQL integration script: orders from the
 * payments API are flattened into sale records, and the `sold_items` table
 * takes each record whose order id it has not seen yet.
 */
module SoldItems {
  import opened Common

  /** One row of `sold_items`, and one element of the flattened list. */
  datatype SaleRecord = SaleRecord(orderId: string, sku: string, quantity: int, createdAt: string)

  /** A line item as the order search returns it; either field may be missing. */
  datatype LineItem = LineItem(catalogObjectId: Option<string>, quantity: Option<int>)

  /** An order as the order search returns it (a missing `line_items` is the empty sequence). */
  datatype Order = Order(id: string, createdAt: string, lineItems: seq<LineItem>)

  // ---------------------------------------------------------------------------
  // Line-item flattener
  // ---------------------------------------------------------------------------

  /** The quantity of a line item; a missing one reads as 0. */
  function Quantity(item: LineItem): int {
    item.quantity.GetOr(0)
  }

  /** The filter of the flattener: a non-empty catalog object id and a positive quantity. */
  predicate Sellable(item: LineItem) {
    item.catalogObjectId.Some? && item.catalogObjectId.value != "" && Quantity(item) > 0
  }

  /** The record a sellable line item yields; its sku is the catalog object id itself. */
  function RecordOf(order: Order, item: LineItem): SaleRecord
    requires Sellable(item)
  {
    SaleRecord(order.id, item.catalogObjectId.value, Quantity(item), order.createdAt)
  }

  /** Records for the sellable items among `items`, all belonging to `order`, in item order. */
  function OrderRecords(order: Order, items: seq<LineItem>): seq<SaleRecord> {
    if items == [] then []
    else
      var last := items[|items| - 1];
      OrderRecords(order, items[..|items| - 1]) + (if Sellable(last) then [RecordOf(order, last)] else [])
  }

  /** The flattened list of all orders: each order's records, orders in input order. */
  function Flatten(orders: seq<Order>): seq<SaleRecord> {
    if orders == [] then []
    else
      var last := orders[|orders| - 1];
      Flatten(orders[..|orders| - 1]) + OrderRecords(last, last.lineItems)
  }

  /** Number of sellable items in `items`. */
  function CountSellable(items: seq<LineItem>): nat {
    if items == [] then 0
    else CountSellable(items[..|items| - 1]) + (if Sellable(items[|items| - 1]) then 1 else 0)
  }

  lemma OrderRecordsPrefix(order: Order, items: seq<LineItem>, j: nat)
    requires j < |items|
    ensures OrderRecords(order, items[..j + 1]) ==
            OrderRecords(order, items[..j]) + (if Sellable(items[j]) then [RecordOf(order, items[j])] else [])
  {
    assert items[..j + 1][..j] == items[..j];
  }

  lemma FlattenPrefix(orders: seq<Order>, i: nat)
    requires i < |orders|
    ensures Flatten(orders[..i + 1]) == Flatten(orders[..i]) + OrderRecords(orders[i], orders[i].lineItems)
  {
    assert orders[..i + 1][..i] == orders[..i];
  }

  /** The nested loops of the flattener, appending to the flat list. */
  method FlattenOrders(orders: seq<Order>) returns (newSoldItems: seq<SaleRecord>)
    ensures newSoldItems == Flatten(orders)
  {
    newSoldItems := [];
    for i := 0 to |orders|
      invariant newSoldItems == Flatten(orders[..i])
    {
      var order := orders[i];
      ghost var before := newSoldItems;
      for j := 0 to |order.lineItems|
        invariant newSoldItems == before + OrderRecords(order, order.lineItems[..j])
      {
        var item := order.lineItems[j];
        var quantity := Quantity(item);
        OrderRecordsPrefix(order, order.lineItems, j);
        if item.catalogObjectId.Some? && item.catalogObjectId.value != "" && quantity > 0 {
          newSoldItems := newSoldItems + [SaleRecord(order.id, item.catalogObjectId.value, quantity, order.createdAt)];
        }
      }
      assert order.lineItems[..|order.lineItems|] == order.lineItems;
      FlattenPrefix(orders, i);
    }
    assert orders[..|orders|] == orders;
  }

  lemma {:induction false} OrderRecordsAppend(order: Order, a: seq<LineItem>, b: seq<LineItem>)
    ensures OrderRecords(order, a + b) == OrderRecords(order, a) + OrderRecords(order, b)
    decreases |b|
  {
    if b == [] {
      assert a + b == a;
    } else {
      var b' := b[..|b| - 1];
      assert (a + b)[..|a + b| - 1] == a + b';
      OrderRecordsAppend(order, a, b');
    }
  }

  /** Each sellable line item yields exactly one record, and no other item yields any. */
  lemma {:induction false} OrderRecordsCount(order: Order, items: seq<LineItem>)
    ensures |OrderRecords(order, items)| == CountSellable(items)
  {
    if items != [] {
      OrderRecordsCount(order, items[..|items| - 1]);
    }
  }

  /** A record belongs to one order's records exactly when a sellable item of that order yields it. */
  lemma {:induction false} OrderRecordsMembership(order: Order, items: seq<LineItem>, r: SaleRecord)
    ensures r in OrderRecords(order, items) <==>
            exists j :: 0 <= j < |items| && Sellable(items[j]) && r == RecordOf(order, items[j])
  {
    if items != [] {
      var init := items[..|items| - 1];
      OrderRecordsMembership(order, init, r);
      if r in OrderRecords(order, items) && r !in OrderRecords(order, init) {
        assert Sellable(items[|items| - 1]) && r == RecordOf(order, items[|items| - 1]);
      }
      if exists j :: 0 <= j < |items| && Sellable(items[j]) && r == RecordOf(order, items[j]) {
        var j :| 0 <= j < |items| && Sellable(items[j]) && r == RecordOf(order, items[j]);
        if j < |init| {
          assert init[j] == items[j];
        }
      }
    }
  }

  /** Flattening a concatenation concatenates the flattenings: orders keep their input order. */
  lemma {:induction false} FlattenAppend(a: seq<Order>, b: seq<Order>)
    ensures Flatten(a + b) == Flatten(a) + Flatten(b)
    decreases |b|
  {
    if b == [] {
      assert a + b == a;
    } else {
      var b', last := b[..|b| - 1], b[|b| - 1];
      assert (a + b)[..|a + b| - 1] == a + b';
      assert (a + b)[|a + b| - 1] == last;
      calc {
        Flatten(a + b);
        Flatten(a + b') + OrderRecords(last, last.lineItems);
        { FlattenAppend(a, b'); }
        (Flatten(a) + Flatten(b')) + OrderRecords(last, last.lineItems);
        Flatten(a) + (Flatten(b') + OrderRecords(last, last.lineItems));
        Flatten(a) + Flatten(b);
      }
    }
  }

  /** Every record of the flattened list comes from some sellable line item of some order. */
  lemma {:induction false} FlattenSound(orders: seq<Order>, r: SaleRecord)
    requires r in Flatten(orders)
    ensures exists i, j :: 0 <= i < |orders| && 0 <= j < |orders[i].lineItems| &&
                           Sellable(orders[i].lineItems[j]) && r == RecordOf(orders[i], orders[i].lineItems[j])
  {
    var init := orders[..|orders| - 1];
    var last := orders[|orders| - 1];
    if r in Flatten(init) {
      FlattenSound(init, r);
      var i, j :| 0 <= i < |init| && 0 <= j < |init[i].lineItems| &&
                  Sellable(init[i].lineItems[j]) && r == RecordOf(init[i], init[i].lineItems[j]);
      assert orders[i] == init[i];
    } else {
      OrderRecordsMembership(last, last.lineItems, r);
      var j :| 0 <= j < |last.lineItems| && Sellable(last.lineItems[j]) && r == RecordOf(last, last.lineItems[j]);
      assert orders[|orders| - 1].lineItems[j] == last.lineItems[j];
    }
  }

  /** Every sellable line item of every order yields its record in the flattened list. */
  lemma FlattenComplete(orders: seq<Order>, i: nat, j: nat)
    requires i < |orders| && j < |orders[i].lineItems| && Sellable(orders[i].lineItems[j])
    ensures RecordOf(orders[i], orders[i].lineItems[j]) in Flatten(orders)
  {
    var r := RecordOf(orders[i], orders[i].lineItems[j]);
    OrderRecordsMembership(orders[i], orders[i].lineItems, r);
    assert orders == orders[..i + 1] + orders[i + 1..];
    FlattenAppend(orders[..i + 1], orders[i + 1..]);
    FlattenPrefix(orders, i);
  }

  /**
   * A record is in the flattened list exactly when some sellable line item of some
   * order yields it: it then carries that order's id and creation time, and the
   * item's catalog object id and quantity.
   */
  lemma FlattenMembership(orders: seq<Order>, r: SaleRecord)
    ensures r in Flatten(orders) <==>
            exists i, j :: 0 <= i < |orders| && 0 <= j < |orders[i].lineItems| &&
                           Sellable(orders[i].lineItems[j]) && r == RecordOf(orders[i], orders[i].lineItems[j])
  {
    if r in Flatten(orders) {
      FlattenSound(orders, r);
    }
    if exists i, j :: 0 <= i < |orders| && 0 <= j < |orders[i].lineItems| &&
                      Sellable(orders[i].lineItems[j]) && r == RecordOf(orders[i], orders[i].lineItems[j]) {
      var i, j :| 0 <= i < |orders| && 0 <= j < |orders[i].lineItems| &&
                  Sellable(orders[i].lineItems[j]) && r == RecordOf(orders[i], orders[i].lineItems[j]);
      FlattenComplete(orders, i, j);
    }
  }

  /** Every flattened record has a non-empty sku and a positive quantity. */
  lemma FlattenWellFormed(orders: seq<Order>)
    ensures forall r :: r in Flatten(orders) ==> r.sku != "" && r.quantity > 0
  {
    forall r | r in Flatten(orders)
      ensures r.sku != "" && r.quantity > 0
    {
      FlattenSound(orders, r);
    }
  }

  // ---------------------------------------------------------------------------
  // Dedupe against the store
  // ---------------------------------------------------------------------------

  /** The order ids of a sequence of records. */
  function IdsOf(items: seq<SaleRecord>): set<string> {
    set r | r in items :: r.orderId
  }

  /** No two records share an order id. */
  predicate DistinctIds(items: seq<SaleRecord>) {
    forall i, j :: 0 <= i < j < |items| ==> items[i].orderId != items[j].orderId
  }

  /** `a` is `b` with some elements left out, the rest in the same order. */
  predicate IsSubsequence<T(==)>(a: seq<T>, b: seq<T>) {
    if a == [] then true
    else if b == [] then false
    else (a[0] == b[0] && IsSubsequence(a[1..], b[1..])) || IsSubsequence(a, b[1..])
  }

  /**
   * The records the insert loop takes, in order, when the table already holds the
   * order ids `stored`: a record is taken when its order id is neither stored nor
   * taken earlier in the same loop.
   */
  function Dedupe(stored: set<string>, items: seq<SaleRecord>): seq<SaleRecord>
    decreases |items|
  {
    if items == [] then []
    else if items[0].orderId in stored then Dedupe(stored, items[1..])
    else [items[0]] + Dedupe(stored + {items[0].orderId}, items[1..])
  }

  lemma IdsOfAppend(a: seq<SaleRecord>, b: seq<SaleRecord>)
    ensures IdsOf(a + b) == IdsOf(a) + IdsOf(b)
  {
    forall id | id in IdsOf(a + b)
      ensures id in IdsOf(a) + IdsOf(b)
    {
      var r :| r in a + b && r.orderId == id;
    }
  }

  lemma IdsOfCons(x: SaleRecord, rest: seq<SaleRecord>)
    ensures IdsOf([x] + rest) == {x.orderId} + IdsOf(rest)
  {
    IdsOfAppend([x], rest);
    assert IdsOf([x]) == {x.orderId};
  }

  /** The loop's first turn, on a non-empty input. */
  lemma DedupeCons(stored: set<string>, x: SaleRecord, rest: seq<SaleRecord>)
    ensures Dedupe(stored, [x] + rest) ==
            if x.orderId in stored then Dedupe(stored, rest)
            else [x] + Dedupe(stored + {x.orderId}, rest)
  {
    assert ([x] + rest)[0] == x && ([x] + rest)[1..] == rest;
  }

  /** Running the loop over `a + b` is running it over `a`, then over `b` against the grown store. */
  lemma {:induction false} DedupeAppend(stored: set<string>, a: seq<SaleRecord>, b: seq<SaleRecord>)
    ensures Dedupe(stored, a + b) == Dedupe(stored, a) + Dedupe(stored + IdsOf(a), b)
    decreases |a|, 1
  {
    if a == [] {
      assert a + b == b;
      assert IdsOf(a) == {};
      assert stored + IdsOf(a) == stored;
    } else if a[0].orderId in stored {
      DedupeAppendSkip(stored, a, b);
    } else {
      DedupeAppendTake(stored, a, b);
    }
  }

  /** DedupeAppend when the first record's id is already stored. */
  lemma {:induction false} DedupeAppendSkip(stored: set<string>, a: seq<SaleRecord>, b: seq<SaleRecord>)
    requires a != [] && a[0].orderId in stored
    ensures Dedupe(stored, a + b) == Dedupe(stored, a) + Dedupe(stored + IdsOf(a), b)
    decreases |a|, 0
  {
    var x, a' := a[0], a[1..];
    assert a == [x] + a';
    assert a + b == [x] + (a' + b);
    calc {
      Dedupe(stored, a + b);
      { DedupeCons(stored, x, a' + b); }
      Dedupe(stored, a' + b);
      { DedupeAppend(stored, a', b); }
      Dedupe(stored, a') + Dedupe(stored + IdsOf(a'), b);
      { DedupeCons(stored, x, a');
        IdsOfCons(x, a');
        assert stored + IdsOf(a) == stored + IdsOf(a'); }
      Dedupe(stored, a) + Dedupe(stored + IdsOf(a), b);
    }
  }

  /** DedupeAppend when the first record's id is new. */
  lemma {:induction false} DedupeAppendTake(stored: set<string>, a: seq<SaleRecord>, b: seq<SaleRecord>)
    requires a != [] && a[0].orderId !in stored
    ensures Dedupe(stored, a + b) == Dedupe(stored, a) + Dedupe(stored + IdsOf(a), b)
    decreases |a|, 0
  {
    var x, a' := a[0], a[1..];
    var s' := stored + {x.orderId};
    assert a == [x] + a';
    assert a + b == [x] + (a' + b);
    calc {
      Dedupe(stored, a + b);
      { DedupeCons(stored, x, a' + b); }
      [x] + Dedupe(s', a' + b);
      { DedupeAppend(s', a', b); }
      [x] + (Dedupe(s', a') + Dedupe(s' + IdsOf(a'), b));
      ([x] + Dedupe(s', a')) + Dedupe(s' + IdsOf(a'), b);
      { DedupeCons(stored, x, a');
        IdsOfCons(x, a');
        assert s' + IdsOf(a') == stored + IdsOf(a); }
      Dedupe(stored, a) + Dedupe(stored + IdsOf(a), b);
    }
  }

  /**
   * The record at position i is taken exactly when its order id is absent from the
   * table as it stands when that record is checked: the ids stored before the call
   * plus those of the records before it (each of which is in the table by then).
   */
  lemma DedupeStep(stored: set<string>, items: seq<SaleRecord>, i: nat)
    requires i < |items|
    ensures Dedupe(stored, items[..i + 1]) ==
            Dedupe(stored, items[..i]) +
            (if items[i].orderId in stored + IdsOf(items[..i]) then [] else [items[i]])
  {
    assert items[..i + 1] == items[..i] + [items[i]];
    DedupeAppend(stored, items[..i], [items[i]]);
    assert [items[i]][1..] == [];
  }

  /** The taken records are a subsequence of the input, in input order. */
  lemma {:induction false} DedupeIsSubsequence(stored: set<string>, items: seq<SaleRecord>)
    ensures IsSubsequence(Dedupe(stored, items), items)
    decreases |items|
  {
    if items != [] {
      if items[0].orderId in stored {
        DedupeIsSubsequence(stored, items[1..]);
      } else {
        DedupeIsSubsequence(stored + {items[0].orderId}, items[1..]);
      }
    }
  }

  /** The ids the loop adds are exactly the input's ids that were not already stored. */
  lemma {:induction false} DedupeIds(stored: set<string>, items: seq<SaleRecord>)
    ensures IdsOf(Dedupe(stored, items)) == IdsOf(items) - stored
    decreases |items|
  {
    if items != [] {
      assert items == [items[0]] + items[1..];
      IdsOfAppend([items[0]], items[1..]);
      assert IdsOf([items[0]]) == {items[0].orderId};
      if items[0].orderId in stored {
        DedupeIds(stored, items[1..]);
      } else {
        DedupeIds(stored + {items[0].orderId}, items[1..]);
        IdsOfAppend([items[0]], Dedupe(stored + {items[0].orderId}, items[1..]));
      }
    }
  }

  /** No two taken records share an order id, and none has an id that was already stored. */
  lemma {:induction false} DedupeDistinct(stored: set<string>, items: seq<SaleRecord>)
    ensures DistinctIds(Dedupe(stored, items))
    ensures IdsOf(Dedupe(stored, items)) !! stored
    decreases |items|
  {
    DedupeIds(stored, items);
    if items != [] {
      if items[0].orderId in stored {
        DedupeDistinct(stored, items[1..]);
      } else {
        var s' := stored + {items[0].orderId};
        var rest := Dedupe(s', items[1..]);
        DedupeDistinct(s', items[1..]);
        var out := [items[0]] + rest;
        forall i, j | 0 <= i < j < |out|
          ensures out[i].orderId != out[j].orderId
        {
          if i == 0 {
            assert out[j] == rest[j - 1];
            assert out[j].orderId in IdsOf(rest);
          } else {
            assert out[i] == rest[i - 1] && out[j] == rest[j - 1];
          }
        }
      }
    }
  }

  /** When every input id is already stored, the loop takes nothing. */
  lemma {:induction false} DedupeAllStored(stored: set<string>, items: seq<SaleRecord>)
    requires IdsOf(items) <= stored
    ensures Dedupe(stored, items) == []
    decreases |items|
  {
    if items != [] {
      assert items[0] in items;
      assert IdsOf(items[1..]) <= IdsOf(items) by {
        forall r | r in items[1..] ensures r in items { }
      }
      DedupeAllStored(stored, items[1..]);
    }
  }

  /**
   * Idempotence: after one run the store holds every input id, and a second run over
   * the same input against that store takes nothing and so leaves the store as it is.
   */
  lemma DedupeIdempotent(stored: set<string>, items: seq<SaleRecord>)
    ensures stored + IdsOf(Dedupe(stored, items)) == stored + IdsOf(items)
    ensures Dedupe(stored + IdsOf(Dedupe(stored, items)), items) == []
  {
    DedupeIds(stored, items);
    DedupeAllStored(stored + IdsOf(items), items);
  }

  // ---------------------------------------------------------------------------
  // The sold_items table
  // ---------------------------------------------------------------------------

  /** One step of the insert loop, at position i. */
  lemma DedupeUnfold(stored: set<string>, items: seq<SaleRecord>, i: nat)
    requires i < |items|
    ensures Dedupe(stored, items[i..]) ==
            if items[i].orderId in stored then Dedupe(stored, items[i + 1..])
            else [items[i]] + Dedupe(stored + {items[i].orderId}, items[i + 1..])
  {
    assert items[i..][0] == items[i] && items[i..][1..] == items[i + 1..];
  }

  lemma IdsOfPush(items: seq<SaleRecord>, item: SaleRecord)
    ensures IdsOf(items + [item]) == IdsOf(items) + {item.orderId}
  {
    IdsOfAppend(items, [item]);
    assert IdsOf([item]) == {item.orderId};
  }

  /** Appending a record with a fresh order id keeps the ids distinct. */
  lemma PushNewId(items: seq<SaleRecord>, item: SaleRecord)
    requires DistinctIds(items) && item.orderId !in IdsOf(items)
    ensures DistinctIds(items + [item])
    ensures IdsOf(items + [item]) == IdsOf(items) + {item.orderId}
  {
    IdsOfPush(items, item);
    var out := items + [item];
    forall a, b | 0 <= a < b < |out|
      ensures out[a].orderId != out[b].orderId
    {
      assert out[a] == items[a];
      if b == |items| {
        assert items[a].orderId in IdsOf(items);
      } else {
        assert out[b] == items[b];
      }
    }
  }

  /**
   * The state of the insert loop after its first i records, starting from the rows
   * `before`: the table has grown by exactly the records taken so far, its ids stay
   * distinct, and what is taken so far followed by what the rest of the loop takes
   * against the current table is what the whole loop takes.
   */
  ghost predicate SaveProgress(before: seq<SaleRecord>, items: seq<SaleRecord>, i: nat,
                               rows: seq<SaleRecord>, recovered: seq<SaleRecord>)
  {
    && i <= |items|
    && rows == before + recovered
    && IdsOf(rows) == IdsOf(before) + IdsOf(recovered)
    && recovered + Dedupe(IdsOf(rows), items[i..]) == Dedupe(IdsOf(before), items)
    && (DistinctIds(before) ==> DistinctIds(rows))
  }

  /** A turn of the insert loop that finds the order id stored keeps SaveProgress. */
  lemma SaveSkip(before: seq<SaleRecord>, items: seq<SaleRecord>, i: nat,
                 rows: seq<SaleRecord>, recovered: seq<SaleRecord>)
    requires SaveProgress(before, items, i, rows, recovered) && i < |items|
    requires items[i].orderId in IdsOf(rows)
    ensures SaveProgress(before, items, i + 1, rows, recovered)
  {
    DedupeUnfold(IdsOf(rows), items, i);
  }

  /** Inserting `item` into the table and the result keeps the table's ids the old ids plus the result's. */
  lemma InsertKeepsIds(before: seq<SaleRecord>, rows: seq<SaleRecord>, recovered: seq<SaleRecord>, item: SaleRecord)
    requires IdsOf(rows) == IdsOf(before) + IdsOf(recovered)
    ensures IdsOf(rows + [item]) == IdsOf(before) + IdsOf(recovered + [item])
  {
    IdsOfPush(rows, item);
    IdsOfPush(recovered, item);
  }

  /** Taking the record at position i, whose id is not stored, keeps the result on track for the whole loop. */
  lemma InsertKeepsDedupe(items: seq<SaleRecord>, i: nat, rows: seq<SaleRecord>, recovered: seq<SaleRecord>,
                          total: seq<SaleRecord>)
    requires i < |items| && items[i].orderId !in IdsOf(rows)
    requires recovered + Dedupe(IdsOf(rows), items[i..]) == total
    ensures (recovered + [items[i]]) + Dedupe(IdsOf(rows + [items[i]]), items[i + 1..]) == total
  {
    var item := items[i];
    var rest := Dedupe(IdsOf(rows) + {item.orderId}, items[i + 1..]);
    IdsOfPush(rows, item);
    DedupeUnfold(IdsOf(rows), items, i);
    assert (recovered + [item]) + rest == recovered + ([item] + rest);
  }

  /** A turn of the insert loop that inserts a record with a new order id keeps SaveProgress. */
  lemma SaveInsert(before: seq<SaleRecord>, items: seq<SaleRecord>, i: nat,
                   rows: seq<SaleRecord>, recovered: seq<SaleRecord>)
    requires SaveProgress(before, items, i, rows, recovered) && i < |items|
    requires items[i].orderId !in IdsOf(rows)
    ensures SaveProgress(before, items, i + 1, rows + [items[i]], recovered + [items[i]])
  {
    InsertKeepsIds(before, rows, recovered, items[i]);
    InsertKeepsDedupe(items, i, rows, recovered, Dedupe(IdsOf(before), items));
    if DistinctIds(before) {
      PushNewId(rows, items[i]);
    }
  }

  /** One turn of the insert loop keeps SaveProgress, whether or not it inserts. */
  lemma SaveStep(before: seq<SaleRecord>, items: seq<SaleRecord>, i: nat,
                 rows: seq<SaleRecord>, recovered: seq<SaleRecord>)
    requires SaveProgress(before, items, i, rows, recovered) && i < |items|
    ensures items[i].orderId in IdsOf(rows) ==> SaveProgress(before, items, i + 1, rows, recovered)
    ensures items[i].orderId !in IdsOf(rows) ==>
              SaveProgress(before, items, i + 1, rows + [items[i]], recovered + [items[i]])
  {
    if items[i].orderId in IdsOf(rows) {
      SaveSkip(before, items, i, rows, recovered);
    } else {
      SaveInsert(before, items, i, rows, recovered);
    }
  }

  /** Number of records in `rows` with order id `orderId` (the COUNT(*) query). */
  function CountOrder(rows: seq<SaleRecord>, orderId: string): (n: nat)
    ensures n > 0 <==> orderId in IdsOf(rows)
    ensures n <= |rows|
  {
    if rows == [] then 0
    else
      var init := rows[..|rows| - 1];
      assert rows == init + [rows[|rows| - 1]];
      IdsOfAppend(init, [rows[|rows| - 1]]);
      assert IdsOf([rows[|rows| - 1]]) == {rows[|rows| - 1].orderId};
      CountOrder(init, orderId) + (if rows[|rows| - 1].orderId == orderId then 1 else 0)
  }

  /** The `sold_items` table of the sales database. */
  class SoldItemsTable {
    var rows: seq<SaleRecord>

    /** The UNIQUE constraint on `order_id`. */
    ghost predicate Valid()
      reads this
    {
      DistinctIds(rows)
    }

    /** The order ids the table holds. */
    function Ids(): set<string>
      reads this
    {
      IdsOf(rows)
    }

    constructor ()
      ensures Valid() && rows == []
    {
      rows := [];
    }

    /** `is_order_processed`: does some row carry this order id? */
    function IsOrderProcessed(orderId: string): (processed: bool)
      reads this
      ensures processed <==> orderId in Ids()
    {
      CountOrder(rows, orderId) > 0
    }

    /**
     * `save_sold_items`: for each record in input order, insert it and report it
     * when its order id is not in the table yet. Inserts are visible to later checks.
     */
    method SaveSoldItems(soldItems: seq<SaleRecord>) returns (recoveredOrders: seq<SaleRecord>)
      requires Valid()
      modifies this
      ensures Valid()
      ensures recoveredOrders == Dedupe(old(Ids()), soldItems)
      ensures rows == old(rows) + recoveredOrders
      ensures Ids() == old(Ids()) + IdsOf(soldItems)
      ensures Dedupe(Ids(), soldItems) == []
    {
      recoveredOrders := [];
      for i := 0 to |soldItems|
        invariant SaveProgress(old(rows), soldItems, i, rows, recoveredOrders)
      {
        var item := soldItems[i];
        SaveStep(old(rows), soldItems, i, rows, recoveredOrders);
        if !IsOrderProcessed(item.orderId) {
          rows := rows + [item];
          recoveredOrders := recoveredOrders + [item];
        }
      }
      assert soldItems[|soldItems|..] == [];
      DedupeIdempotent(IdsOf(old(rows)), soldItems);
    }
  }

  /** A second line item of an order already taken in the same run is not saved. */
  lemma SecondLineItemOfOrderDropped(stored: set<string>, a: SaleRecord, b: SaleRecord)
    requires a.orderId !in stored && b.orderId == a.orderId
    ensures Dedupe(stored, [a, b]) == [a]
  {
    assert [a, b][1..] == [b];
    assert Dedupe(stored, [a, b]) == [a] + Dedupe(stored + {a.orderId}, [b]);
    assert [b][1..] == [];
    assert Dedupe(stored + {a.orderId}, [b]) == Dedupe(stored + {a.orderId}, []);
  }
}

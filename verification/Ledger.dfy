/** The stock ledger of `database/databaseServer.c`: what verifying, clamping, recording and
    debiting an order do to the tables, as functions, with the laws they obey.
    The SQL engine is its tables; `check(quantity >= 0)` is an update that fails. */
module Ledger {
  import opened Bytes
  import opened Orders

  type Stock = map<int32, int>

  datatype CatalogueRow = CatalogueRow(id: int32, name: seq<byte>, description: seq<byte>, price: float4)
  datatype OrderRow = OrderRow(id: nat, address: seq<byte>)
  datatype LineRow = LineRow(orderId: nat, productId: int32, quantity: int)

  /** The products table is split in its fixed columns, in rowid order, and its quantities. */
  datatype Tables =
    Tables(catalogue: seq<CatalogueRow>, stock: Stock, orders: seq<OrderRow>, lines: seq<LineRow>)

  ghost predicate ValidStock(stock: Stock) {
    forall id :: id in stock ==> 0 <= stock[id] <= INT_MAX
  }

  /** Every line names a product of the catalogue and asks for no negative quantity. */
  predicate Known(es: seq<Entry>, stock: Stock) {
    forall k :: 0 <= k < |es| ==> es[k].productId in stock && es[k].quantity >= 0
  }

  // ------------------------------------------------------- verifying and clamping

  predicate Satisfiable(es: seq<Entry>, stock: Stock)
    requires Known(es, stock)
  {
    forall k :: 0 <= k < |es| ==> es[k].quantity <= stock[es[k].productId]
  }

  function ClampedEntry(e: Entry, stock: Stock): Entry
    requires e.productId in stock
  {
    if stock[e.productId] < e.quantity then e.(quantity := stock[e.productId]) else e
  }

  function Clamped(es: seq<Entry>, stock: Stock): (r: seq<Entry>)
    requires Known(es, stock)
    ensures |r| == |es|
  {
    seq(|es|, k requires 0 <= k < |es| => ClampedEntry(es[k], stock))
  }

  /** `sub` asks for the same products, in the same order, and for no more of any. */
  predicate SubOrder(sub: seq<Entry>, es: seq<Entry>) {
    && |sub| == |es|
    && forall k :: 0 <= k < |es| ==>
         && sub[k].productId == es[k].productId
         && sub[k].price == es[k].price
         && 0 <= sub[k].quantity <= es[k].quantity
  }

  /** Clamping yields the largest satisfiable sub-order: it is one, every other lies below it
      line by line, and clamping again or clamping what could be met changes nothing. */
  lemma ClampedIsLargest(es: seq<Entry>, stock: Stock, sub: seq<Entry>)
    requires ValidStock(stock) && Known(es, stock)
    ensures SubOrder(Clamped(es, stock), es)
    ensures Known(Clamped(es, stock), stock) && Satisfiable(Clamped(es, stock), stock)
    ensures DistinctIds(es) ==> DistinctIds(Clamped(es, stock))
    ensures SubOrder(sub, es) && Known(sub, stock) && Satisfiable(sub, stock) ==> SubOrder(sub, Clamped(es, stock))
    ensures Clamped(es, stock) == es <==> Satisfiable(es, stock)
  {
  }

  // -------------------------------------------------------------------- debiting

  datatype DebitResult = DebitResult(stock: Stock, ok: bool)

  /** The debit loop: one UPDATE a line, stopping at the first that the CHECK refuses.
      Nothing undoes the lines before it. */
  function Debit(stock: Stock, es: seq<Entry>): (d: DebitResult)
    requires Known(es, stock)
    ensures d.stock.Keys == stock.Keys
  {
    if es == [] then DebitResult(stock, true) else
    var d, e := Debit(stock, es[..|es| - 1]), es[|es| - 1];
    if !d.ok then d
    else if d.stock[e.productId] - e.quantity < 0 then DebitResult(d.stock, false)
    else DebitResult(d.stock[e.productId := d.stock[e.productId] - e.quantity], true)
  }

  function Total(es: seq<Entry>, id: int32): int {
    if es == [] then 0 else
    var e := es[|es| - 1];
    Total(es[..|es| - 1], id) + if e.productId == id then e.quantity else 0
  }

  lemma {:induction false} TotalsArePositive(es: seq<Entry>, id: int32, stock: Stock)
    requires Known(es, stock)
    ensures Total(es, id) >= 0
  {
    if es != [] {
      TotalsArePositive(es[..|es| - 1], id, stock);
    }
  }

  lemma {:induction false} DebitIsPointwise(stock: Stock, es: seq<Entry>)
    requires ValidStock(stock) && Known(es, stock)
    ensures ValidStock(Debit(stock, es).stock)
    ensures Debit(stock, es).ok ==>
              forall id :: id in stock ==> Debit(stock, es).stock[id] == stock[id] - Total(es, id)
  {
    if es != [] {
      DebitIsPointwise(stock, es[..|es| - 1]);
    }
  }

  ghost predicate CoveredInTotal(stock: Stock, es: seq<Entry>) {
    forall id :: id in stock ==> Total(es, id) <= stock[id]
  }

  /** The debit loop gets to its end exactly when the stock covers each product's total. */
  lemma {:induction false} DebitSucceedsIffCovered(stock: Stock, es: seq<Entry>)
    requires ValidStock(stock) && Known(es, stock)
    ensures Debit(stock, es).ok <==> CoveredInTotal(stock, es)
  {
    if es != [] {
      var n := |es| - 1;
      var e := es[n];
      DebitSucceedsIffCovered(stock, es[..n]);
      DebitIsPointwise(stock, es[..n]);
      if CoveredInTotal(stock, es) {
        forall id | id in stock ensures Total(es[..n], id) <= stock[id] {
          assert Total(es, id) <= stock[id];
        }
      } else if Debit(stock, es[..n]).ok {
        var id :| id in stock && Total(es, id) > stock[id];
        assert id == e.productId;
      } else {
        var id :| id in stock && Total(es[..n], id) > stock[id];
        assert Total(es, id) > stock[id];
      }
      if Debit(stock, es).ok {
        DebitIsPointwise(stock, es);
        var after := Debit(stock, es).stock;
        forall id | id in stock ensures Total(es, id) <= stock[id] {
          assert after[id] == stock[id] - Total(es, id) && id in after && 0 <= after[id];
        }
      } else if Debit(stock, es[..n]).ok {
        assert Debit(stock, es[..n]).stock[e.productId] < e.quantity;
        assert Total(es, e.productId) > stock[e.productId];
      }
    }
  }

  lemma {:induction false} TotalOfDistinct(es: seq<Entry>, id: int32)
    requires DistinctIds(es)
    ensures (forall k :: 0 <= k < |es| ==> es[k].productId != id) ==> Total(es, id) == 0
    ensures forall k :: 0 <= k < |es| && es[k].productId == id ==> Total(es, id) == es[k].quantity
  {
    if es != [] {
      TotalOfDistinct(es[..|es| - 1], id);
    }
  }

  lemma DistinctLinesCoverTotals(stock: Stock, es: seq<Entry>)
    requires ValidStock(stock) && Known(es, stock) && DistinctIds(es)
    ensures CoveredInTotal(stock, es) <==> Satisfiable(es, stock)
  {
    forall id | id in stock
      ensures Satisfiable(es, stock) ==> Total(es, id) <= stock[id]
    {
      TotalOfDistinct(es, id);
    }
    if CoveredInTotal(stock, es) {
      forall k | 0 <= k < |es| ensures es[k].quantity <= stock[es[k].productId] {
        TotalOfDistinct(es, es[k].productId);
      }
    }
  }

  // -------------------------------------------------------------- placing an order

  datatype Outcome = Accepted | Failed | Reduced(order: OrderData)

  function LineRows(orderId: nat, es: seq<Entry>): (rows: seq<LineRow>)
    ensures |rows| == |es|
  {
    seq(|es|, k requires 0 <= k < |es| => LineRow(orderId, es[k].productId, es[k].quantity))
  }

  /** An order the database can place: an address is set that the query buffer always has room
      for, and the lines are known. */
  predicate Placeable(o: OrderData, stock: Stock) {
    o.address.Some? && |o.address.value| <= ADDRESS_MAX && Known(o.entries, stock)
  }

  function Recorded(t: Tables, o: OrderData): Tables
    requires o.address.Some?
  {
    var id := |t.orders| + 1;
    t.(orders := t.orders + [OrderRow(id, o.address.value)], lines := t.lines + LineRows(id, o.entries))
  }

  function Placed(t: Tables, o: OrderData): (r: (Tables, Outcome))
    requires Placeable(o, t.stock)
    ensures r.0.catalogue == t.catalogue && r.0.stock.Keys == t.stock.Keys
  {
    if Satisfiable(o.entries, t.stock) then
      var d := Debit(t.stock, o.entries);
      (Recorded(t, o).(stock := d.stock), if d.ok then Accepted else Failed)
    else
      (t, Reduced(o.(entries := Clamped(o.entries, t.stock))))
  }

  /** All or nothing, for an order with distinct ids: either every line is recorded and
      debited, or no table changes and the reply carries the clamped order. */
  lemma AllOrNothing(t: Tables, o: OrderData)
    requires ValidStock(t.stock) && Placeable(o, t.stock) && DistinctIds(o.entries)
    ensures var (after, outcome) := Placed(t, o);
            if Satisfiable(o.entries, t.stock) then
              && outcome == Accepted
              && after == Recorded(t, o).(stock := after.stock)
              && (forall k :: 0 <= k < |o.entries| ==>
                    after.stock[o.entries[k].productId] == t.stock[o.entries[k].productId] - o.entries[k].quantity)
              && (forall id :: id in t.stock && IndexOf(o.entries, id) == |o.entries| ==>
                    after.stock[id] == t.stock[id])
            else
              after == t && outcome == Reduced(o.(entries := Clamped(o.entries, t.stock)))
  {
    if Satisfiable(o.entries, t.stock) {
      DistinctLinesCoverTotals(t.stock, o.entries);
      DebitSucceedsIffCovered(t.stock, o.entries);
      DebitIsPointwise(t.stock, o.entries);
      forall id | id in t.stock
        ensures IndexOf(o.entries, id) == |o.entries| ==> Total(o.entries, id) == 0
        ensures forall k :: 0 <= k < |o.entries| && o.entries[k].productId == id ==>
                  Total(o.entries, id) == o.entries[k].quantity
      {
        TotalOfDistinct(o.entries, id);
      }
    }
  }

  /** Without distinct ids the reply is an error exactly when each line alone can be met
      and some product's total cannot: verification looks at one line at a time. */
  lemma FailsIffOnlyTheTotalIsShort(t: Tables, o: OrderData)
    requires ValidStock(t.stock) && Placeable(o, t.stock)
    ensures Placed(t, o).1 == Failed
         <==> Satisfiable(o.entries, t.stock) && !CoveredInTotal(t.stock, o.entries)
  {
    DebitSucceedsIffCovered(t.stock, o.entries);
  }

  /** Two lines for the same last bottle: recorded in full, debited once, answered with an error. */
  lemma RepeatedIdBreaksAllOrNothing(price: float4)
    ensures var t := Tables([], map[1 := 1], [], []);
            var o := OrderData(Some([]), [Entry(1, 1, price), Entry(1, 1, price)]);
            && Placeable(o, t.stock)
            && Placed(t, o).1 == Failed
            && Placed(t, o).0.stock == map[1 := 0]
            && |Placed(t, o).0.lines| == 2
  {
    var stock: Stock := map[1 := 1];
    var e := Entry(1, 1, price);
    assert [e, e][..1] == [e] && [e][..0] == [];
    assert Debit(stock, [e]) == DebitResult(map[1 := 0], true);
    assert Debit(stock, [e, e]) == DebitResult(map[1 := 0], false);
  }

  // ------------------------------------------------------------------ what is on record

  /** The lines that stand under an order's id, in the order they were recorded. */
  function LinesOf(lines: seq<LineRow>, orderId: nat): seq<LineRow> {
    if lines == [] then [] else
    var row := lines[|lines| - 1];
    LinesOf(lines[..|lines| - 1], orderId) + if row.orderId == orderId then [row] else []
  }

  lemma {:induction false} LinesOfSelects(lines: seq<LineRow>, orderId: nat, row: LineRow)
    ensures multiset(LinesOf(lines, orderId))[row] == if row.orderId == orderId then multiset(lines)[row] else 0
  {
    if lines != [] {
      var n := |lines| - 1;
      LinesOfSelects(lines[..n], orderId, row);
      assert lines == lines[..n] + [lines[n]];
    }
  }

  /** Order rows count up from one, and every line stands under one of them. */
  ghost predicate Numbered(t: Tables) {
    && (forall k :: 0 <= k < |t.orders| ==> t.orders[k].id == k + 1)
    && (forall k :: 0 <= k < |t.lines| ==> 1 <= t.lines[k].orderId <= |t.orders|)
  }

  /** These rows say what those entries say. */
  predicate SayTheSame(rows: seq<LineRow>, es: seq<Entry>) {
    && |rows| == |es|
    && forall k :: 0 <= k < |es| ==> rows[k].productId == es[k].productId && rows[k].quantity == es[k].quantity
  }

  /** One order went on record: a row of its own, with its address, its lines under that row's new
      id, and everything else as it was. */
  ghost predicate OnRecord(t: Tables, o: OrderData, after: Tables) {
    && o.address.Some? && |after.orders| == |t.orders| + 1 && after.orders[..|t.orders|] == t.orders
    && var row := after.orders[|t.orders|];
    && row.address == o.address.value
    && (forall k :: 0 <= k < |t.orders| ==> t.orders[k].id != row.id)
    && SayTheSame(LinesOf(after.lines, row.id), o.entries)
    && t.lines <= after.lines && |after.lines| == |t.lines| + |o.entries|
    && (forall k :: |t.lines| <= k < |after.lines| ==> after.lines[k].orderId == row.id)
    && forall id :: id != row.id ==> LinesOf(after.lines, id) == LinesOf(t.lines, id)
  }

  lemma {:induction false} LinesOfLonger(lines: seq<LineRow>, orderId: nat, es: seq<Entry>, id: nat)
    ensures LinesOf(lines + LineRows(orderId, es), id)
         == LinesOf(lines, id) + if id == orderId then LineRows(orderId, es) else []
  {
    hide LinesOf;
    if es == [] {
      assert lines + LineRows(orderId, es) == lines;
    } else {
      var n := |es| - 1;
      var row, before := LineRow(orderId, es[n].productId, es[n].quantity), LineRows(orderId, es[..n]);
      assert LineRows(orderId, es) == before + [row];
      assert lines + LineRows(orderId, es) == lines + before + [row];
      LinesOfLonger(lines, orderId, es[..n], id);
      OneLineMore(lines + before, row, id);
    }
  }

  lemma OneLineMore(lines: seq<LineRow>, row: LineRow, id: nat)
    ensures LinesOf(lines + [row], id) == LinesOf(lines, id) + if row.orderId == id then [row] else []
  {
    assert (lines + [row])[..|lines|] == lines;
  }

  lemma {:induction false} NoLinesOfNewOrder(lines: seq<LineRow>, id: nat)
    requires forall k :: 0 <= k < |lines| ==> lines[k].orderId != id
    ensures LinesOf(lines, id) == []
  {
    if lines != [] {
      NoLinesOfNewOrder(lines[..|lines| - 1], id);
    }
  }

  lemma RecordingPutsOnRecord(t: Tables, o: OrderData)
    requires Numbered(t) && o.address.Some?
    ensures OnRecord(t, o, Recorded(t, o)) && Numbered(Recorded(t, o))
    ensures Recorded(t, o).catalogue == t.catalogue && Recorded(t, o).stock == t.stock
  {
    var id := |t.orders| + 1;
    NoLinesOfNewOrder(t.lines, id);
    forall other: nat
      ensures LinesOf(Recorded(t, o).lines, other)
           == LinesOf(t.lines, other) + if other == id then LineRows(id, o.entries) else []
    {
      LinesOfLonger(t.lines, id, o.entries, other);
    }
  }

  /** What placing an order leaves on record: the order under a new id, if it is accepted or fails
      in the debit, and nothing if it comes back reduced. */
  lemma PlacingPutsOnRecord(t: Tables, o: OrderData)
    requires Numbered(t) && Placeable(o, t.stock)
    ensures Numbered(Placed(t, o).0)
    ensures if Placed(t, o).1.Reduced? then Placed(t, o).0 == t else OnRecord(t, o, Placed(t, o).0)
  {
    hide OnRecord, Debit, Recorded;
    RecordingPutsOnRecord(t, o);
    if !Placed(t, o).1.Reduced? {
      StockIsNotOnRecord(t, o, Recorded(t, o), Debit(t.stock, o.entries).stock);
    }
  }

  lemma StockIsNotOnRecord(t: Tables, o: OrderData, after: Tables, stock: Stock)
    requires OnRecord(t, o, after) && Numbered(after)
    ensures OnRecord(t, o, after.(stock := stock)) && Numbered(after.(stock := stock))
  {
  }

  // ------------------------------------------------------------------ conservation

  function Sold(lines: seq<LineRow>, id: int32): int {
    if lines == [] then 0 else
    var row := lines[|lines| - 1];
    Sold(lines[..|lines| - 1], id) + if row.productId == id then row.quantity else 0
  }

  lemma {:induction false} SoldOfLonger(lines: seq<LineRow>, orderId: nat, es: seq<Entry>, id: int32)
    ensures Sold(lines + LineRows(orderId, es), id) == Sold(lines, id) + Total(es, id)
  {
    if es == [] {
      assert lines + LineRows(orderId, es) == lines;
    } else {
      var n := |es| - 1;
      SoldOfLonger(lines, orderId, es[..n], id);
      var all := lines + LineRows(orderId, es);
      assert all[..|all| - 1] == lines + LineRows(orderId, es[..n]);
    }
  }

  /** What is left of each product and what was sold of it add up to what there was. */
  ghost predicate Balanced(t: Tables, initial: Stock) {
    && t.stock.Keys == initial.Keys
    && forall id :: id in initial ==> t.stock[id] + Sold(t.lines, id) == initial[id]
  }

  /** Placing an order keeps the books balanced, except that a failed one unbalances them:
      its lines stay recorded although the debit stopped half way. */
  lemma PlacingKeepsBalanceIffNotFailed(t: Tables, o: OrderData, initial: Stock)
    requires ValidStock(t.stock) && Placeable(o, t.stock) && Balanced(t, initial)
    ensures ValidStock(Placed(t, o).0.stock)
    ensures Balanced(Placed(t, o).0, initial) <==> Placed(t, o).1 != Failed
  {
    var es := o.entries;
    DebitIsPointwise(t.stock, es);
    DebitSucceedsIffCovered(t.stock, es);
    forall id: int32
      ensures Sold(Recorded(t, o).lines, id) == Sold(t.lines, id) + Total(es, id)
    {
      SoldOfLonger(t.lines, |t.orders| + 1, es, id);
    }
    if Placed(t, o).1 == Failed {
      var id :| id in t.stock && Total(es, id) > t.stock[id];
      var after := Placed(t, o).0;
      assert id in after.stock && 0 <= after.stock[id];
      assert after.stock[id] + Sold(after.lines, id) != initial[id];
    }
  }

  /** Whatever becomes of an order, of no product is there less, left and sold together, after it. */
  lemma PlacingLosesNothing(t: Tables, o: OrderData)
    requires ValidStock(t.stock) && Placeable(o, t.stock)
    ensures var after := Placed(t, o).0;
            forall id :: id in t.stock ==>
              after.stock[id] + Sold(after.lines, id) >= t.stock[id] + Sold(t.lines, id)
  {
    forall id | id in t.stock
      ensures Debit(t.stock, o.entries).stock[id] >= t.stock[id] - Total(o.entries, id)
      ensures Sold(Recorded(t, o).lines, id) == Sold(t.lines, id) + Total(o.entries, id)
    {
      DebitTakesAtMostTotal(t.stock, o.entries, id);
      SoldOfLonger(t.lines, |t.orders| + 1, o.entries, id);
    }
  }

  lemma {:induction false} DebitTakesAtMostTotal(stock: Stock, es: seq<Entry>, id: int32)
    requires Known(es, stock) && id in stock
    ensures Debit(stock, es).stock[id] >= stock[id] - Total(es, id)
  {
    if es != [] {
      DebitTakesAtMostTotal(stock, es[..|es| - 1], id);
    }
  }

  /** The tables after a run of orders, the ones that came first first. */
  ghost predicate OrderRun(t: Tables, orders: seq<OrderData>, after: Tables)
    decreases |orders|
  {
    if orders == [] then after == t
    else Placeable(orders[0], t.stock) && OrderRun(Placed(t, orders[0]).0, orders[1..], after)
  }

  /** Over every run of orders with distinct ids: the books balance, no stock is negative and
      recorded order ids count up from the first. */
  lemma {:induction false} StockIsConserved(t: Tables, orders: seq<OrderData>, after: Tables, initial: Stock)
    requires ValidStock(t.stock) && Balanced(t, initial) && OrderRun(t, orders, after)
    requires forall k :: 0 <= k < |orders| ==> DistinctIds(orders[k].entries)
    requires forall k :: 0 <= k < |t.orders| ==> t.orders[k].id == k + 1
    ensures Balanced(after, initial) && ValidStock(after.stock)
    ensures t.lines <= after.lines && t.orders <= after.orders
    ensures forall k :: 0 <= k < |after.orders| ==> after.orders[k].id == k + 1
    decreases |orders|
  {
    if orders != [] {
      AllOrNothing(t, orders[0]);
      PlacingKeepsBalanceIffNotFailed(t, orders[0], initial);
      StockIsConserved(Placed(t, orders[0]).0, orders[1..], after, initial);
    }
  }

  /** The orders of a run that are not sent back reduced. */
  function Kept(t: Tables, orders: seq<OrderData>): seq<OrderData>
    decreases |orders|
  {
    if orders == [] || !Placeable(orders[0], t.stock) then [] else
    (if Placed(t, orders[0]).1.Reduced? then [] else [orders[0]]) + Kept(Placed(t, orders[0]).0, orders[1..])
  }

  /** After every run the order rows are the old ones and one for each order kept, with its address;
      selecting the lines by a row's id gives back that order's entries; and the lines of the rows
      that were there before are what they were. */
  lemma {:induction false} EveryOrderIsOnRecord(t: Tables, orders: seq<OrderData>, after: Tables, k: nat)
    requires Numbered(t) && OrderRun(t, orders, after)
    ensures Numbered(after) && t.orders <= after.orders && |after.orders| == |t.orders| + |Kept(t, orders)|
    ensures k < |t.orders| ==> LinesOf(after.lines, t.orders[k].id) == LinesOf(t.lines, t.orders[k].id)
    ensures |t.orders| <= k < |after.orders| ==>
              var o, row := Kept(t, orders)[k - |t.orders|], after.orders[k];
              o.address == Some(row.address) && SayTheSame(LinesOf(after.lines, row.id), o.entries)
    decreases |orders|
  {
    hide Placed, LinesOf, SayTheSame;
    if orders != [] {
      PlacingPutsOnRecord(t, orders[0]);
      var next := Placed(t, orders[0]).0;
      EveryOrderIsOnRecord(next, orders[1..], after, k);
      assert !Placed(t, orders[0]).1.Reduced? ==> next.orders[..|t.orders|] == t.orders;
    }
  }

  /** The reduced order, sent back with nothing ordered in between, is accepted as it is. */
  lemma ReducedOrderIsAccepted(t: Tables, o: OrderData)
    requires ValidStock(t.stock) && Placeable(o, t.stock) && DistinctIds(o.entries)
    requires Placed(t, o).1.Reduced?
    ensures Placeable(Placed(t, o).1.order, Placed(t, o).0.stock)
    ensures Placed(Placed(t, o).0, Placed(t, o).1.order).1 == Accepted
  {
    ClampedIsLargest(o.entries, t.stock, o.entries);
    AllOrNothing(t, Placed(t, o).1.order);
  }
}

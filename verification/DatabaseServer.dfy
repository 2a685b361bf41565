/** `database/databaseServer.c` as the program it is: tables updated in place by its queries,
    loops over the entries of an order object, a command read and answered. Each method is
    proved against the ledger's functions. */
module DatabaseServer {
  import opened Bytes
  import opened Orders
  import opened Products
  import opened Transport
  import opened Ledger
  import opened Messages
  import SqlText

  class Server {
    var catalogue: seq<CatalogueRow>
    var stock: Stock
    var orders: seq<OrderRow>
    var lines: seq<LineRow>

    ghost function Contents(): Tables
      reads this
    {
      Tables(catalogue, stock, orders, lines)
    }

    constructor (t: Tables)
      ensures Contents() == t
    {
      catalogue := t.catalogue;
      stock := t.stock;
      orders := t.orders;
      lines := t.lines;
    }

    /** All products in rowid order, or -1 where there is none. */
    method GetProducts() returns (numProducts: int, products: seq<ProductData>)
      requires ValidTables(Contents())
      ensures numProducts == if catalogue == [] then -1 else |catalogue|
      ensures numProducts != -1 ==> products == ProductsOf(Contents()) && ShowsStock(products, catalogue, stock)
    {
      numProducts := |catalogue|;
      products := [];
      if numProducts <= 0 {
        return -1, [];
      }
      for i := 0 to |catalogue|
        invariant products == ProductsOf(Contents())[..i]
      {
        products := products + [ProductOf(catalogue[i], stock)];
      }
    }

    method SendProducts(outFD: Pipe)
      requires ValidTables(Contents()) && outFD.reliable
      modifies outFD`data
      ensures outFD.data == old(outFD.data) + ReplyBytes(Serve(Contents(), Request.GetProducts).1)
    {
      hide Frame, IntBytes, ProductBytes, Frames;
      ghost var before := outFD.data;
      var numProds, prods := GetProducts();
      if numProds < 0 {
        var _ := EnsureWrite(IntBytes(MESSAGE_ERROR), outFD);
        NoFrames();
        return;
      }
      var _ := EnsureWrite(IntBytes(numProds), outFD);
      forall k | 0 <= k < |prods| ensures Shippable(prods[k]) {
        assert prods[k] == ProductOf(catalogue[k], stock);
      }
      ghost var images := ProductImages(prods);
      NoFrames();
      for i := 0 to numProds
        invariant Sized(images[..i])
        invariant outFD.data == before + IntBytes(numProds) + Frames(images[..i])
      {
        var p := prods[i];
        var product := new Product(p.id, p.name, p.description, p.price, p.stock);
        var serialized := product.Serialize();
        WriteFrame(serialized[..], outFD);
        FramesGrow(images, i);
      }
      assert images[..numProds] == images;
    }

    method GetStock(productId: int32) returns (quantity: int)
      requires productId in stock
      ensures quantity == stock[productId]
    {
      quantity := stock[productId];
    }

    /** Checks every line against the stock and lowers the ones it cannot meet, in place. */
    method VerifyOrderStock(o: Order) returns (satisfied: bool)
      requires o.Valid() && Known(o.Data().entries, stock)
      modifies o.items
      ensures o.Valid()
      ensures satisfied <==> Satisfiable(old(o.Data()).entries, stock)
      ensures o.Data() == old(o.Data()).(entries := Clamped(old(o.Data()).entries, stock))
    {
      satisfied := true;
      ghost var es := o.Data().entries;
      var i := 0;
      while i < o.numEntries
        invariant i <= o.numEntries && o.Valid()
        invariant o.Data().address == old(o.Data()).address && |o.Data().entries| == |es|
        invariant forall k :: 0 <= k < i ==> o.Data().entries[k] == ClampedEntry(es[k], stock)
        invariant forall k :: i <= k < |es| ==> o.Data().entries[k] == es[k]
        invariant satisfied <==> forall k :: 0 <= k < i ==> es[k].quantity <= stock[es[k].productId]
      {
        var e := o.GetEntryNum(i).value;
        assert e == es[i];
        var available := GetStock(e.productId);
        if available < e.quantity {
          satisfied := false;
          o.SetQuantity(i, available);
        }
        i := i + 1;
      }
      assert o.Data().entries == Clamped(es, stock);
    }

    /** Prints and runs the query of one line. */
    method InsertLine(query: array<byte>, orderId: nat, e: Entry) returns (text: seq<byte>)
      requires query.Length == SqlText.QUERY_SIZE && FitsInt(e.quantity)
      modifies query, this`lines
      ensures lines == old(lines) + [LineRow(orderId, e.productId, e.quantity)]
      ensures FitsInt(orderId) ==> text == LineText(lines[|old(lines)|])
    {
      PrintEntryQuery(query, orderId, e);
      text := SqlText.TextOf(query[..]);
      lines := lines + [LineRow(orderId, e.productId, e.quantity)];
    }

    /** Prints and runs the query of an order. The total and the time are whatever they are. */
    method InsertOrder(query: array<byte>, address: seq<byte>) returns (text: seq<byte>, total: int, time: int32)
      requires query.Length == SqlText.QUERY_SIZE && CString(address) && |address| <= ADDRESS_MAX
      modifies query, this`orders
      ensures orders == old(orders) + [OrderRow(|old(orders)| + 1, address)]
      ensures !(-100 < total < 0) ==> text == SqlText.OrderText(total, address, time)
    {
      total :| FitsInt(SqlText.Whole(total)) by { assert SqlText.Whole(0) == 0; }
      time := *;
      PrintOrderQuery(query, total, address, time);
      text := SqlText.TextOf(query[..]);
      orders := orders + [OrderRow(|orders| + 1, address)];
    }

    /** Inserts the order and then its lines; the texts returned are the queries it had the engine
        run. They stay inside their buffer, and each is the text of the row inserted wherever the
        cursor steps are right. */
    method StoreVerifiedOrder(o: Order)
      returns (orderId: nat, total: int, time: int32, orderQuery: seq<byte>, lineQueries: seq<seq<byte>>)
      requires o.Valid() && Storable(o.Data()) && Placeable(o.Data(), stock)
      modifies this`orders, this`lines
      ensures Contents() == Recorded(old(Contents()), o.Data())
      ensures orderId == |orders| == orders[|orders| - 1].id
      ensures !(-100 < total < 0) ==> orderQuery == SqlText.OrderText(total, orders[|orders| - 1].address, time)
      ensures |lineQueries| == |o.Data().entries| == |lines| - |old(lines)|
      ensures FitsInt(orderId) ==>
                forall k :: 0 <= k < |lineQueries| ==> lineQueries[k] == LineText(lines[|old(lines)| + k])
    {
      hide SqlText.OrderText, LineText;
      var query := new byte[SqlText.QUERY_SIZE];
      orderQuery, total, time := InsertOrder(query, o.address.value);
      orderId := |orders|;
      lineQueries := [];
      ghost var es, rows := o.Data().entries, LineRows(orderId, o.Data().entries);
      var i := 0;
      while i < o.numEntries
        invariant i <= o.numEntries && o.Valid() && o.Data().entries == es && fresh(query)
        invariant orders == old(orders) + [OrderRow(orderId, o.address.value)]
        invariant lines == old(lines) + rows[..i] && |lineQueries| == i
        invariant FitsInt(orderId) ==> forall k :: 0 <= k < i ==> lineQueries[k] == LineText(rows[k])
      {
        var e := o.GetEntryNum(i).value;
        var text := InsertLine(query, orderId, e);
        lineQueries := lineQueries + [text];
        assert rows[..i + 1] == rows[..i] + [rows[i]];
        i := i + 1;
      }
      assert rows[..i] == rows;
    }

    /** One UPDATE a line; the first that the CHECK refuses ends the loop. */
    method UpdateStock(o: Order) returns (result: int)
      requires o.Valid() && Known(o.Data().entries, stock)
      modifies this`stock
      ensures stock == Debit(old(stock), o.Data().entries).stock
      ensures result == if Debit(old(stock), o.Data().entries).ok then 1 else -1
    {
      hide Debit;
      ghost var es := o.Data().entries;
      ghost var before := stock;
      DebitFromStart(before, es);
      var i := 0;
      while i < o.numEntries
        invariant i <= o.numEntries && o.Valid() && o.Data().entries == es
        invariant Known(es[..i], before) && Debit(before, es[..i]) == DebitResult(stock, true)
      {
        DebitOneMore(before, es, i);
        var e := o.GetEntryNum(i).value;
        if stock[e.productId] - e.quantity < 0 {
          DebitStaysFailed(before, es, i + 1);
          return -1;
        }
        stock := stock[e.productId := stock[e.productId] - e.quantity];
        i := i + 1;
      }
      assert es[..i] == es;
      return 1;
    }

    /** Verifies an order and, if it can be met, records and debits it. */
    method Settle(o: Order) returns (responseCode: int32)
      requires o.Valid() && Storable(o.Data()) && Placeable(o.Data(), stock)
      modifies this`stock, this`orders, this`lines, o.items
      ensures o.Valid() && Contents() == Placed(old(Contents()), old(o.Data())).0
      ensures var outcome := Placed(old(Contents()), old(o.Data())).1;
              && (outcome == Accepted <==> responseCode == MESSAGE_OK)
              && (outcome == Failed <==> responseCode == MESSAGE_ERROR)
              && (outcome.Reduced? <==> responseCode == MESSAGE_UNSATISFIABLE_ORDER)
              && (outcome.Reduced? ==> o.Data() == outcome.order)
    {
      hide Debit, Recorded;
      ghost var order, t := o.Data(), Contents();
      var satisfiable := VerifyOrderStock(o);
      if !satisfiable {
        return MESSAGE_UNSATISFIABLE_ORDER;
      }
      UnclampedIfSatisfiable(order.entries, t.stock);
      var _, _, _, _, _ := StoreVerifiedOrder(o);
      var updated := UpdateStock(o);
      return if updated == -1 then MESSAGE_ERROR else MESSAGE_OK;
    }

    /** Reads one serialized order, places it and writes the reply. */
    method PlaceOrder(inFD: Pipe, outFD: Pipe, ghost order: OrderData, ghost rest: seq<byte>)
      requires inFD != outFD && inFD.reliable && outFD.reliable
      requires ValidTables(Contents()) && Storable(order) && Placeable(order, stock)
      requires inFD.data == Frames([OrderBytes(order)]) + rest
      modifies this`stock, this`orders, this`lines, inFD`data, outFD`data
      ensures Contents() == Serve(old(Contents()), Request.PlaceOrder(order)).0
      ensures inFD.data == rest
      ensures outFD.data == old(outFD.data) + ReplyBytes(Serve(old(Contents()), Request.PlaceOrder(order)).1)
    {
      hide Frame, IntBytes, OrderBytes, ParseOrder, Placed, Clamped;
      ghost var t := Contents();
      var serialized := ReadFrame(inFD, OrderBytes(order), rest);
      OrderRoundTrip(order);
      var o := Orders.Unserialize(serialized);
      var responseCode := Settle(o);
      PlacedIsValid(t, order);
      var _ := EnsureWrite(IntBytes(responseCode), outFD);
      NoFrames();
      if responseCode == MESSAGE_UNSATISFIABLE_ORDER {
        serialized := o.Serialize();
        WriteFrame(serialized[..], outFD);
        SingleFrame(OrderBytes(o.Data()));
      }
    }

    /** One turn of the main loop: a command code, then what it calls for. A code that is no
        command (`req` is None) does nothing, and the one for closing ends the loop. */
    method HandleCommand(inFD: Pipe, outFD: Pipe, ghost req: Option<Request>, ghost rest: seq<byte>)
      returns (done: bool)
      requires inFD != outFD && inFD.reliable && outFD.reliable
      requires match req
               case Some(r) => ValidTables(Contents()) && Acceptable(r, stock) && inFD.data == RequestBytes(r) + rest
               case None => exists code: int32 :: NoCommand(code) && inFD.data == IntBytes(code) + rest
      modifies this`stock, this`orders, this`lines, inFD`data, outFD`data
      ensures inFD.data == rest
      ensures req.Some? ==>
                && !done && Contents() == Serve(old(Contents()), req.value).0
                && outFD.data == old(outFD.data) + ReplyBytes(Serve(old(Contents()), req.value).1)
      ensures req.None? ==>
                && Contents() == old(Contents()) && outFD.data == old(outFD.data)
                && (done <==> old(inFD.data) == IntBytes(MESSAGE_CLOSE) + rest)
    {
      hide IntBytes, IntAt, Frames, ReplyBytes, Serve, SendableReply;
      if req.Some? {
        TagThenBodies(RequestMessage(req.value), rest);
      } else {
        ghost var code: int32 :| NoCommand(code) && inFD.data == IntBytes(code) + rest;
        CodeThenRest(code, rest);
        CodeThenRest(MESSAGE_CLOSE, rest);
      }
      var _, msgCode := EnsureReadInt(inFD);
      done := false;
      if msgCode == CMD_GET_PRODUCTS {
        NoFrames();
        SendProducts(outFD);
        ServeGetProducts(Contents());
      } else if msgCode == CMD_PLACE_ORDER {
        PlaceOrder(inFD, outFD, req.value.order, rest);
      } else if msgCode == MESSAGE_CLOSE {
        done := true;
      }
    }
  }

  /** These are the products of the table, in its order, each with what it has of it now. */
  ghost predicate ShowsStock(products: seq<ProductData>, catalogue: seq<CatalogueRow>, stock: Stock) {
    && |products| == |catalogue|
    && forall k :: 0 <= k < |products| ==>
         && products[k].id == catalogue[k].id && products[k].name == catalogue[k].name
         && products[k].description == catalogue[k].description && products[k].price == catalogue[k].price
         && catalogue[k].id in stock && products[k].stock == stock[catalogue[k].id]
  }

  /** The query that inserts a line. */
  function LineText(row: LineRow): seq<byte> {
    SqlText.EntryText(row.orderId, row.productId, row.quantity)
  }

  method PrintOrderQuery(query: array<byte>, cents: int, address: seq<byte>, timestamp: int32)
    requires query.Length == SqlText.QUERY_SIZE && FitsInt(SqlText.Whole(cents))
    requires CString(address) && |address| <= ADDRESS_MAX
    modifies query
    ensures !(-100 < cents < 0) ==> SqlText.TextOf(query[..]) == SqlText.OrderText(cents, address, timestamp)
  {
    hide SqlText.Whole, SqlText.OrderQueryLength;
    SqlText.AddressAlwaysFitsIffShort(|address|);
    assert SqlText.OrderQueryLength(cents, |address|, timestamp) < SqlText.QUERY_SIZE;
    var _ := SqlText.OrderQuery(query, cents, address, timestamp);
  }

  /** The row id goes into the text as the 64-bit integer it is. */
  method PrintEntryQuery(query: array<byte>, orderId: nat, e: Entry)
    requires query.Length == SqlText.QUERY_SIZE && FitsInt(e.quantity)
    modifies query
    ensures FitsInt(orderId) ==>
              SqlText.TextOf(query[..]) == SqlText.EntryText(orderId, e.productId, e.quantity)
  {
    var rowId := if SqlText.FitsLong(orderId) then orderId else orderId % 0x8000_0000_0000_0000;
    var _ := SqlText.EntryQuery(query, rowId, e.productId, e.quantity);
  }

  predicate NoCommand(code: int32) {
    code != CMD_GET_PRODUCTS && code != CMD_PLACE_ORDER
  }

  lemma CodeThenRest(code: int32, rest: seq<byte>)
    ensures 4 <= |IntBytes(code) + rest|
    ensures IntAt((IntBytes(code) + rest)[..4]) == code && (IntBytes(code) + rest)[4..] == rest
  {
    hide IntBytes, IntAt;
    IntRoundTrip(code);
    assert (IntBytes(code) + rest)[..4] == IntBytes(code);
  }

  // ------------------------------------------------------------------- helpers

  lemma DebitFromStart(stock: Stock, es: seq<Entry>)
    requires Known(es, stock)
    ensures Known(es[..0], stock) && Debit(stock, es[..0]) == DebitResult(stock, true)
  {
  }

  lemma DebitOneMore(stock: Stock, es: seq<Entry>, i: nat)
    requires Known(es, stock) && i < |es| && Known(es[..i], stock) && Debit(stock, es[..i]).ok
    ensures Known(es[..i + 1], stock)
    ensures var now, e := Debit(stock, es[..i]).stock, es[i];
            Debit(stock, es[..i + 1])
            == if now[e.productId] - e.quantity < 0 then DebitResult(now, false)
               else DebitResult(now[e.productId := now[e.productId] - e.quantity], true)
  {
    assert es[..i + 1][..i] == es[..i];
  }

  lemma {:induction false} DebitStaysFailed(stock: Stock, es: seq<Entry>, n: nat)
    requires Known(es, stock) && n <= |es| && Known(es[..n], stock) && !Debit(stock, es[..n]).ok
    ensures Debit(stock, es) == Debit(stock, es[..n])
  {
    if n == |es| {
      assert es[..n] == es;
    } else {
      assert es[..|es| - 1][..n] == es[..n];
      DebitStaysFailed(stock, es[..|es| - 1], n);
    }
  }

  lemma UnclampedIfSatisfiable(es: seq<Entry>, stock: Stock)
    requires Known(es, stock) && Satisfiable(es, stock)
    ensures Clamped(es, stock) == es
  {
  }

  lemma NoFrames()
    ensures Frames([]) == []
  {
  }

  lemma ServeGetProducts(t: Tables)
    requires ValidTables(t)
    ensures Serve(t, Request.GetProducts).0 == t
  {
  }

  lemma FramesGrow(ms: seq<seq<byte>>, i: nat)
    requires Sized(ms) && i < |ms|
    ensures Sized(ms[..i]) && Sized(ms[..i + 1])
    ensures Frames(ms[..i + 1]) == Frames(ms[..i]) + Frame(ms[i])
  {
    hide Frame;
    assert ms[..i + 1] == ms[..i] + [ms[i]];
    FramesConcat(ms[..i], [ms[i]]);
    SingleFrame(ms[i]);
  }

  lemma TagThenBodies(m: Message, rest: seq<byte>)
    requires Sized(m.bodies)
    ensures 4 <= |MessageBytes(m) + rest|
    ensures IntAt((MessageBytes(m) + rest)[..4]) == m.tag
    ensures (MessageBytes(m) + rest)[4..] == Frames(m.bodies) + rest
  {
    hide IntBytes, IntAt, Frames;
    IntRoundTrip(m.tag);
    assert (MessageBytes(m) + rest)[..4] == IntBytes(m.tag);
  }

  /** A length and a body written with two calls. */
  method WriteFrame(m: seq<byte>, fd: Pipe)
    requires |m| <= INT_MAX && fd.reliable
    modifies fd`data
    ensures fd.data == old(fd.data) + Frame(m)
  {
    var _ := EnsureWrite(SizeBytes(|m|), fd);
    var _ := EnsureWrite(m, fd);
  }

  /** A length and a body read with two calls. */
  method ReadFrame(fd: Pipe, ghost m: seq<byte>, ghost rest: seq<byte>) returns (data: array<byte>)
    requires |m| <= INT_MAX && fd.reliable && fd.data == Frames([m]) + rest
    modifies fd`data
    ensures fresh(data) && data[..] == m && fd.data == rest
  {
    hide Frame;
    SingleFrame(m);
    FrameHead(m, rest);
    var _, length := EnsureReadSize(fd);
    data := new byte[length];
    var _ := EnsureRead(data, length, fd);
    assert data[..] == data[..length];
    assert (Frame(m) + rest)[8..][..length] == m && (Frame(m) + rest)[8..][length..] == rest;
  }
}

/** The programs at either end of the database's pipes: `server/forkedServer.c`, which relays
    between a framed client connection and the raw shared pipes, and the protocol part of
    `client/client.c`; and the whole way there and back. */
module Relay {
  import opened Bytes
  import opened Orders
  import opened Products
  import opened Transport
  import opened Ledger
  import opened Messages
  import opened DatabaseServer

  /** `server/dbConn.c`: the two raw pipe ends every forked server shares, and their mutex. */
  class SharedConnection {
    var locked: bool
    const outFD: Pipe
    const inFD: Pipe

    constructor (outFD: Pipe, inFD: Pipe)
      ensures this.outFD == outFD && this.inFD == inFD && !locked
    {
      this.outFD := outFD;
      this.inFD := inFD;
      locked := false;
    }

    method Open()
      requires !locked
      modifies this`locked
      ensures locked
    {
      locked := true;
    }

    method Close()
      requires locked
      modifies this`locked
      ensures !locked
    {
      locked := false;
    }
  }

  /** Four different pipe ends, none of which fails. */
  ghost predicate Wired(c: Connection, db: SharedConnection) {
    && c.inFD != c.outFD && c.inFD != db.inFD && c.inFD != db.outFD
    && c.outFD != db.inFD && c.outFD != db.outFD && db.inFD != db.outFD
    && c.inFD.reliable && c.outFD.reliable && db.inFD.reliable && db.outFD.reliable
  }

  // ---------------------------------------------------------------- forked server

  /** What a client puts on its connection for a request, message by message. */
  function ClientMessages(req: Request): (ms: seq<seq<byte>>)
    requires SendableRequest(req)
    ensures Sized(ms)
  {
    match req
    case GetProducts => [IntBytes(CMD_GET_PRODUCTS)]
    case PlaceOrder(order) => [IntBytes(CMD_PLACE_ORDER), OrderBytes(order)]
  }

  /** What it gets back: the tag as a message of its own, then each body. */
  function RelayedMessages(m: Message): (ms: seq<seq<byte>>)
    requires Sized(m.bodies)
    ensures Sized(ms)
  {
    [IntBytes(m.tag)] + m.bodies
  }

  /** The first half of `processOrder`: the order goes to the database unread. */
  method ForwardOrder(c: Connection, db: SharedConnection, ghost order: seq<byte>, ghost rest: seq<byte>)
    requires Wired(c, db) && !db.locked
    requires |order| <= INT_MAX && c.inFD.data == Frames([order]) + rest
    modifies c.inFD`data, db`locked, db.outFD`data
    ensures db.locked && c.inFD.data == rest
    ensures db.outFD.data == old(db.outFD.data) + MessageBytes(Message(CMD_PLACE_ORDER, [order]))
  {
    hide Frame, IntBytes;
    var serialized := ReceiveMessage(c, order, rest);
    db.Open();
    var _ := EnsureWrite(IntBytes(CMD_PLACE_ORDER), db.outFD);
    WriteFrame(serialized[..], db.outFD);
    SingleFrame(order);
  }

  /** The second half: the code goes back to the client, and the reduced order after it. */
  method RelayVerdict(c: Connection, db: SharedConnection, ghost reply: Reply, ghost rest: seq<byte>)
    requires Wired(c, db) && db.locked
    requires SendableReply(reply) && AnswersKind(OrderReplyKind, reply)
    requires db.inFD.data == ReplyBytes(reply) + rest
    modifies c.outFD`data, db`locked, db.inFD`data
    ensures !db.locked && db.inFD.data == rest
    ensures c.outFD.data == old(c.outFD.data) + Frames(RelayedMessages(ReplyMessage(reply)))
  {
    hide Frame, Frames, IntBytes, IntAt, OrderBytes;
    ghost var m := ReplyMessage(reply);
    TagThenBodies(m, rest);
    NoFrames();
    var _, code := EnsureReadInt(db.inFD);
    SendMessage(c, IntBytes(code), [IntBytes(code)]);
    assert [IntBytes(code)] + [] == [IntBytes(code)];
    if code == MESSAGE_UNSATISFIABLE_ORDER {
      var serialized := ReadFrame(db.inFD, m.bodies[0], rest);
      SendMessage(c, serialized[..], m.bodies);
      FramesConcat([IntBytes(code)], m.bodies);
    }
    db.Close();
  }

  method ProcessOrder(c: Connection, db: SharedConnection, ghost order: seq<byte>, ghost reply: Reply,
                      ghost rest: seq<byte>, ghost restDb: seq<byte>)
    requires Wired(c, db) && !db.locked
    requires |order| <= INT_MAX && c.inFD.data == Frames([order]) + rest
    requires SendableReply(reply) && AnswersKind(OrderReplyKind, reply)
    requires db.inFD.data == ReplyBytes(reply) + restDb
    modifies c.inFD`data, c.outFD`data, db`locked, db.inFD`data, db.outFD`data
    ensures !db.locked && c.inFD.data == rest && db.inFD.data == restDb
    ensures db.outFD.data == old(db.outFD.data) + MessageBytes(Message(CMD_PLACE_ORDER, [order]))
    ensures c.outFD.data == old(c.outFD.data) + Frames(RelayedMessages(ReplyMessage(reply)))
  {
    ForwardOrder(c, db, order, rest);
    RelayVerdict(c, db, reply, restDb);
  }

  /** The first half of `getProducts`: the command goes to the database. */
  method AskForProducts(db: SharedConnection)
    requires db.outFD.reliable && !db.locked
    modifies db`locked, db.outFD`data
    ensures db.locked && db.outFD.data == old(db.outFD.data) + RequestBytes(Request.GetProducts)
  {
    hide IntBytes, Frames;
    db.Open();
    NoFrames();
    var _ := EnsureWrite(IntBytes(CMD_GET_PRODUCTS), db.outFD);
    assert IntBytes(CMD_GET_PRODUCTS) + [] == IntBytes(CMD_GET_PRODUCTS);
  }

  /** The second half. On an error reply it returns with the mutex still held. */
  method TakeProducts(db: SharedConnection, ghost reply: Reply, ghost rest: seq<byte>)
    returns (result: int, products: seq<ProductData>)
    requires db.inFD.reliable && db.locked
    requires SendableReply(reply) && AnswersKind(ProductsReplyKind, reply)
    requires db.inFD.data == ReplyBytes(reply) + rest
    modifies db`locked, db.inFD`data
    ensures db.inFD.data == rest
    ensures reply.Error? ==> result == -1 && db.locked
    ensures reply.Catalogue? ==> result == |reply.products| && products == reply.products && !db.locked
  {
    hide Frame, Frames, IntBytes, IntAt, ProductBytes, ParseProduct, ProductImages;
    products := [];
    NoFrames();
    ghost var bodies := ReplyMessage(reply).bodies;
    TagThenBodies(ReplyMessage(reply), rest);
    var _, code := EnsureReadInt(db.inFD);
    if code == MESSAGE_ERROR {
      return -1, [];
    }
    assert bodies[0..] == bodies && reply.products[..0] == [];
    for i := 0 to code
      invariant Sized(bodies[i..])
      invariant db.inFD.data == Frames(bodies[i..]) + rest
      invariant db.locked
      invariant products == reply.products[..i]
    {
      FirstFrame(bodies[i..], rest);
      assert bodies[i..][0] == bodies[i] && bodies[i..][1..] == bodies[i + 1..];
      var serialized := ReadFrame(db.inFD, bodies[i], Frames(bodies[i + 1..]) + rest);
      ProductRoundTrip(reply.products[i]);
      var p := Products.Unserialize(serialized);
      products := products + [ProductData(p.id, p.name, p.description, p.price, p.stock)];
    }
    assert bodies[code..] == [] && reply.products[..code] == reply.products;
    db.Close();
    result := code;
  }

  method GetProducts(db: SharedConnection, ghost reply: Reply, ghost rest: seq<byte>)
    returns (result: int, products: seq<ProductData>)
    requires db.inFD != db.outFD && db.inFD.reliable && db.outFD.reliable && !db.locked
    requires SendableReply(reply) && AnswersKind(ProductsReplyKind, reply)
    requires db.inFD.data == ReplyBytes(reply) + rest
    modifies db`locked, db.inFD`data, db.outFD`data
    ensures db.outFD.data == old(db.outFD.data) + RequestBytes(Request.GetProducts)
    ensures db.inFD.data == rest
    ensures reply.Error? ==> result == -1 && db.locked
    ensures reply.Catalogue? ==> result == |reply.products| && products == reply.products && !db.locked
  {
    AskForProducts(db);
    result, products := TakeProducts(db, reply, rest);
  }

  /** What `sendProducts` does with the result: the client gets the same bodies, byte for byte,
      that the database wrote. */
  method PassProducts(c: Connection, numProducts: int, products: seq<ProductData>, ghost reply: Reply)
    requires c.outFD.reliable && SendableReply(reply) && AnswersKind(ProductsReplyKind, reply)
    requires reply.Error? ==> numProducts == -1
    requires reply.Catalogue? ==> numProducts == |reply.products| && products == reply.products
    modifies c.outFD`data
    ensures c.outFD.data == old(c.outFD.data) + Frames(RelayedMessages(ReplyMessage(reply)))
  {
    hide Frame, Frames, IntBytes, ProductBytes, ProductImages;
    ghost var before := c.outFD.data;
    ghost var m := ReplyMessage(reply);
    if numProducts == -1 {
      SendMessage(c, IntBytes(MESSAGE_ERROR), [IntBytes(MESSAGE_ERROR)]);
      assert [IntBytes(MESSAGE_ERROR)] + [] == [IntBytes(MESSAGE_ERROR)];
      return;
    }
    ghost var sent := RelayedMessages(m);
    SendMessage(c, IntBytes(numProducts), [IntBytes(numProducts)]);
    assert sent[..1] == [IntBytes(numProducts)];
    for i := 0 to numProducts
      invariant Sized(sent[..i + 1])
      invariant c.outFD.data == before + Frames(sent[..i + 1])
    {
      var p := products[i];
      var product := new Product(p.id, p.name, p.description, p.price, p.stock);
      var serialized := product.Serialize();
      assert sent[i + 1] == m.bodies[i];
      SendMessage(c, serialized[..], [m.bodies[i]]);
      SingleFrame(m.bodies[i]);
      FramesGrow(sent, i + 1);
    }
    assert sent[..numProducts + 1] == sent;
  }

  method SendProducts(c: Connection, db: SharedConnection, ghost reply: Reply, ghost rest: seq<byte>)
    requires Wired(c, db) && !db.locked
    requires SendableReply(reply) && AnswersKind(ProductsReplyKind, reply)
    requires db.inFD.data == ReplyBytes(reply) + rest
    modifies c.outFD`data, db`locked, db.inFD`data, db.outFD`data
    ensures db.outFD.data == old(db.outFD.data) + RequestBytes(Request.GetProducts)
    ensures db.inFD.data == rest && (db.locked <==> reply.Error?)
    ensures c.outFD.data == old(c.outFD.data) + Frames(RelayedMessages(ReplyMessage(reply)))
  {
    hide Frames, RequestBytes, ReplyBytes, ReplyMessage, RelayedMessages;
    var numProducts, products := GetProducts(db, reply, rest);
    PassProducts(c, numProducts, products, reply);
  }

  function CodeOf(req: Request): int32 {
    match req
    case GetProducts => CMD_GET_PRODUCTS
    case PlaceOrder(_) => CMD_PLACE_ORDER
  }

  /** The code at the front of what the client sent. */
  method ReceiveCode(c: Connection, ghost code: int32, ghost ms: seq<seq<byte>>, ghost rest: seq<byte>)
    returns (msgCode: int32)
    requires c.inFD.reliable && Sized(ms) && ms != [] && ms[0] == IntBytes(code)
    requires c.inFD.data == Frames(ms) + rest
    modifies c.inFD`data
    ensures msgCode == code && c.inFD.data == Frames(ms[1..]) + rest
  {
    hide Frame, Frames, IntBytes, IntAt;
    FirstFrame(ms, rest);
    var clientData := ReceiveMessage(c, IntBytes(code), Frames(ms[1..]) + rest);
    IntRoundTrip(code);
    assert clientData[..4] == IntBytes(code);
    msgCode := IntAt(clientData[..4]);
  }

  /** One turn of the dispatch loop: a code from the client, then what it calls for. A code that is
      no command (`req` is None) is passed over, and the one for closing ends the loop. */
  method HandleMessage(c: Connection, db: SharedConnection, ghost req: Option<Request>, ghost code: int32,
                       ghost reply: Reply, ghost rest: seq<byte>, ghost restDb: seq<byte>) returns (done: bool)
    requires Wired(c, db) && !db.locked
    requires match req
             case Some(r) =>
               && SendableRequest(r) && c.inFD.data == Frames(ClientMessages(r)) + rest
               && SendableReply(reply) && AnswersKind(ReplyKind(r), reply) && db.inFD.data == ReplyBytes(reply) + restDb
             case None => NoCommand(code) && c.inFD.data == Frames([IntBytes(code)]) + rest && db.inFD.data == restDb
    modifies c.inFD`data, c.outFD`data, db`locked, db.inFD`data, db.outFD`data
    ensures c.inFD.data == rest && db.inFD.data == restDb
    ensures req.Some? ==>
              && !done && (db.locked <==> req.value.GetProducts? && reply.Error?)
              && db.outFD.data == old(db.outFD.data) + RequestBytes(req.value)
              && c.outFD.data == old(c.outFD.data) + Frames(RelayedMessages(ReplyMessage(reply)))
    ensures req.None? ==>
              && (done <==> code == MESSAGE_CLOSE) && !db.locked
              && db.outFD.data == old(db.outFD.data) && c.outFD.data == old(c.outFD.data)
  {
    hide Frame, Frames, IntBytes, IntAt, OrderBytes, ReplyBytes, RelayedMessages, SendableReply;
    ghost var ms := match req case None => [IntBytes(code)] case Some(r) => ClientMessages(r);
    var msgCode := ReceiveCode(c, if req.Some? then CodeOf(req.value) else code, ms, rest);
    NoFrames();
    done := false;
    if msgCode == CMD_GET_PRODUCTS {
      assert ms[1..] == [] && [] + rest == rest;
      SendProducts(c, db, reply, restDb);
    } else if msgCode == CMD_PLACE_ORDER {
      assert ms[1..] == [OrderBytes(req.value.order)];
      ProcessOrder(c, db, OrderBytes(req.value.order), reply, rest, restDb);
    } else {
      assert ms[1..] == [] && [] + rest == rest;
      done := msgCode == MESSAGE_CLOSE;
    }
  }

  /** The same turn up to where the database has to answer: the code is read and branched on, and
      the request goes to the database. */
  method StartExchange(c: Connection, db: SharedConnection, ghost req: Request, ghost rest: seq<byte>)
    returns (msgCode: int32)
    requires Wired(c, db) && !db.locked
    requires SendableRequest(req) && c.inFD.data == Frames(ClientMessages(req)) + rest
    modifies c.inFD`data, db`locked, db.outFD`data
    ensures msgCode == CodeOf(req) && db.locked && c.inFD.data == rest
    ensures db.outFD.data == old(db.outFD.data) + RequestBytes(req)
  {
    hide Frame, Frames, IntBytes, OrderBytes;
    ghost var ms := ClientMessages(req);
    msgCode := ReceiveCode(c, CodeOf(req), ms, rest);
    NoFrames();
    if msgCode == CMD_GET_PRODUCTS {
      assert ms[1..] == [] && [] + rest == rest;
      AskForProducts(db);
    } else if msgCode == CMD_PLACE_ORDER {
      assert ms[1..] == [OrderBytes(req.order)];
      ForwardOrder(c, db, OrderBytes(req.order), rest);
    }
  }

  /** And from there on: the answer is taken and passed to the client. */
  method FinishExchange(c: Connection, db: SharedConnection, msgCode: int32, ghost req: Request, ghost reply: Reply,
                        ghost rest: seq<byte>)
    requires Wired(c, db) && db.locked && msgCode == CodeOf(req)
    requires SendableReply(reply) && AnswersKind(ReplyKind(req), reply) && db.inFD.data == ReplyBytes(reply) + rest
    modifies c.outFD`data, db`locked, db.inFD`data
    ensures db.inFD.data == rest && (db.locked <==> req.GetProducts? && reply.Error?)
    ensures c.outFD.data == old(c.outFD.data) + Frames(RelayedMessages(ReplyMessage(reply)))
  {
    hide Frames, ReplyBytes, RelayedMessages, SendableReply, ReplyMessage;
    if msgCode == CMD_GET_PRODUCTS {
      var numProducts, products := TakeProducts(db, reply, rest);
      PassProducts(c, numProducts, products, reply);
    } else if msgCode == CMD_PLACE_ORDER {
      RelayVerdict(c, db, reply, rest);
    }
  }

  // ------------------------------------------------------------------- the client

  /** The first half of `submitOrder`: the address is set and the order sent. */
  method SendOrder(order: Order, address: seq<byte>, conn: Connection)
    requires conn.outFD.reliable && order.Valid()
    requires Storable(order.Data().(address := Some(address)))
    modifies order`address, conn.outFD`data
    ensures order.Valid() && order.Data() == old(order.Data()).(address := Some(address))
    ensures conn.outFD.data == old(conn.outFD.data) + Frames(ClientMessages(Request.PlaceOrder(order.Data())))
  {
    hide Frame, Frames, IntBytes, OrderBytes;
    order.SetAddress(Some(address));
    SendMessage(conn, IntBytes(CMD_PLACE_ORDER), [IntBytes(CMD_PLACE_ORDER)]);
    var buff := order.Serialize();
    SendMessage(conn, buff[..], [OrderBytes(order.Data())]);
    ghost var image := OrderBytes(order.Data());
    FramesConcat([IntBytes(CMD_PLACE_ORDER)], [image]);
    assert [IntBytes(CMD_PLACE_ORDER)] + [image] == [IntBytes(CMD_PLACE_ORDER), image];
  }

  /** The second half: -1 for an error, 1 for an accepted order, and 0 for one that cannot be
      met, which is then replaced by what the database sent. */
  method ReceiveVerdict(order: Order, conn: Connection, ghost reply: Reply, ghost rest: seq<byte>)
    returns (result: int, current: Order)
    requires conn.inFD.reliable && order.Valid()
    requires SendableReply(reply) && AnswersKind(OrderReplyKind, reply)
    requires conn.inFD.data == Frames(RelayedMessages(ReplyMessage(reply))) + rest
    modifies conn.inFD`data
    ensures conn.inFD.data == rest && current.Valid()
    ensures result == match reply case Ok => 1 case Unsatisfiable(_) => 0 case _ => -1
    ensures reply.Unsatisfiable? ==> current.Data() == reply.order
    ensures !reply.Unsatisfiable? ==> current == order
  {
    hide Frame, Frames, IntBytes, IntAt, OrderBytes, ParseOrder;
    ghost var m := ReplyMessage(reply);
    ghost var ms := RelayedMessages(m);
    FirstFrame(ms, rest);
    assert ms[1..] == m.bodies;
    NoFrames();
    IntRoundTrip(m.tag);
    var buff := ReceiveMessage(conn, IntBytes(m.tag), Frames(m.bodies) + rest);
    assert buff[..4] == IntBytes(m.tag);
    var responseCode := IntAt(buff[..4]);
    current := order;
    if responseCode == MESSAGE_ERROR {
      result := -1;
    } else if responseCode == MESSAGE_UNSATISFIABLE_ORDER {
      buff := ReceiveMessage(conn, OrderBytes(reply.order), rest);
      OrderRoundTrip(reply.order);
      current := Orders.Unserialize(buff);
      result := 0;
    } else {
      result := 1;
    }
  }

  method AskForCatalogue(conn: Connection)
    requires conn.outFD.reliable
    modifies conn.outFD`data
    ensures conn.outFD.data == old(conn.outFD.data) + Frames(ClientMessages(Request.GetProducts))
  {
    SendMessage(conn, IntBytes(CMD_GET_PRODUCTS), [IntBytes(CMD_GET_PRODUCTS)]);
  }

  method ReceiveCatalogue(conn: Connection, ghost reply: Reply, ghost rest: seq<byte>)
    returns (result: int, products: seq<ProductData>)
    requires conn.inFD.reliable
    requires SendableReply(reply) && AnswersKind(ProductsReplyKind, reply)
    requires conn.inFD.data == Frames(RelayedMessages(ReplyMessage(reply))) + rest
    modifies conn.inFD`data
    ensures conn.inFD.data == rest
    ensures reply.Error? ==> result == -1
    ensures reply.Catalogue? ==> result == 1 && products == reply.products
  {
    hide Frame, Frames, IntBytes, IntAt, ProductBytes, ParseProduct, ProductImages;
    products := [];
    ghost var m := ReplyMessage(reply);
    ghost var ms := RelayedMessages(m);
    FirstFrame(ms, rest);
    assert ms[1..] == m.bodies;
    NoFrames();
    IntRoundTrip(m.tag);
    var serverResponse := ReceiveMessage(conn, IntBytes(m.tag), Frames(m.bodies) + rest);
    assert serverResponse[..4] == IntBytes(m.tag);
    var responseCode := IntAt(serverResponse[..4]);
    if responseCode == MESSAGE_ERROR {
      return -1, [];
    }
    ghost var bodies := m.bodies;
    assert bodies[0..] == bodies && reply.products[..0] == [];
    for i := 0 to responseCode
      invariant Sized(bodies[i..])
      invariant conn.inFD.data == Frames(bodies[i..]) + rest
      invariant products == reply.products[..i]
    {
      FirstFrame(bodies[i..], rest);
      assert bodies[i..][0] == bodies[i] && bodies[i..][1..] == bodies[i + 1..];
      var serialized := ReceiveMessage(conn, bodies[i], Frames(bodies[i + 1..]) + rest);
      ProductRoundTrip(reply.products[i]);
      var p := Products.Unserialize(serialized);
      products := products + [ProductData(p.id, p.name, p.description, p.price, p.stock)];
    }
    assert bodies[responseCode..] == [] && reply.products[..responseCode] == reply.products;
    result := 1;
  }

  method RequestProducts(conn: Connection, ghost reply: Reply, ghost rest: seq<byte>)
    returns (result: int, products: seq<ProductData>)
    requires conn.inFD != conn.outFD && conn.inFD.reliable && conn.outFD.reliable
    requires SendableReply(reply) && AnswersKind(ProductsReplyKind, reply)
    requires conn.inFD.data == Frames(RelayedMessages(ReplyMessage(reply))) + rest
    modifies conn.inFD`data, conn.outFD`data
    ensures conn.outFD.data == old(conn.outFD.data) + Frames(ClientMessages(Request.GetProducts))
    ensures conn.inFD.data == rest
    ensures reply.Error? ==> result == -1
    ensures reply.Catalogue? ==> result == 1 && products == reply.products
  {
    hide Frames, RelayedMessages, ReplyMessage;
    AskForCatalogue(conn);
    result, products := ReceiveCatalogue(conn, reply, rest);
  }

  // ------------------------------------------------------------- there and back

  /** One order from a client, through its forked server, to the database and back. The client
      ends with the order it sent or, where that could not be met, with the clamped one; the
      tables are those of placing exactly the order the client had. */
  method SubmitEndToEnd(order: Order, address: seq<byte>, database: Server,
                        client: Connection, server: Connection, db: SharedConnection)
    returns (result: int, current: Order)
    requires Wired(server, db) && !db.locked
    requires client.outFD == server.inFD && client.inFD == server.outFD
    requires server.inFD.data == [] && server.outFD.data == [] && db.inFD.data == [] && db.outFD.data == []
    requires order.Valid() && ValidTables(database.Contents())
    requires Storable(order.Data().(address := Some(address)))
    requires Placeable(order.Data().(address := Some(address)), database.stock)
    modifies order`address, database, db`locked, server.inFD`data, server.outFD`data, db.inFD`data, db.outFD`data
    ensures var sent := old(order.Data()).(address := Some(address));
            var (after, outcome) := Placed(old(database.Contents()), sent);
            && database.Contents() == after
            && current.Valid()
            && match outcome
               case Accepted => result == 1 && current == order && order.Data() == sent
               case Failed => result == -1
               case Reduced(clamped) => result == 0 && current.Data() == clamped
    ensures !db.locked
    ensures server.inFD.data == [] && server.outFD.data == [] && db.inFD.data == [] && db.outFD.data == []
  {
    hide Frame, Frames, IntBytes, OrderBytes, MessageBytes, Placed;
    ghost var t := database.Contents();
    SendOrder(order, address, client);
    ghost var sent := order.Data();
    ghost var req := Request.PlaceOrder(sent);
    ghost var reply := Serve(t, req).1;
    assert [] + Frames(ClientMessages(req)) == Frames(ClientMessages(req)) + [];
    var msgCode := StartExchange(server, db, req, []);
    assert [] + RequestBytes(req) == RequestBytes(req) + [];
    var done := database.HandleCommand(db.outFD, db.inFD, Some(req), []);
    assert [] + ReplyBytes(reply) == ReplyBytes(reply) + [];
    FinishExchange(server, db, msgCode, req, reply, []);
    ghost var back := Frames(RelayedMessages(ReplyMessage(reply)));
    assert [] + back == back + [];
    result, current := ReceiveVerdict(order, client, reply, []);
  }

  /** The catalogue a client ends with is the one the database has, product by product. */
  method CatalogueEndToEnd(database: Server, client: Connection, server: Connection, db: SharedConnection)
    returns (result: int, products: seq<ProductData>)
    requires Wired(server, db) && !db.locked && ValidTables(database.Contents())
    requires client.inFD == server.outFD && client.outFD == server.inFD
    requires server.inFD.data == [] && server.outFD.data == [] && db.inFD.data == [] && db.outFD.data == []
    modifies database, db`locked, server.inFD`data, server.outFD`data, db.inFD`data, db.outFD`data
    ensures database.Contents() == old(database.Contents())
    ensures database.catalogue != [] ==> result == 1 && products == ProductsOf(database.Contents()) && !db.locked
    ensures database.catalogue != [] ==> ShowsStock(products, database.catalogue, database.stock)
    ensures database.catalogue == [] ==> result == -1 && db.locked
    ensures server.inFD.data == [] && server.outFD.data == [] && db.inFD.data == [] && db.outFD.data == []
  {
    hide Frame, Frames, IntBytes, MessageBytes, ProductImages, ProductsOf;
    ghost var req := Request.GetProducts;
    ghost var reply := Serve(database.Contents(), req).1;
    AskForCatalogue(client);
    assert [] + Frames(ClientMessages(req)) == Frames(ClientMessages(req)) + [];
    var msgCode := StartExchange(server, db, req, []);
    assert [] + RequestBytes(req) == RequestBytes(req) + [];
    var done := database.HandleCommand(db.outFD, db.inFD, Some(req), []);
    assert [] + ReplyBytes(reply) == ReplyBytes(reply) + [];
    FinishExchange(server, db, msgCode, req, reply, []);
    ghost var back := Frames(RelayedMessages(ReplyMessage(reply)));
    assert [] + back == back + [];
    result, products := ReceiveCatalogue(client, reply, []);
    ProductsShowStock(database.Contents());
  }

  lemma ProductsShowStock(t: Tables)
    requires ValidTables(t)
    ensures ShowsStock(ProductsOf(t), t.catalogue, t.stock)
  {
  }

  // ------------------------------------------------------------------- helpers

  lemma FirstFrame(ms: seq<seq<byte>>, rest: seq<byte>)
    requires Sized(ms) && ms != []
    ensures Sized(ms[1..])
    ensures Frames(ms) + rest == Frames([ms[0]]) + (Frames(ms[1..]) + rest)
  {
    hide Frame;
    SingleFrame(ms[0]);
    assert Frame(ms[0]) + Frames(ms[1..]) + rest == Frame(ms[0]) + (Frames(ms[1..]) + rest);
  }

  /** `conn_send` of a message that is not empty. */
  method SendMessage(c: Connection, data: seq<byte>, ghost ms: seq<seq<byte>>)
    requires c.outFD.reliable && data != [] && Sized(ms) && ms == [data]
    modifies c.outFD`data
    ensures c.outFD.data == old(c.outFD.data) + Frames(ms)
  {
    assert |ms[0]| <= INT_MAX;
    var _ := c.Send(data);
    assert NonEmpty([data]) == [data] + NonEmpty([data][1..]);
  }

  /** `conn_receive` where one message `m` is next. */
  method ReceiveMessage(c: Connection, ghost m: seq<byte>, ghost rest: seq<byte>) returns (data: array<byte>)
    requires c.inFD.reliable && |m| <= INT_MAX && c.inFD.data == Frames([m]) + rest
    modifies c.inFD`data
    ensures fresh(data) && data[..] == m && c.inFD.data == rest
  {
    hide Frame;
    SingleFrame(m);
    FrameHead(m, rest);
    var ok;
    ok, data := c.Receive();
  }
}

/** The messages of `common/comm.h` as they travel the raw pipes between a forked server and
    the database: an `int` tag and then as many length-prefixed bodies as the tag announces. */
module Messages {
  import opened Bytes
  import opened Orders
  import opened Products
  import opened Transport
  import opened Ledger

  const MESSAGE_OK: int32 := 1
  const MESSAGE_CLOSE: int32 := 2
  const CMD_GET_PRODUCTS: int32 := 3
  const CMD_PLACE_ORDER: int32 := 4
  const MESSAGE_ERROR: int32 := -1
  const MESSAGE_UNSATISFIABLE_ORDER: int32 := -2

  /** What the reader of a message is reading, which decides what its tag means. */
  datatype Kind = RequestKind | OrderReplyKind | ProductsReplyKind

  function BodyCount(kind: Kind, tag: int32): nat {
    match kind
    case RequestKind => if tag == CMD_PLACE_ORDER then 1 else 0
    case OrderReplyKind => if tag == MESSAGE_UNSATISFIABLE_ORDER then 1 else 0
    case ProductsReplyKind => if tag > 0 then tag else 0
  }

  datatype Message = Message(tag: int32, bodies: seq<seq<byte>>)

  predicate Proper(kind: Kind, m: Message) {
    Sized(m.bodies) && |m.bodies| == BodyCount(kind, m.tag)
  }

  function MessageBytes(m: Message): seq<byte>
    requires Sized(m.bodies)
  {
    IntBytes(m.tag) + Frames(m.bodies)
  }

  /** Where the call in progress ends, judged from the bytes moved so far: the tag, then a
      length, then a body, and so on. Both the writer's and the reader's calls end there. */
  function MessageNext(kind: Kind, q: seq<byte>): nat {
    if |q| < 4 then 4 else 4 + FramesNext(q[4..], BodyCount(kind, IntAt(q[..4])))
  }

  function ParseMessage(kind: Kind, q: seq<byte>): Option<Message> {
    if |q| < 4 then None else
    match ParseFrames(q[4..], BodyCount(kind, IntAt(q[..4])))
    case None => None
    case Some(bodies) => Some(Message(IntAt(q[..4]), bodies))
  }

  lemma MessageDelimits(kind: Kind, m: Message, k: nat)
    requires Proper(kind, m) && k <= |MessageBytes(m)|
    ensures k < |MessageBytes(m)| ==> k < MessageNext(kind, MessageBytes(m)[..k]) <= |MessageBytes(m)|
    ensures k == |MessageBytes(m)| ==> MessageNext(kind, MessageBytes(m)[..k]) == k
  {
    hide IntBytes, IntAt, FramesNext, Frames;
    var b := MessageBytes(m);
    if k >= 4 {
      IntRoundTrip(m.tag);
      assert b[..k][..4] == IntBytes(m.tag);
      assert b[..k][4..] == Frames(m.bodies)[..k - 4];
      FramesDelimit(m.bodies, k - 4);
    }
  }

  lemma MessageRoundTrip(kind: Kind, m: Message)
    requires Proper(kind, m)
    ensures ParseMessage(kind, MessageBytes(m)) == Some(m)
  {
    hide IntBytes, IntAt, ParseFrames, Frames;
    var b := MessageBytes(m);
    IntRoundTrip(m.tag);
    assert b[..4] == IntBytes(m.tag) && b[4..] == Frames(m.bodies);
    ParseFramesRoundTrip(m.bodies);
  }

  // --------------------------------------------------------- requests and replies

  datatype Request = GetProducts | PlaceOrder(order: OrderData)

  datatype Reply = Ok | Error | Unsatisfiable(order: OrderData) | Catalogue(products: seq<ProductData>)

  predicate SendableRequest(req: Request) {
    req.PlaceOrder? ==> Storable(req.order)
  }

  predicate SendableReply(reply: Reply) {
    match reply
    case Unsatisfiable(order) => Storable(order)
    case Catalogue(ps) => 0 < |ps| <= INT_MAX && forall k :: 0 <= k < |ps| ==> Shippable(ps[k])
    case _ => true
  }

  function RequestMessage(req: Request): (m: Message)
    requires SendableRequest(req)
    ensures Proper(RequestKind, m)
  {
    match req
    case GetProducts => Message(CMD_GET_PRODUCTS, [])
    case PlaceOrder(order) => Message(CMD_PLACE_ORDER, [OrderBytes(order)])
  }

  function ReplyKind(req: Request): Kind {
    if req.GetProducts? then ProductsReplyKind else OrderReplyKind
  }

  function ProductImages(ps: seq<ProductData>): (r: seq<seq<byte>>)
    requires forall k :: 0 <= k < |ps| ==> Shippable(ps[k])
    ensures |r| == |ps| && Sized(r)
    ensures forall k :: 0 <= k < |ps| ==> r[k] == ProductBytes(ps[k])
  {
    if ps == [] then [] else [ProductBytes(ps[0])] + ProductImages(ps[1..])
  }

  function ReplyMessage(reply: Reply): (m: Message)
    requires SendableReply(reply)
    ensures Sized(m.bodies)
  {
    match reply
    case Ok => Message(MESSAGE_OK, [])
    case Error => Message(MESSAGE_ERROR, [])
    case Unsatisfiable(order) => Message(MESSAGE_UNSATISFIABLE_ORDER, [OrderBytes(order)])
    case Catalogue(ps) => Message(|ps|, ProductImages(ps))
  }

  function RequestBytes(req: Request): seq<byte>
    requires SendableRequest(req)
  {
    MessageBytes(RequestMessage(req))
  }

  function ReplyBytes(reply: Reply): seq<byte>
    requires SendableReply(reply)
  {
    MessageBytes(ReplyMessage(reply))
  }

  function ParseProducts(bodies: seq<seq<byte>>): Option<seq<ProductData>> {
    if bodies == [] then Some([]) else
    var head, tail := ParseProduct(bodies[0]), ParseProducts(bodies[1..]);
    if head.None? || tail.None? then None else Some([head.value] + tail.value)
  }

  /** The request in a buffer the database has read; None stands for what it ignores. */
  function ParseRequest(q: seq<byte>): Option<Request> {
    match ParseMessage(RequestKind, q)
    case None => None
    case Some(m) =>
      if m.tag == CMD_GET_PRODUCTS then Some(GetProducts)
      else if m.tag == CMD_PLACE_ORDER && |m.bodies| == 1 && ParseOrder(m.bodies[0]).Some?
      then Some(PlaceOrder(ParseOrder(m.bodies[0]).value))
      else None
  }

  /** The reply in the bytes a server has read for a request of its own. */
  function ParseReply(kind: Kind, q: seq<byte>): Option<Reply> {
    match ParseMessage(kind, q)
    case None => None
    case Some(m) =>
      if m.tag == MESSAGE_ERROR then Some(Error)
      else if kind.ProductsReplyKind? then
        match ParseProducts(m.bodies)
        case Some(ps) => Some(Catalogue(ps))
        case None => None
      else if m.tag == MESSAGE_UNSATISFIABLE_ORDER && |m.bodies| == 1 then
        match ParseOrder(m.bodies[0])
        case Some(order) => Some(Unsatisfiable(order))
        case None => None
      else Some(Ok)
  }

  lemma ParseProductsCons(head: seq<byte>, tail: seq<seq<byte>>)
    requires ParseProduct(head).Some? && ParseProducts(tail).Some?
    ensures ParseProducts([head] + tail) == Some([ParseProduct(head).value] + ParseProducts(tail).value)
  {
  }

  lemma {:induction false} ProductsRoundTrip(ps: seq<ProductData>)
    requires forall k :: 0 <= k < |ps| ==> Shippable(ps[k])
    ensures ParseProducts(ProductImages(ps)) == Some(ps)
  {
    hide ProductBytes, ParseProduct, ParseProducts;
    if ps == [] {
      NoProducts();
    } else {
      ProductRoundTrip(ps[0]);
      ProductsRoundTrip(ps[1..]);
      ParseProductsCons(ProductBytes(ps[0]), ProductImages(ps[1..]));
      assert [ps[0]] + ps[1..] == ps;
    }
  }

  lemma NoProducts()
    ensures ParseProducts([]) == Some([])
  {
  }

  /** The order the database works on is the order the client serialized. */
  lemma RequestRoundTrip(req: Request)
    requires SendableRequest(req)
    ensures ParseRequest(RequestBytes(req)) == Some(req)
  {
    hide MessageBytes, ParseMessage, OrderBytes, ParseOrder;
    var m := RequestMessage(req);
    assert ParseMessage(RequestKind, RequestBytes(req)) == Some(m) by { MessageRoundTrip(RequestKind, m); }
    if req.PlaceOrder? {
      OrderRoundTrip(req.order);
    }
  }

  /** The codes on the wire, and behind them the serialized order or the serialized products, each
      in a frame. */
  lemma WireLayout(req: Request, reply: Reply)
    requires SendableRequest(req) && SendableReply(reply)
    ensures match req
            case GetProducts => |RequestBytes(req)| == 4 && HoldsInt(RequestBytes(req), 0, 3)
            case PlaceOrder(o) =>
              && HoldsInt(RequestBytes(req), 0, 4) && HoldsSize(RequestBytes(req), 4, |OrderBytes(o)|)
              && RequestBytes(req)[12..] == OrderBytes(o)
    ensures match reply
            case Ok => |ReplyBytes(reply)| == 4 && HoldsInt(ReplyBytes(reply), 0, 1)
            case Error => |ReplyBytes(reply)| == 4 && HoldsInt(ReplyBytes(reply), 0, -1)
            case Unsatisfiable(o) =>
              && HoldsInt(ReplyBytes(reply), 0, -2) && HoldsSize(ReplyBytes(reply), 4, |OrderBytes(o)|)
              && ReplyBytes(reply)[12..] == OrderBytes(o)
            case Catalogue(ps) =>
              && HoldsInt(ReplyBytes(reply), 0, |ps|)
              && ReplyBytes(reply)[4..] == Frames(seq(|ps|, k requires 0 <= k < |ps| => ProductBytes(ps[k])))
  {
    hide OrderBytes, ProductBytes, HoldsInt, HoldsSize, MessageBytes, ProductImages, Frames;
    CodeLies(RequestMessage(req));
    CodeLies(ReplyMessage(reply));
    NoFramesAtAll();
    if req.PlaceOrder? {
      BodyLies(RequestMessage(req).tag, OrderBytes(req.order));
    }
    match reply
    case Unsatisfiable(o) => BodyLies(MESSAGE_UNSATISFIABLE_ORDER, OrderBytes(o));
    case Catalogue(ps) =>
      assert ProductImages(ps) == seq(|ps|, k requires 0 <= k < |ps| => ProductBytes(ps[k]));
    case _ =>
  }

  lemma NoFramesAtAll()
    ensures Frames([]) == []
  {
  }

  lemma CodeLies(m: Message)
    requires Sized(m.bodies)
    ensures HoldsInt(MessageBytes(m), 0, m.tag) && MessageBytes(m)[4..] == Frames(m.bodies)
    ensures |MessageBytes(m)| == 4 + |Frames(m.bodies)|
  {
    hide IntBytes, HoldsInt, Frames;
    assert MessageBytes(m)[..4] == IntBytes(m.tag);
    IntLies(MessageBytes(m), 0, m.tag);
  }

  lemma BodyLies(tag: int32, body: seq<byte>)
    requires |body| <= INT_MAX
    ensures HoldsSize(MessageBytes(Message(tag, [body])), 4, |body|) && MessageBytes(Message(tag, [body]))[12..] == body
  {
    hide IntBytes, SizeBytes, HoldsSize;
    var b := MessageBytes(Message(tag, [body]));
    SingleFrame(body);
    assert b == IntBytes(tag) + (SizeBytes(|body|) + body);
    assert b[4..12] == SizeBytes(|body|);
    SizeLies(b, 4, |body|);
  }

  predicate AnswersKind(kind: Kind, reply: Reply) {
    match kind
    case RequestKind => false
    case OrderReplyKind => !reply.Catalogue?
    case ProductsReplyKind => reply.Catalogue? || reply.Error?
  }

  lemma ReplyRoundTrip(kind: Kind, reply: Reply)
    requires SendableReply(reply) && AnswersKind(kind, reply)
    ensures Proper(kind, ReplyMessage(reply))
    ensures ParseReply(kind, ReplyBytes(reply)) == Some(reply)
  {
    hide MessageBytes, ParseMessage, OrderBytes, ParseOrder, ProductImages, ParseProducts;
    MessageRoundTrip(kind, ReplyMessage(reply));
    match reply
    case Unsatisfiable(order) => OrderRoundTrip(order);
    case Catalogue(ps) => ProductsRoundTrip(ps);
    case _ =>
  }

  // ------------------------------------------------------- what the database does

  function ProductOf(row: CatalogueRow, stock: Stock): ProductData
    requires row.id in stock
  {
    ProductData(row.id, row.name, row.description, row.price, stock[row.id])
  }

  ghost predicate ValidTables(t: Tables) {
    && ValidStock(t.stock)
    && |t.catalogue| <= INT_MAX
    && (forall j, k :: 0 <= j < k < |t.catalogue| ==> t.catalogue[j].id != t.catalogue[k].id)
    && (forall k :: 0 <= k < |t.catalogue| ==>
          t.catalogue[k].id in t.stock && Shippable(ProductOf(t.catalogue[k], t.stock)))
  }

  function ProductsOf(t: Tables): (ps: seq<ProductData>)
    requires forall k :: 0 <= k < |t.catalogue| ==> t.catalogue[k].id in t.stock
    ensures |ps| == |t.catalogue|
  {
    seq(|t.catalogue|, k requires 0 <= k < |t.catalogue| => ProductOf(t.catalogue[k], t.stock))
  }

  /** A request the database can serve: its order is a stored one, addressed, of known products. */
  predicate Acceptable(req: Request, stock: Stock) {
    req.PlaceOrder? ==> Storable(req.order) && Placeable(req.order, stock)
  }

  /** One request served in one piece: the tables it leaves and the reply it gets. */
  ghost function Serve(t: Tables, req: Request): (r: (Tables, Reply))
    requires ValidTables(t) && Acceptable(req, t.stock)
    ensures ValidTables(r.0) && r.0.stock.Keys == t.stock.Keys && r.0.catalogue == t.catalogue
    ensures SendableReply(r.1) && AnswersKind(ReplyKind(req), r.1)
  {
    match req
    case GetProducts => (t, if |t.catalogue| == 0 then Error else Catalogue(ProductsOf(t)))
    case PlaceOrder(order) =>
      PlacedIsValid(t, order);
      var (after, outcome) := Placed(t, order);
      (after, match outcome
              case Accepted => Ok
              case Failed => Error
              case Reduced(o) => Unsatisfiable(o))
  }

  lemma PlacedIsValid(t: Tables, order: OrderData)
    requires ValidTables(t) && Storable(order) && Placeable(order, t.stock)
    ensures ValidTables(Placed(t, order).0)
    ensures Placed(t, order).1.Reduced? ==> Storable(Placed(t, order).1.order)
  {
    DebitIsPointwise(t.stock, order.entries);
    var after := Placed(t, order).0;
    forall k | 0 <= k < |after.catalogue|
      ensures after.catalogue[k].id in after.stock && Shippable(ProductOf(after.catalogue[k], after.stock))
    {
      assert Shippable(ProductOf(t.catalogue[k], t.stock));
    }
  }

  /** The bytes the database answers a request buffer with. What it cannot serve is answered by nothing. */
  ghost function Answer(t: Tables, q: seq<byte>): (Tables, seq<byte>) {
    match ParseRequest(q)
    case None => (t, [])
    case Some(req) =>
      if ValidTables(t) && Acceptable(req, t.stock) then (Serve(t, req).0, ReplyBytes(Serve(t, req).1))
      else (t, [])
  }

  lemma AnswerOfRequest(t: Tables, req: Request)
    requires ValidTables(t) && Acceptable(req, t.stock)
    ensures Answer(t, RequestBytes(req)) == (Serve(t, req).0, ReplyBytes(Serve(t, req).1))
  {
    hide ParseRequest, RequestBytes, Serve, ReplyBytes;
    RequestRoundTrip(req);
  }
}

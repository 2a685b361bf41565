/** The shopping session of `client/client.c`: the order being built and the local copy of the
    stock, over every sequence of picks and refused submissions. */
module Cart {
  import opened Bytes
  import opened Orders
  import opened Products
  import opened Ledger
  import opened Messages
  import SharedPipe
  import Shop
  import SqlText

  // -------------------------------------------------------------------- picking a product

  /** The first answer the prompt takes: from none up to all that is left. */
  function AcceptedAnswer(answers: seq<int>, available: int): Option<int> {
    if answers == [] then None
    else if 0 <= answers[0] <= available then Some(answers[0])
    else AcceptedAnswer(answers[1..], available)
  }

  /** The order's entries and the product's local stock after picking `num` of it. */
  function Picked(es: seq<Entry>, p: ProductData, num: int): (seq<Entry>, int) {
    if 0 < num <= p.stock && CanAdd(es, p.id) then (WithAdded(es, p.id, num, p.price), p.stock - num) else (es, p.stock)
  }

  /** The order has a line for the product or room for one. */
  predicate HasRoom(es: seq<Entry>, id: int32) {
    |es| < 16 || exists k :: 0 <= k < |es| && es[k].productId == id
  }

  /** So many of a product moved into the order: its total rises and its local stock falls by just
      that, a new line carries its price, and the other lines stand. */
  ghost predicate Moved(es: seq<Entry>, p: ProductData, num: int, after: seq<Entry>, left: int) {
    && left == p.stock - num && |after| >= |es| && Total(after, p.id) == Total(es, p.id) + num
    && (forall j :: 0 <= j < |es| ==>
          && after[j].productId == es[j].productId && after[j].price == es[j].price
          && (es[j].productId != p.id ==> after[j] == es[j]))
    && if exists j :: 0 <= j < |es| && es[j].productId == p.id then |after| == |es|
       else after == es + [Entry(p.id, num, p.price)]
  }

  /** The k-th answer is the first between none and all that is left. */
  predicate FirstInRange(answers: seq<int>, available: int, k: int) {
    && 0 <= k < |answers| && 0 <= answers[k] <= available
    && forall j :: 0 <= j < k ==> !(0 <= answers[j] <= available)
  }

  lemma {:induction false} AcceptedIsFirstInRange(answers: seq<int>, available: int)
    ensures AcceptedAnswer(answers, available).None? ==>
              forall k :: 0 <= k < |answers| ==> !(0 <= answers[k] <= available)
    ensures forall k :: FirstInRange(answers, available, k) ==> AcceptedAnswer(answers, available) == Some(answers[k])
  {
    if answers != [] && !(0 <= answers[0] <= available) {
      AcceptedIsFirstInRange(answers[1..], available);
      forall k | FirstInRange(answers, available, k)
        ensures AcceptedAnswer(answers, available) == Some(answers[k])
      {
        assert FirstInRange(answers[1..], available, k - 1);
      }
    }
  }

  lemma PickedIsMoved(es: seq<Entry>, p: ProductData, num: int)
    requires 0 < num <= p.stock && HasRoom(es, p.id)
    ensures var (after, left) := Picked(es, p, num);
            Moved(es, p, num, after, left)
  {
    TotalOfAdded(es, AddCall(p.id, num, p.price), p.id);
  }

  /** What the answers do: nothing if none is in range, and otherwise what the first one in range says. */
  lemma OutcomeOfAnswers(es: seq<Entry>, p: ProductData, answers: seq<int>, after: seq<Entry>, left: int)
    requires var answer := AcceptedAnswer(answers, p.stock);
             (after, left) == Picked(es, p, if answer.Some? then answer.value else 0)
    ensures (forall k :: 0 <= k < |answers| ==> !(0 <= answers[k] <= p.stock)) ==> after == es && left == p.stock
    ensures forall k :: FirstInRange(answers, p.stock, k) ==>
              if answers[k] > 0 && HasRoom(es, p.id) then Moved(es, p, answers[k], after, left)
              else after == es && left == p.stock
  {
    hide Moved;
    AcceptedIsFirstInRange(answers, p.stock);
    forall k | FirstInRange(answers, p.stock, k) && answers[k] > 0 && HasRoom(es, p.id)
      ensures Moved(es, p, answers[k], after, left)
    {
      PickedIsMoved(es, p, answers[k]);
    }
  }

  /** `addToOrder`, for the answers the user gives to its prompt. */
  method AddToOrder(index: nat, products: seq<Product>, order: Order, answers: seq<int>)
    requires index < |products| && order.Valid()
    requires forall k :: 0 <= k < |order.Data().entries| && order.Data().entries[k].productId == products[index].id
               ==> 0 <= order.Data().entries[k].quantity <= INT_MAX - products[index].stock
    modifies products[index], order`numEntries, order.items
    ensures order.Valid() && order.address == old(order.address)
    ensures var answer := AcceptedAnswer(answers, old(products[index].stock));
            var num := if answer.Some? then answer.value else 0;
            var (entries, left) := Picked(old(order.Data().entries), old(products[index].Data()), num);
            order.Data().entries == entries && products[index].Data() == old(products[index].Data()).(stock := left)
    ensures (forall k :: 0 <= k < |answers| ==> !(0 <= answers[k] <= old(products[index].stock))) ==>
              order.Data() == old(order.Data()) && products[index].Data() == old(products[index].Data())
    ensures forall k :: FirstInRange(answers, old(products[index].stock), k) ==>
              if answers[k] > 0 && HasRoom(old(order.Data().entries), old(products[index].id)) then
                Moved(old(order.Data().entries), old(products[index].Data()), answers[k],
                      order.Data().entries, products[index].stock)
              else
                order.Data() == old(order.Data()) && products[index].Data() == old(products[index].Data())
  {
    hide Moved, HasRoom;
    var availStock := products[index].stock;
    ghost var es, p := order.Data().entries, products[index].Data();
    var i := 0;
    var num := 0;
    assert answers[0..] == answers;
    while i < |answers|
      invariant i <= |answers| && order.Valid() && order.address == old(order.address) && num == 0
      invariant order.Data().entries == es && products[index].Data() == p
      invariant AcceptedAnswer(answers[i..], availStock) == AcceptedAnswer(answers, availStock)
      decreases |answers| - i
    {
      assert answers[i..][1..] == answers[i + 1..];
      if 0 <= answers[i] <= availStock {
        num := answers[i];
        if num != 0 {
          var result := order.Add(products[index].id, num, products[index].price);
          if result != -1 {
            var _ := products[index].SetStock(availStock - num);
          }
        }
        break;
      }
      i := i + 1;
    }
    OutcomeOfAnswers(es, p, answers, order.Data().entries, products[index].stock);
  }

  // ------------------------------------------------------------------------- a session

  datatype Session = Session(stock: seq<int>, entries: seq<Entry>)

  datatype Action = Pick(index: nat, num: int) | Refused(reduced: seq<Entry>)

  /** A refused submission comes back with a sub-order of what was sent. */
  predicate Enabled(catalogue: seq<ProductData>, s: Session, a: Action)
    requires |s.stock| == |catalogue|
  {
    match a
    case Pick(index, _) => index < |catalogue|
    case Refused(reduced) => SubOrder(reduced, s.entries)
  }

  function Apply(catalogue: seq<ProductData>, s: Session, a: Action): (t: Session)
    requires |s.stock| == |catalogue| && Enabled(catalogue, s, a)
    ensures |t.stock| == |catalogue|
  {
    match a
    case Pick(index, num) =>
      var (es, left) := Picked(s.entries, catalogue[index].(stock := s.stock[index]), num);
      Session(s.stock[index := left], es)
    case Refused(reduced) => s.(entries := reduced)
  }

  predicate Run(catalogue: seq<ProductData>, s: Session, actions: seq<Action>, t: Session)
    requires |s.stock| == |catalogue|
    decreases |actions|
  {
    if actions == [] then s == t
    else Enabled(catalogue, s, actions[0]) && Run(catalogue, Apply(catalogue, s, actions[0]), actions[1..], t)
  }

  /** What the database sells: different products, none with a negative stock. */
  predicate Sellable(catalogue: seq<ProductData>) {
    && (forall j, k :: 0 <= j < k < |catalogue| ==> catalogue[j].id != catalogue[k].id)
    && (forall k :: 0 <= k < |catalogue| ==> 0 <= catalogue[k].stock <= INT_MAX)
  }

  function Fetched(catalogue: seq<ProductData>): Session {
    Session(seq(|catalogue|, k requires 0 <= k < |catalogue| => catalogue[k].stock), [])
  }

  predicate Offers(catalogue: seq<ProductData>, id: int32) {
    exists k :: 0 <= k < |catalogue| && catalogue[k].id == id
  }

  /** Local stock and cart are not negative and add up to no more than what was fetched;
      to exactly that much as long as `exact`. */
  predicate AddsUp(catalogue: seq<ProductData>, s: Session, exact: bool)
    requires |s.stock| == |catalogue|
  {
    forall k :: 0 <= k < |catalogue| ==>
      var all := s.stock[k] + Total(s.entries, catalogue[k].id);
      && 0 <= s.stock[k] && 0 <= Total(s.entries, catalogue[k].id)
      && all <= catalogue[k].stock && (exact ==> all == catalogue[k].stock)
  }

  predicate WellOrdered(catalogue: seq<ProductData>, es: seq<Entry>) {
    && |es| <= ORDER_MAX_SIZE && DistinctIds(es)
    && (forall k :: 0 <= k < |es| ==> es[k].quantity >= 0 && Offers(catalogue, es[k].productId))
  }

  lemma {:induction false} TotalOfRaised(es: seq<Entry>, k: nat, num: int, id: int32)
    requires k < |es|
    ensures Total(es[k := es[k].(quantity := es[k].quantity + num)], id)
         == Total(es, id) + if es[k].productId == id then num else 0
    decreases |es|
  {
    var n := |es| - 1;
    var raised := es[k := es[k].(quantity := es[k].quantity + num)];
    if k < n {
      TotalOfRaised(es[..n], k, num, id);
      assert raised[..n] == es[..n][k := es[k].(quantity := es[k].quantity + num)];
    } else {
      assert raised[..n] == es[..n];
    }
  }

  lemma TotalOfAdded(es: seq<Entry>, c: AddCall, id: int32)
    requires CanAdd(es, c.id)
    ensures Total(WithAdded(es, c.id, c.quantity, c.price), id)
         == Total(es, id) + if c.id == id then c.quantity else 0
  {
    var k := IndexOf(es, c.id);
    if k < |es| {
      TotalOfRaised(es, k, c.quantity, id);
    } else {
      assert (es + [Entry(c.id, c.quantity, c.price)])[..|es|] == es;
    }
  }

  lemma {:induction false} TotalOfSubOrder(sub: seq<Entry>, es: seq<Entry>, id: int32)
    requires SubOrder(sub, es)
    ensures 0 <= Total(sub, id) <= Total(es, id)
  {
    if es != [] {
      TotalOfSubOrder(sub[..|es| - 1], es[..|es| - 1], id);
    }
  }

  lemma PickKeepsIt(catalogue: seq<ProductData>, s: Session, index: nat, num: int, exact: bool)
    requires Sellable(catalogue) && |s.stock| == |catalogue| && index < |catalogue|
    requires AddsUp(catalogue, s, exact) && WellOrdered(catalogue, s.entries)
    ensures var t := Apply(catalogue, s, Pick(index, num));
            AddsUp(catalogue, t, exact) && WellOrdered(catalogue, t.entries)
  {
    hide Total;
    var p := catalogue[index];
    if 0 < num <= s.stock[index] && CanAdd(s.entries, p.id) {
      var t := Apply(catalogue, s, Pick(index, num));
      forall k | 0 <= k < |catalogue|
        ensures Total(t.entries, catalogue[k].id) == Total(s.entries, catalogue[k].id) + if k == index then num else 0
      {
        TotalOfAdded(s.entries, AddCall(p.id, num, p.price), catalogue[k].id);
      }
      assert Offers(catalogue, p.id);
    }
  }

  lemma RefusalKeepsIt(catalogue: seq<ProductData>, s: Session, reduced: seq<Entry>, exact: bool)
    requires |s.stock| == |catalogue| && SubOrder(reduced, s.entries)
    requires AddsUp(catalogue, s, exact) && WellOrdered(catalogue, s.entries)
    ensures AddsUp(catalogue, s.(entries := reduced), false) && WellOrdered(catalogue, reduced)
  {
    forall k | 0 <= k < |catalogue|
      ensures 0 <= Total(reduced, catalogue[k].id) <= Total(s.entries, catalogue[k].id)
    {
      TotalOfSubOrder(reduced, s.entries, catalogue[k].id);
    }
  }

  lemma {:induction false} RunKeepsIt(catalogue: seq<ProductData>, s: Session, actions: seq<Action>, t: Session,
        exact: bool)
    requires Sellable(catalogue) && |s.stock| == |catalogue| && Run(catalogue, s, actions, t)
    requires AddsUp(catalogue, s, exact) && WellOrdered(catalogue, s.entries)
    ensures |t.stock| == |catalogue| && WellOrdered(catalogue, t.entries)
    ensures AddsUp(catalogue, t, exact && forall k :: 0 <= k < |actions| ==> actions[k].Pick?)
    decreases |actions|
  {
    hide AddsUp, WellOrdered, Sellable;
    if actions != [] {
      var next := Apply(catalogue, s, actions[0]);
      match actions[0]
      case Pick(index, num) =>
        PickKeepsIt(catalogue, s, index, num, exact);
        RunKeepsIt(catalogue, next, actions[1..], t, exact);
        assert actions == [actions[0]] + actions[1..];
      case Refused(reduced) =>
        RefusalKeepsIt(catalogue, s, reduced, exact);
        RunKeepsIt(catalogue, next, actions[1..], t, false);
        assert !actions[0].Pick?;
    }
  }

  /** Over every session: for each product, local stock and cart add up to what was fetched until a
      submission is refused and to no more after that, and neither is ever negative. */
  lemma CartAddsUp(catalogue: seq<ProductData>, actions: seq<Action>, t: Session)
    requires Sellable(catalogue) && Run(catalogue, Fetched(catalogue), actions, t)
    ensures |t.stock| == |catalogue| && WellOrdered(catalogue, t.entries)
    ensures AddsUp(catalogue, t, forall k :: 0 <= k < |actions| ==> actions[k].Pick?)
  {
    hide AddsUp, WellOrdered, Sellable;
    FetchedAddsUp(catalogue);
    RunKeepsIt(catalogue, Fetched(catalogue), actions, t, true);
  }

  lemma FetchedAddsUp(catalogue: seq<ProductData>)
    requires Sellable(catalogue)
    ensures AddsUp(catalogue, Fetched(catalogue), true) && WellOrdered(catalogue, Fetched(catalogue).entries)
  {
  }

  lemma AddsUpAtMost(catalogue: seq<ProductData>, t: Session, exact: bool)
    requires |t.stock| == |catalogue| && AddsUp(catalogue, t, exact)
    ensures AddsUp(catalogue, t, false)
  {
  }

  lemma LineAndStockFit(catalogue: seq<ProductData>, t: Session, index: nat, k: nat)
    requires |t.stock| == |catalogue| && Sellable(catalogue) && AddsUp(catalogue, t, false)
      && WellOrdered(catalogue, t.entries)
    requires index < |catalogue| && k < |t.entries| && t.entries[k].productId == catalogue[index].id
    ensures 0 <= t.entries[k].quantity <= INT_MAX - t.stock[index] && 0 <= t.stock[index]
  {
    TotalOfDistinct(t.entries, catalogue[index].id);
  }

  /** So a line never outgrows an `int`, however many picks it takes. */
  lemma LinesFitInt(catalogue: seq<ProductData>, actions: seq<Action>, t: Session, index: nat)
    requires Sellable(catalogue) && Run(catalogue, Fetched(catalogue), actions, t) && index < |catalogue|
    ensures |t.stock| == |catalogue|
    ensures forall k :: 0 <= k < |t.entries| && t.entries[k].productId == catalogue[index].id
              ==> 0 <= t.entries[k].quantity <= INT_MAX - t.stock[index]
  {
    hide Run, Sellable, WellOrdered, Fetched;
    CartAddsUp(catalogue, actions, t);
    forall k | 0 <= k < |t.entries| && t.entries[k].productId == catalogue[index].id
      ensures 0 <= t.entries[k].quantity <= INT_MAX - t.stock[index]
    {
      LineAndStockFit(catalogue, t, index, k);
    }
  }

  /** What the client takes for an address: letters, digits and spaces, as many as its buffer of
      1024 characters holds with the newline that ends them. */
  predicate Enterable(address: seq<byte>) {
    && |address| <= 1022
    && forall k :: 0 <= k < |address| ==>
         address[k] == 32 || 48 <= address[k] <= 57 || 65 <= address[k] <= 90 || 97 <= address[k] <= 122
  }

  /** The cart's order has distinct ids, and wherever the database still knows the products it
      offered, it can serve the order exactly when the address is one its queries have room for. */
  lemma CartIsAcceptable(catalogue: seq<ProductData>, actions: seq<Action>, t: Session, address: seq<byte>,
        stock: Stock)
    requires Sellable(catalogue) && Run(catalogue, Fetched(catalogue), actions, t)
    requires Enterable(address)
    requires forall k :: 0 <= k < |catalogue| ==> catalogue[k].id in stock
    ensures DistinctIds(t.entries) && Storable(OrderData(Some(address), t.entries))
    ensures Acceptable(Request.PlaceOrder(OrderData(Some(address), t.entries)), stock) <==> |address| <= ADDRESS_MAX
  {
    hide Run, Sellable, Fetched, AddsUp;
    CartAddsUp(catalogue, actions, t);
    forall k | 0 <= k < |t.entries|
      ensures t.entries[k].productId in stock && FitsInt(t.entries[k].quantity)
    {
      assert Offers(catalogue, t.entries[k].productId);
      var index :| 0 <= index < |catalogue| && catalogue[index].id == t.entries[k].productId;
      AddsUpAtMost(catalogue, t, forall j :: 0 <= j < |actions| ==> actions[j].Pick?);
      LineAndStockFit(catalogue, t, index, k);
    }
  }

  /** The client takes addresses that do not fit: a thousand letters, with a total and a time that
      are in no way special, overrun the buffer of the query. */
  lemma LongAddressOverruns(address: seq<byte>)
    requires address == seq(1000, _ => 97)
    ensures Enterable(address) && CString(address)
    ensures !SqlText.Fits(SqlText.QUERY_SIZE, 0, SqlText.OrderPieces(3050, address, 1_500_000_000))
  {
    hide SqlText.Fits, SqlText.OrderPieces;
    SqlText.OrderQueryFitsIff(SqlText.QUERY_SIZE, 3050, address, 1_500_000_000);
  }

  /** What the database sends back when it refuses the cart is a step of the session, and it
      changes the cart. */
  lemma RefusalIsAStep(catalogue: seq<ProductData>, s: Session, tables: Tables, address: seq<byte>)
    requires |s.stock| == |catalogue| && ValidStock(tables.stock)
    requires Placeable(OrderData(Some(address), s.entries), tables.stock)
    requires Placed(tables, OrderData(Some(address), s.entries)).1.Reduced?
    ensures var reduced := Placed(tables, OrderData(Some(address), s.entries)).1.order.entries;
            Enabled(catalogue, s, Refused(reduced)) && Apply(catalogue, s, Refused(reduced)) != s
  {
  }

  /** The order is what some client has after some session with some catalogue it fetched. */
  ghost predicate FromSession(o: OrderData) {
    exists catalogue, actions, t ::
      Sellable(catalogue) && Run(catalogue, Fetched(catalogue), actions, t) && t.entries == o.entries
  }

  ghost predicate AllFromSessions(calls: seq<SharedPipe.Call>) {
    forall k :: 0 <= k < |calls| && calls[k].req.PlaceOrder? ==> FromSession(calls[k].req.order)
  }

  lemma SessionOrdersAreDistinct(calls: seq<SharedPipe.Call>)
    requires AllFromSessions(calls)
    ensures SharedPipe.DistinctCalls(calls)
  {
    hide Run, Sellable, AddsUp;
    forall k | 0 <= k < |calls| && calls[k].req.PlaceOrder?
      ensures DistinctIds(calls[k].req.order.entries)
    {
      var catalogue, actions, t :| Sellable(catalogue) && Run(catalogue, Fetched(catalogue), actions, t)
        && t.entries == calls[k].req.order.entries;
      CartAddsUp(catalogue, actions, t);
    }
  }

  /** Whatever any number of clients order from their carts, at every moment of every run of the
      shop the stock left and sold of each product is what there was at the beginning. */
  lemma ShoppersConserveStock(
      capacity: nat, n: nat, t0: Tables, actions: seq<Shop.Action>, s: Shop.State, initial: Stock)
    requires ValidTables(t0) && Balanced(t0, initial)
    requires Shop.Run(capacity, Shop.Start(n, t0), actions, s) && AllFromSessions(s.core.calls)
    ensures Balanced(s.core.tables, initial) && ValidStock(s.core.tables.stock)
  {
    hide Shop.Run, SharedPipe.Run, Balanced, ValidTables, AllFromSessions;
    var inner := Shop.CoreRuns(capacity, Shop.Start(n, t0), actions, s);
    SessionOrdersAreDistinct(s.core.calls);
    SharedPipe.StockIsConservedUnderInterleaving(capacity, n, t0, inner, s.core, initial);
  }

  // ------------------------------------------------------- what picks alone come to

  /** How much of product k a run of actions moves into the order. */
  function AmountPicked(catalogue: seq<ProductData>, s: Session, actions: seq<Action>, k: nat): int
    requires |s.stock| == |catalogue|
    decreases |actions|
  {
    if actions == [] || !Enabled(catalogue, s, actions[0]) then 0 else
    (match actions[0]
     case Pick(index, num) =>
       if index == k && 0 < num <= s.stock[k] && HasRoom(s.entries, catalogue[k].id) then num else 0
     case Refused(_) => 0)
    + AmountPicked(catalogue, Apply(catalogue, s, actions[0]), actions[1..], k)
  }

  lemma PickMovesAmount(catalogue: seq<ProductData>, s: Session, index: nat, num: int, k: nat)
    requires Sellable(catalogue) && |s.stock| == |catalogue| && index < |catalogue| && k < |catalogue|
    ensures var t := Apply(catalogue, s, Pick(index, num));
            var moved := if index == k && 0 < num <= s.stock[k] && HasRoom(s.entries, catalogue[k].id) then num else 0;
            && Total(t.entries, catalogue[k].id) == Total(s.entries, catalogue[k].id) + moved
            && t.stock[k] == s.stock[k] - moved
  {
    hide Total;
    var p := catalogue[index];
    if 0 < num <= s.stock[index] && HasRoom(s.entries, p.id) {
      TotalOfAdded(s.entries, AddCall(p.id, num, p.price), catalogue[k].id);
    }
  }

  lemma {:induction false} PicksAddUp(catalogue: seq<ProductData>, s: Session, actions: seq<Action>, t: Session, k: nat)
    requires Sellable(catalogue) && |s.stock| == |catalogue| && Run(catalogue, s, actions, t) && k < |catalogue|
    requires forall j :: 0 <= j < |actions| ==> actions[j].Pick?
    ensures |t.stock| == |catalogue|
    ensures Total(t.entries, catalogue[k].id)
         == Total(s.entries, catalogue[k].id) + AmountPicked(catalogue, s, actions, k)
    ensures t.stock[k] == s.stock[k] - AmountPicked(catalogue, s, actions, k)
    decreases |actions|
  {
    hide Total, Apply, Sellable, HasRoom;
    if actions != [] {
      var Pick(index, num) := actions[0];
      PickMovesAmount(catalogue, s, index, num, k);
      PicksAddUp(catalogue, Apply(catalogue, s, actions[0]), actions[1..], t, k);
    }
  }

  /** Over every session of picks alone the cart has of each product exactly what was picked of it,
      and the local stock is what was fetched without that. */
  lemma CartIsWhatWasPicked(catalogue: seq<ProductData>, actions: seq<Action>, t: Session, k: nat)
    requires Sellable(catalogue) && Run(catalogue, Fetched(catalogue), actions, t) && k < |catalogue|
    requires forall j :: 0 <= j < |actions| ==> actions[j].Pick?
    ensures |t.stock| == |catalogue|
    ensures Total(t.entries, catalogue[k].id) == AmountPicked(catalogue, Fetched(catalogue), actions, k)
    ensures t.stock[k] == catalogue[k].stock - AmountPicked(catalogue, Fetched(catalogue), actions, k)
  {
    PicksAddUp(catalogue, Fetched(catalogue), actions, t, k);
  }

  /** A cart filled by picks from the catalogue as it is, with an address that is short enough, is
      accepted if it is placed next. */
  lemma FreshCartIsAccepted(t: Tables, actions: seq<Action>, s: Session, address: seq<byte>)
    requires ValidTables(t) && Run(ProductsOf(t), Fetched(ProductsOf(t)), actions, s) && |address| <= ADDRESS_MAX
    ensures var o := OrderData(Some(address), s.entries);
            Placeable(o, t.stock) && Placed(t, o).1 == Accepted
  {
    hide Run, Fetched, Total;
    var catalogue := ProductsOf(t);
    CatalogueIsSellable(t);
    CartAddsUp(catalogue, actions, s);
    AddsUpAtMost(catalogue, s, forall k :: 0 <= k < |actions| ==> actions[k].Pick?);
    forall k | 0 <= k < |s.entries|
      ensures s.entries[k].productId in t.stock && 0 <= s.entries[k].quantity <= t.stock[s.entries[k].productId]
    {
      assert Offers(catalogue, s.entries[k].productId);
      var index :| 0 <= index < |catalogue| && catalogue[index].id == s.entries[k].productId;
      TotalOfDistinct(s.entries, catalogue[index].id);
      assert catalogue[index].stock == t.stock[catalogue[index].id];
    }
    AllOrNothing(t, OrderData(Some(address), s.entries));
  }

  lemma CatalogueIsSellable(t: Tables)
    requires ValidTables(t)
    ensures Sellable(ProductsOf(t))
  {
  }
}

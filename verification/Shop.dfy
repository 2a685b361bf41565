/** The whole shop: any number of clients, each with its own connection to its own forked server,
    and the servers with the database and the shared pipes of `SharedPipe`. A step is one `read` or
    `write` of any positive number of bytes, a lock or an unlock; every queue is bounded. A client
    sends a request, waits for its answer, and may then send another. A server relays an order's
    answer while it holds the mutex, the code before it reads on, and a catalogue after it. */
module Shop {
  import opened Bytes
  import opened Orders
  import opened Products
  import opened Transport
  import opened Ledger
  import opened Messages
  import Relay
  import SharedPipe

  // --------------------------------------------------- a message on a client's connection

  /** A message of the raw pipes with its code framed too, as it travels a client's connection. */
  function Wrapped(b: seq<byte>): (w: seq<byte>)
    ensures |w| == 8 + |b|
  {
    SizeBytes(4) + b
  }

  /** Where the call in progress ends: the code's length, the code, and then as the code says. */
  function WrappedNext(kind: Kind, q: seq<byte>): nat {
    if |q| < 8 then 8
    else if |q| < 8 + SizeAt(q[..8]) then 8 + SizeAt(q[..8])
    else 8 + MessageNext(kind, q[8..])
  }

  /** It is what the client's and the server's `conn_send` put there. */
  lemma WrappedIsFramed(req: Request, reply: Reply)
    requires SendableRequest(req) && SendableReply(reply)
    ensures Wrapped(RequestBytes(req)) == Frames(Relay.ClientMessages(req))
    ensures Wrapped(ReplyBytes(reply)) == Frames(Relay.RelayedMessages(ReplyMessage(reply)))
  {
    CodeIsFramed(RequestMessage(req), Relay.ClientMessages(req));
    CodeIsFramed(ReplyMessage(reply), Relay.RelayedMessages(ReplyMessage(reply)));
  }

  lemma CodeIsFramed(m: Message, ms: seq<seq<byte>>)
    requires Sized(m.bodies) && Sized(ms) && ms == [IntBytes(m.tag)] + m.bodies
    ensures Wrapped(MessageBytes(m)) == Frames(ms)
  {
    hide SizeBytes, IntBytes;
    assert ms[1..] == m.bodies;
    assert SizeBytes(4) + (IntBytes(m.tag) + Frames(m.bodies)) == SizeBytes(4) + IntBytes(m.tag) + Frames(m.bodies);
  }

  /** Calls never end behind the end of the message, and the last one ends there. */
  lemma WrappedDelimits(kind: Kind, b: seq<byte>, k: nat)
    requires 4 <= |b| && k <= 8 + |b|
    requires 8 <= k ==> k - 8 < |b| ==> k - 8 < MessageNext(kind, b[..k - 8]) <= |b|
    requires k == 8 + |b| ==> MessageNext(kind, b) == |b|
    ensures k < 8 + |b| ==> k < WrappedNext(kind, Wrapped(b)[..k]) <= 8 + |b|
    ensures k == 8 + |b| ==> WrappedNext(kind, Wrapped(b)[..k]) == k
  {
    hide SizeBytes, SizeAt, MessageNext;
    if k >= 8 {
      SizeRoundTrip(4);
      assert Wrapped(b)[..k][..8] == SizeBytes(4);
      assert Wrapped(b)[..k][8..] == b[..k - 8];
      assert b[..|b|] == b;
    }
  }

  lemma RequestDelimits(req: Request, k: nat)
    requires SendableRequest(req) && k <= 8 + |RequestBytes(req)|
    ensures var c := Wrapped(RequestBytes(req));
            && (k < |c| ==> k < WrappedNext(RequestKind, c[..k]) <= |c|)
            && (k == |c| ==> WrappedNext(RequestKind, c[..k]) == k)
  {
    hide RequestBytes, Wrapped, WrappedNext, MessageNext;
    var b := RequestBytes(req);
    SharedPipe.RequestDelimits(req, if k >= 8 then k - 8 else 0);
    assert b[..|b|] == b;
    WrappedDelimits(RequestKind, b, k);
  }

  lemma ReplyDelimits(kind: Kind, reply: Reply, k: nat)
    requires SendableReply(reply) && AnswersKind(kind, reply) && k <= 8 + |ReplyBytes(reply)|
    ensures 4 <= |ReplyBytes(reply)|
    ensures var w := Wrapped(ReplyBytes(reply));
            && (k < |w| ==> k < WrappedNext(kind, w[..k]) <= |w|)
            && (k == |w| ==> WrappedNext(kind, w[..k]) == k)
  {
    hide ReplyBytes, Wrapped, WrappedNext, MessageNext;
    var b := ReplyBytes(reply);
    SharedPipe.ReplyDelimits(kind, reply, if k >= 8 then k - 8 else 0);
    assert b[..|b|] == b;
    WrappedDelimits(kind, b, k);
  }

  lemma Unwrapped(b: seq<byte>)
    ensures Wrapped(b)[8..] == b
  {
  }

  // ------------------------------------------------------------------------- the system

  datatype Client = Resting | Sending(req: Request, sent: nat) | Waiting(req: Request, got: seq<byte>)

  /** A forked server as its client sees it: reading a request, having one, in the exchange for it
      with so many bytes of the answer relayed, or passing a catalogue on after the exchange. */
  datatype Front =
    | Listening(got: seq<byte>)
    | Ready(req: Request)
    | Busy(relayed: nat)
    | Passing(whole: seq<byte>, sent: nat)

  datatype Answered = Answered(req: Request, reply: Reply)

  /** A client, both directions of its connection, and its server; `results` is what the client got
      for the requests it has finished. */
  datatype Session = Session(client: Client, up: seq<byte>, down: seq<byte>, front: Front, results: seq<Answered>)

  datatype State = State(sessions: seq<Session>, core: SharedPipe.State)

  datatype Action =
    | Ask(i: nat, req: Request)
    | ClientWrite(i: nat, n: nat)
    | Take(i: nat, n: nat)
    | Enter(i: nat)
    | Inner(a: SharedPipe.Action)
    | Forward(i: nat, n: nat)
    | Leave(i: nat)
    | Pass(i: nat, n: nat)
    | ClientRead(i: nat, n: nat)

  /** How much of an order's answer a server can relay: the code once it has it, and the rest once
      it has all of it. */
  function Available(server: SharedPipe.Server): nat {
    match server
    case Reading(_, got) => if |got| < 4 then 0 else 12
    case Done(_, got) => 8 + |got|
    case _ => 0
  }

  /** A server reads on after an order's code only when the code has been relayed. */
  predicate MayReadOn(server: SharedPipe.Server, front: Front) {
    server.Reading? && (server.req.PlaceOrder? && |server.got| >= 4 ==> front.Busy? && front.relayed >= 12)
  }

  ghost predicate Enabled(capacity: nat, s: State, a: Action)
    requires |s.sessions| == |s.core.servers|
  {
    var n := |s.sessions|;
    match a
    case Ask(i, req) => i < n && s.sessions[i].client.Resting? && Acceptable(req, s.core.tables.stock)
    case ClientWrite(i, k) =>
      && i < n && s.sessions[i].client.Sending? && SendableRequest(s.sessions[i].client.req) && 0 < k
      && var c, sent := Wrapped(RequestBytes(s.sessions[i].client.req)), s.sessions[i].client.sent;
      && sent + k <= |c| && sent + k <= WrappedNext(RequestKind, c[..sent]) && |s.sessions[i].up| + k <= capacity
    case Take(i, k) =>
      && i < n && s.sessions[i].front.Listening? && 0 < k <= |s.sessions[i].up|
      && |s.sessions[i].front.got| + k <= WrappedNext(RequestKind, s.sessions[i].front.got)
    case Enter(i) =>
      i < n && s.sessions[i].front.Ready?
      && SharedPipe.Enabled(capacity, s.core, SharedPipe.Lock(i, s.sessions[i].front.req))
    case Inner(b) =>
      && !b.Lock? && !b.Leave? && SharedPipe.Enabled(capacity, s.core, b)
      && (b.ServerRead? ==> MayReadOn(s.core.servers[b.i], s.sessions[b.i].front))
    case Forward(i, k) =>
      && i < n && s.sessions[i].front.Busy? && 0 < k
      && (s.core.servers[i].Reading? || s.core.servers[i].Done?) && s.core.servers[i].req.PlaceOrder?
      && var w, sent := Wrapped(s.core.servers[i].got), s.sessions[i].front.relayed;
      && sent + k <= Available(s.core.servers[i])
      && sent + k <= WrappedNext(OrderReplyKind, w[..sent]) && |s.sessions[i].down| + k <= capacity
    case Leave(i) =>
      && i < n && s.sessions[i].front.Busy? && SharedPipe.Enabled(capacity, s.core, SharedPipe.Leave(i))
      && (s.core.servers[i].req.PlaceOrder? ==> s.sessions[i].front.relayed == Available(s.core.servers[i]))
    case Pass(i, k) =>
      && i < n && s.sessions[i].front.Passing? && 0 < k
      && var Passing(w, sent) := s.sessions[i].front;
      && sent + k <= |w| && sent + k <= WrappedNext(ProductsReplyKind, w[..sent])
      && |s.sessions[i].down| + k <= capacity
    case ClientRead(i, k) =>
      && i < n && s.sessions[i].client.Waiting? && 0 < k <= |s.sessions[i].down|
      && var Waiting(req, got) := s.sessions[i].client;
      && |got| + k <= WrappedNext(ReplyKind(req), got)
  }

  /** What a server has when it has read so much of its client's request. */
  function AfterTaking(got: seq<byte>): Front {
    if |got| < WrappedNext(RequestKind, got) || |got| < 8 then Listening(got) else
    match ParseRequest(got[8..])
    case Some(req) => Ready(req)
    case None => Listening(got)
  }

  /** What a client is when it has read so much of the answer. */
  function AfterReading(s: Session, req: Request, got: seq<byte>): Session {
    if |got| < WrappedNext(ReplyKind(req), got) || |got| < 8 then s.(client := Waiting(req, got)) else
    match ParseReply(ReplyKind(req), got[8..])
    case Some(reply) => s.(client := Resting, results := s.results + [Answered(req, reply)])
    case None => s.(client := Waiting(req, got))
  }

  /** The session that a step of its client or its server leaves. */
  ghost function Stepped(capacity: nat, s: State, a: Action): Session
    requires |s.sessions| == |s.core.servers| && Enabled(capacity, s, a) && !a.Inner?
  {
    var x := s.sessions[a.i];
    match a
    case Ask(_, req) => x.(client := Sending(req, 0))
    case ClientWrite(_, k) =>
      var Sending(req, sent) := x.client;
      var c := Wrapped(RequestBytes(req));
      x.(client := if sent + k == |c| then Waiting(req, []) else Sending(req, sent + k), up := x.up + c[sent..sent + k])
    case Take(_, k) => x.(front := AfterTaking(x.front.got + x.up[..k]), up := x.up[k..])
    case Enter(_) => x.(front := Busy(0))
    case Forward(i, k) =>
      var sent := x.front.relayed;
      x.(front := Busy(sent + k), down := x.down + Wrapped(s.core.servers[i].got)[sent..sent + k])
    case Leave(i) =>
      var server: SharedPipe.Server := s.core.servers[i];
      x.(front := if server.req.PlaceOrder? then Listening([]) else Passing(Wrapped(server.got), 0))
    case Pass(_, k) =>
      var Passing(w, sent) := x.front;
      x.(front := if sent + k == |w| then Listening([]) else Passing(w, sent + k), down := x.down + w[sent..sent + k])
    case ClientRead(_, k) => AfterReading(x.(down := x.down[k..]), x.client.req, x.client.got + x.down[..k])
  }

  /** What a step is to the servers and the database, if it is anything to them. */
  ghost function CoreStep(capacity: nat, s: State, a: Action): Option<SharedPipe.Action>
    requires |s.sessions| == |s.core.servers| && Enabled(capacity, s, a)
  {
    match a
    case Enter(i) => Some(SharedPipe.Lock(i, s.sessions[i].front.req))
    case Inner(b) => Some(b)
    case Leave(i) => Some(SharedPipe.Leave(i))
    case _ => None
  }

  ghost function Apply(capacity: nat, s: State, a: Action): (t: State)
    requires |s.sessions| == |s.core.servers| && Enabled(capacity, s, a)
    ensures |t.sessions| == |t.core.servers| == |s.sessions|
  {
    var b := CoreStep(capacity, s, a);
    State(if a.Inner? then s.sessions else s.sessions[a.i := Stepped(capacity, s, a)],
          if b.Some? then SharedPipe.Apply(capacity, s.core, b.value) else s.core)
  }

  ghost predicate Run(capacity: nat, s: State, actions: seq<Action>, t: State)
    requires |s.sessions| == |s.core.servers|
    decreases |actions|
  {
    if actions == [] then s == t
    else Enabled(capacity, s, actions[0]) && Run(capacity, Apply(capacity, s, actions[0]), actions[1..], t)
  }

  function Start(n: nat, t0: Tables): State {
    State(seq(n, _ => Session(Resting, [], [], Listening([]), [])), SharedPipe.Start(n, t0))
  }

  /** The shared pipes take the steps they do in `SharedPipe`, so all that holds there holds here. */
  lemma {:induction false} CoreRuns(capacity: nat, s: State, actions: seq<Action>, t: State)
    returns (inner: seq<SharedPipe.Action>)
    requires |s.sessions| == |s.core.servers| && Run(capacity, s, actions, t)
    ensures SharedPipe.Run(capacity, s.core, inner, t.core)
    decreases |actions|
  {
    hide SharedPipe.Enabled, SharedPipe.Apply, Stepped;
    if actions == [] {
      inner := [];
    } else {
      inner := CoreRuns(capacity, Apply(capacity, s, actions[0]), actions[1..], t);
      var b := CoreStep(capacity, s, actions[0]);
      if b.Some? {
        var rest := inner;
        inner := [b.value] + rest;
        assert inner[1..] == rest;
      }
    }
  }

  // ------------------------------------------------------------------ the invariant

  /** What client i is due: for each of its requests, in order, the reply the sequential service
      gives it. */
  ghost function Verdicts(t0: Tables, calls: seq<SharedPipe.Call>, i: nat): (v: seq<Answered>)
    requires ValidTables(t0) && SharedPipe.AllAcceptable(t0, calls)
    ensures |v| <= |calls|
    ensures forall k :: 0 <= k < |v| ==>
              SendableReply(v[k].reply) && AnswersKind(ReplyKind(v[k].req), v[k].reply)
  {
    if calls == [] then [] else
    var n := |calls| - 1;
    Verdicts(t0, calls[..n], i)
    + if calls[n].server == i then [Answered(calls[n].req, SharedPipe.ReplyTo(t0, calls, n))] else []
  }

  /** The client has all it is due; it may be sending its next request, of which the server has `g`. */
  ghost predicate Settled(stock: Stock, v: seq<Answered>, s: Session, g: seq<byte>) {
    && s.results == v && s.down == []
    && match s.client
       case Resting => g == [] && s.up == []
       case Sending(req, sent) =>
         && Acceptable(req, stock) && sent < 8 + |RequestBytes(req)|
         && g + s.up == Wrapped(RequestBytes(req))[..sent]
       case Waiting(req, got) =>
         && got == [] && Acceptable(req, stock) && |g| < 8 + |RequestBytes(req)|
         && g + s.up == Wrapped(RequestBytes(req))
  }

  /** The client waits for its last answer, of which the server has sent so much. */
  ghost predicate Pending(v: seq<Answered>, s: Session, sent: nat) {
    && v != []
    && var last := v[|v| - 1];
    && SendableReply(last.reply) && AnswersKind(ReplyKind(last.req), last.reply)
    && v == s.results + [last] && s.client.Waiting? && s.client.req == last.req && s.up == []
    && sent <= 8 + |ReplyBytes(last.reply)| && |s.client.got| < 8 + |ReplyBytes(last.reply)|
    && s.client.got + s.down == Wrapped(ReplyBytes(last.reply))[..sent]
  }

  /** All of the last answer is sent, or read too. */
  ghost predicate Answering(stock: Stock, v: seq<Answered>, s: Session, sent: nat) {
    Pending(v, s, sent)
    || (v != [] && SendableReply(v[|v| - 1].reply) && sent == 8 + |ReplyBytes(v[|v| - 1].reply)|
        && Settled(stock, v, s, []))
  }

  ghost predicate BusyInv(stock: Stock, v: seq<Answered>, core: SharedPipe.State, i: nat, s: Session)
    requires i < |core.servers| && s.front.Busy?
  {
    && core.holder == Some(i) && !core.servers[i].Idle? && v != []
    && core.servers[i].req == v[|v| - 1].req && Answering(stock, v, s, s.front.relayed)
    && s.front.relayed <= Available(core.servers[i])
    && (core.servers[i].req.GetProducts? ==> s.front.relayed == 0)
  }

  ghost predicate SessionInv(stock: Stock, v: seq<Answered>, core: SharedPipe.State, i: nat, s: Session)
    requires i < |core.servers|
  {
    match s.front
    case Listening(g) =>
      && core.servers[i].Idle?
      && (Settled(stock, v, s, g)
          || (g == [] && v != [] && SendableReply(v[|v| - 1].reply)
              && Pending(v, s, 8 + |ReplyBytes(v[|v| - 1].reply)|)))
    case Ready(req) =>
      && core.servers[i].Idle? && s.results == v && s.up == [] && s.down == []
      && s.client == Waiting(req, []) && Acceptable(req, stock)
    case Busy(relayed) => BusyInv(stock, v, core, i, s)
    case Passing(whole, sent) =>
      && core.servers[i].Idle? && Pending(v, s, sent) && v[|v| - 1].req.GetProducts?
      && whole == Wrapped(ReplyBytes(v[|v| - 1].reply)) && sent < |whole|
  }

  ghost predicate Inv(t0: Tables, s: State) {
    && SharedPipe.Inv(t0, s.core) && |s.sessions| == |s.core.servers|
    && forall i :: 0 <= i < |s.sessions| ==>
         SessionInv(t0.stock, Verdicts(t0, s.core.calls, i), s.core, i, s.sessions[i])
  }

  // ------------------------------------------------- steps of a client and its link

  lemma PrefixGrows(x: seq<byte>, y: seq<byte>, w: seq<byte>, sent: nat, k: nat)
    requires sent + k <= |w| && x + y == w[..sent]
    ensures x + (y + w[sent..sent + k]) == w[..sent + k]
  {
    assert w[..sent + k] == w[..sent] + w[sent..sent + k];
  }

  lemma PrefixMoves(x: seq<byte>, y: seq<byte>, w: seq<byte>, sent: nat, k: nat)
    requires sent <= |w| && k <= |y| && x + y == w[..sent]
    ensures (x + y[..k]) + y[k..] == w[..sent] && x + y[..k] == w[..|x| + k]
    ensures |x| + |y| == sent && x == w[..|x|]
  {
    assert x == (x + y)[..|x|];
    assert y[..k] + y[k..] == y;
    assert |x + y| == sent;
    assert x + y[..k] == (x + y)[..|x| + k];
  }

  lemma WholePrefix(w: seq<byte>)
    ensures w[..|w|] == w
  {
  }

  lemma AskKeeps(stock: Stock, v: seq<Answered>, s: Session, g: seq<byte>, req: Request)
    requires Settled(stock, v, s, g) && s.client.Resting? && Acceptable(req, stock)
    ensures Settled(stock, v, s.(client := Sending(req, 0)), g)
  {
    hide RequestBytes, Wrapped;
  }

  lemma ClientWriteKeeps(stock: Stock, v: seq<Answered>, s: Session, g: seq<byte>, k: nat)
    requires Settled(stock, v, s, g) && s.client.Sending? && 0 < k
    requires s.client.sent + k <= 8 + |RequestBytes(s.client.req)|
    ensures var Sending(req, sent) := s.client;
            var c := Wrapped(RequestBytes(req));
            Settled(stock, v, s.(client := if sent + k == |c| then Waiting(req, []) else Sending(req, sent + k),
                                 up := s.up + c[sent..sent + k]), g)
  {
    hide RequestBytes, Wrapped;
    var Sending(req, sent) := s.client;
    var c := Wrapped(RequestBytes(req));
    PrefixGrows(g, s.up, c, sent, k);
    WholePrefix(c);
    assert |g| <= sent;
  }

  /** The server takes some of a request: more of it, or all of it and then the request itself. */
  lemma TakeKeeps(stock: Stock, v: seq<Answered>, s: Session, g: seq<byte>, k: nat)
    requires Settled(stock, v, s, g) && 0 < k <= |s.up| && |g| + k <= WrappedNext(RequestKind, g)
    ensures var t := s.(up := s.up[k..]);
            var got := g + s.up[..k];
            match AfterTaking(got)
            case Listening(g') => g' == got && Settled(stock, v, t, got)
            case Ready(req) => t.client == Waiting(req, []) && t.up == [] && Acceptable(req, stock)
            case _ => false
  {
    hide RequestBytes, Wrapped, WrappedNext, ParseRequest;
    var got := g + s.up[..k];
    match s.client
    case Sending(req, sent) =>
      PrefixMoves(g, s.up, Wrapped(RequestBytes(req)), sent, k);
      RequestDelimits(req, |got|);
    case Waiting(req, _) =>
      var c := Wrapped(RequestBytes(req));
      WholePrefix(c);
      PrefixMoves(g, s.up, c, |c|, k);
      RequestDelimits(req, |got|);
      if |got| == |c| {
        Unwrapped(RequestBytes(req));
        RequestRoundTrip(req);
      }
  }

  /** The client takes some of its answer: more of it, or all of it and then it has the reply. */
  lemma ClientReadKeeps(stock: Stock, v: seq<Answered>, s: Session, sent: nat, k: nat)
    requires Pending(v, s, sent) && 0 < k <= |s.down|
    requires |s.client.got| + k <= WrappedNext(ReplyKind(s.client.req), s.client.got)
    ensures var t := AfterReading(s.(down := s.down[k..]), s.client.req, s.client.got + s.down[..k]);
            && t.front == s.front
            && (Pending(v, t, sent) || (sent == 8 + |ReplyBytes(v[|v| - 1].reply)| && Settled(stock, v, t, [])))
  {
    hide ReplyBytes, Wrapped, WrappedNext, ParseReply;
    var reply, kind := v[|v| - 1].reply, ReplyKind(s.client.req);
    var w := Wrapped(ReplyBytes(reply));
    var got := s.client.got + s.down[..k];
    PrefixMoves(s.client.got, s.down, w, sent, k);
    ReplyDelimits(kind, reply, |got|);
    if |got| == |w| {
      WholePrefix(w);
      Unwrapped(ReplyBytes(reply));
      ReplyRoundTrip(kind, reply);
    }
  }

  lemma SendKeeps(v: seq<Answered>, s: Session, sent: nat, k: nat)
    requires Pending(v, s, sent) && sent + k <= 8 + |ReplyBytes(v[|v| - 1].reply)|
    ensures var w := Wrapped(ReplyBytes(v[|v| - 1].reply));
            Pending(v, s.(down := s.down + w[sent..sent + k]), sent + k)
  {
    hide ReplyBytes, Wrapped;
    PrefixGrows(s.client.got, s.down, Wrapped(ReplyBytes(v[|v| - 1].reply)), sent, k);
  }

  // --------------------------------------------- what they do to a session's invariant

  lemma AskKeepsSession(stock: Stock, v: seq<Answered>, core: SharedPipe.State, i: nat, s: Session, req: Request)
    requires i < |core.servers| && SessionInv(stock, v, core, i, s) && s.client.Resting? && Acceptable(req, stock)
    ensures SessionInv(stock, v, core, i, s.(client := Sending(req, 0)))
  {
    hide Settled, RequestBytes, ReplyBytes, Wrapped, Available;
    var g := if s.front.Listening? then s.front.got else [];
    assert Settled(stock, v, s, g);
    AskKeeps(stock, v, s, g, req);
  }

  lemma ClientWriteKeepsSession(stock: Stock, v: seq<Answered>, core: SharedPipe.State, i: nat, s: Session, k: nat)
    requires i < |core.servers| && SessionInv(stock, v, core, i, s) && s.client.Sending? && 0 < k
    requires SendableRequest(s.client.req) && s.client.sent + k <= 8 + |RequestBytes(s.client.req)|
    ensures var Sending(req, sent) := s.client;
            var c := Wrapped(RequestBytes(req));
            SessionInv(stock, v, core, i,
              s.(client := if sent + k == |c| then Waiting(req, []) else Sending(req, sent + k),
                 up := s.up + c[sent..sent + k]))
  {
    hide Settled, RequestBytes, ReplyBytes, Wrapped, Available;
    var g := if s.front.Listening? then s.front.got else [];
    assert Settled(stock, v, s, g);
    ClientWriteKeeps(stock, v, s, g, k);
  }

  lemma SettledParts(stock: Stock, v: seq<Answered>, s: Session, g: seq<byte>)
    requires Settled(stock, v, s, g)
    ensures s.results == v && s.down == []
  {
  }

  lemma TakeKeepsSession(stock: Stock, v: seq<Answered>, core: SharedPipe.State, i: nat, s: Session, k: nat)
    requires i < |core.servers| && SessionInv(stock, v, core, i, s) && s.front.Listening? && 0 < k <= |s.up|
    requires |s.front.got| + k <= WrappedNext(RequestKind, s.front.got)
    ensures SessionInv(stock, v, core, i, s.(front := AfterTaking(s.front.got + s.up[..k]), up := s.up[k..]))
  {
    hide Settled, RequestBytes, ReplyBytes, Wrapped, WrappedNext, AfterTaking, Available;
    var g := s.front.got;
    assert Settled(stock, v, s, g);
    SettledParts(stock, v, s, g);
    TakeKeeps(stock, v, s, g, k);
    var f := AfterTaking(g + s.up[..k]);
    if f.Listening? {
      FrontDoesNotMatter(stock, v, s.(up := s.up[k..]), f, f.got);
    }
  }

  lemma FrontDoesNotMatter(stock: Stock, v: seq<Answered>, s: Session, f: Front, g: seq<byte>)
    ensures Settled(stock, v, s, g) == Settled(stock, v, s.(front := f), g)
    ensures forall sent :: Pending(v, s, sent) == Pending(v, s.(front := f), sent)
  {
  }

  lemma NothingToReadWhenSettled(stock: Stock, v: seq<Answered>, s: Session)
    requires s.down != []
    ensures forall g :: !Settled(stock, v, s, g)
  {
  }

  lemma ClientReadKeepsSession(stock: Stock, v: seq<Answered>, core: SharedPipe.State, i: nat, s: Session, k: nat)
    requires i < |core.servers| && SessionInv(stock, v, core, i, s) && s.client.Waiting? && 0 < k <= |s.down|
    requires |s.client.got| + k <= WrappedNext(ReplyKind(s.client.req), s.client.got)
    ensures SessionInv(stock, v, core, i,
              AfterReading(s.(down := s.down[k..]), s.client.req, s.client.got + s.down[..k]))
  {
    hide Settled, Pending, RequestBytes, ReplyBytes, Wrapped, WrappedNext, AfterReading, Available;
    NothingToReadWhenSettled(stock, v, s);
    PendingParts(v, s);
    match s.front
    case Listening(g) => ClientReadKeeps(stock, v, s, 8 + |ReplyBytes(v[|v| - 1].reply)|, k);
    case Busy(relayed) => ClientReadKeeps(stock, v, s, relayed, k);
    case Passing(whole, sent) => ClientReadKeeps(stock, v, s, sent, k);
  }

  lemma PendingParts(v: seq<Answered>, s: Session)
    ensures forall sent :: Pending(v, s, sent) ==> v != [] && SendableReply(v[|v| - 1].reply)
  {
  }

  lemma PassKeepsSession(stock: Stock, v: seq<Answered>, core: SharedPipe.State, i: nat, s: Session, k: nat)
    requires i < |core.servers| && SessionInv(stock, v, core, i, s) && s.front.Passing?
    requires s.front.sent + k <= |s.front.whole|
    ensures var Passing(w, sent) := s.front;
            SessionInv(stock, v, core, i,
              s.(front := if sent + k == |w| then Listening([]) else Passing(w, sent + k),
                 down := s.down + w[sent..sent + k]))
  {
    hide Settled, Pending, RequestBytes, ReplyBytes, Wrapped;
    PendingParts(v, s);
    var Passing(w, sent) := s.front;
    SendKeeps(v, s, sent, k);
    var t := s.(down := s.down + w[sent..sent + k]);
    FrontDoesNotMatter(stock, v, t, if sent + k == |w| then Listening([]) else Passing(w, sent + k), []);
  }

  /** The reply due to the last caller, of which it has read a part or all. */
  lemma LastVerdict(t0: Tables, calls: seq<SharedPipe.Call>)
    requires ValidTables(t0) && SharedPipe.AllAcceptable(t0, calls) && calls != []
    ensures var last := |calls| - 1;
            var v := Verdicts(t0, calls, calls[last].server);
            v != [] && v[|v| - 1] == Answered(calls[last].req, SharedPipe.ReplyTo(t0, calls, last))
  {
  }

  lemma ValidParts(t0: Tables, core: SharedPipe.State)
    requires SharedPipe.Inv(t0, core)
    ensures ValidTables(t0) && SharedPipe.AllAcceptable(t0, core.calls)
  {
  }

  lemma HolderHas(t0: Tables, core: SharedPipe.State, i: nat)
    requires SharedPipe.Inv(t0, core) && core.holder == Some(i) && i < |core.servers|
    requires core.servers[i].Reading? || core.servers[i].Done?
    ensures var v := Verdicts(t0, core.calls, i);
            && v != [] && core.servers[i].req == v[|v| - 1].req
            && var r, got := ReplyBytes(v[|v| - 1].reply), core.servers[i].got;
            && |got| <= |r| && got == r[..|got|]
            && (core.servers[i].Done? ==> got == r)
            && (core.servers[i].Reading? ==> |got| < |r|)
  {
    hide RequestBytes, ReplyBytes, SharedPipe.ReplyTo, SharedPipe.TablesAfter, SharedPipe.RepliesAreDue;
    LastVerdict(t0, core.calls);
    var last := |core.calls| - 1;
    var r := ReplyBytes(SharedPipe.ReplyTo(t0, core.calls, last));
    WholePrefix(r);
    if core.servers[i].Reading? {
      var got := core.servers[i].got;
      match core.db
      case Receiving(q) =>
        if got != [] {
          assert got + core.fromDb == r;
          assert got == (got + core.fromDb)[..|got|];
        }
      case Replying(_, _, sent) =>
        assert got == (got + core.fromDb)[..|got|] == r[..sent][..|got|];
    }
  }

  lemma WrappedPrefix(got: seq<byte>, r: seq<byte>, sent: nat, k: nat)
    requires |got| <= |r| && got == r[..|got|] && sent + k <= 8 + |got|
    ensures Wrapped(got)[sent..sent + k] == Wrapped(r)[sent..sent + k]
  {
    hide SizeBytes;
    var x, y := Wrapped(got), Wrapped(r);
    forall q | 0 <= q < |x|
      ensures x[q] == y[q]
    {
      if q >= 8 {
        assert got[q - 8] == r[..|got|][q - 8];
      }
    }
  }

  lemma ForwardKeepsSession(t0: Tables, core: SharedPipe.State, i: nat, s: Session, k: nat)
    requires SharedPipe.Inv(t0, core) && i < |core.servers| && s.front.Busy? && 0 < k
    requires SessionInv(t0.stock, Verdicts(t0, core.calls, i), core, i, s)
    requires (core.servers[i].Reading? || core.servers[i].Done?) && core.servers[i].req.PlaceOrder?
    requires s.front.relayed + k <= Available(core.servers[i])
    ensures var sent := s.front.relayed;
            SessionInv(t0.stock, Verdicts(t0, core.calls, i), core, i,
              s.(front := Busy(sent + k), down := s.down + Wrapped(core.servers[i].got)[sent..sent + k]))
  {
    hide Settled, Pending, RequestBytes, ReplyBytes, Wrapped, Verdicts, SharedPipe.Inv;
    ValidParts(t0, core);
    HolderHas(t0, core, i);
    var v, sent := Verdicts(t0, core.calls, i), s.front.relayed;
    var r := ReplyBytes(v[|v| - 1].reply);
    WrappedPrefix(core.servers[i].got, r, sent, k);
    SendKeeps(v, s, sent, k);
    FrontDoesNotMatter(t0.stock, v, s.(down := s.down + Wrapped(r)[sent..sent + k]), Busy(sent + k), []);
  }

  lemma LeaveKeepsSession(t0: Tables, core: SharedPipe.State, next: SharedPipe.State, i: nat, s: Session)
    requires SharedPipe.Inv(t0, core) && i < |core.servers| == |next.servers| && s.front.Busy?
    requires SessionInv(t0.stock, Verdicts(t0, core.calls, i), core, i, s)
    requires core.servers[i].Done? && next.servers[i].Idle?
    requires core.servers[i].req.PlaceOrder? ==> s.front.relayed == Available(core.servers[i])
    ensures SessionInv(t0.stock, Verdicts(t0, core.calls, i), next, i,
              s.(front := if core.servers[i].req.PlaceOrder? then Listening([])
                          else Passing(Wrapped(core.servers[i].got), 0)))
  {
    hide Settled, Pending, RequestBytes, ReplyBytes, Wrapped, Verdicts, SharedPipe.Inv;
    ValidParts(t0, core);
    HolderHas(t0, core, i);
    var v := Verdicts(t0, core.calls, i);
    FrontDoesNotMatter(t0.stock, v, s, Listening([]), []);
    FrontDoesNotMatter(t0.stock, v, s, Passing(Wrapped(core.servers[i].got), 0), []);
  }

  lemma EnterKeepsSession(t0: Tables, core: SharedPipe.State, next: SharedPipe.State, i: nat, s: Session)
    requires SharedPipe.Inv(t0, core) && i < |core.servers| == |next.servers| && s.front.Ready?
    requires SessionInv(t0.stock, Verdicts(t0, core.calls, i), core, i, s)
    requires next.holder == Some(i) && next.servers[i] == SharedPipe.Writing(s.front.req, 0)
    requires next.calls == core.calls + [SharedPipe.Call(i, s.front.req)] && SharedPipe.AllAcceptable(t0, next.calls)
    ensures SessionInv(t0.stock, Verdicts(t0, next.calls, i), next, i, s.(front := Busy(0)))
  {
    hide Settled, RequestBytes, ReplyBytes, Wrapped, SharedPipe.ReplyTo, SharedPipe.Inv;
    ValidParts(t0, core);
    assert next.calls[..|core.calls|] == core.calls;
    LastVerdict(t0, next.calls);
    var v := Verdicts(t0, next.calls, i);
    var w := Wrapped(ReplyBytes(v[|v| - 1].reply));
    assert s.client.got + s.down == [] == w[..0];
    assert Pending(v, s.(front := Busy(0)), 0);
  }

  // ----------------------------------------------------------- every step keeps it all

  lemma CoreFrame(capacity: nat, core: SharedPipe.State, b: SharedPipe.Action)
    requires SharedPipe.Enabled(capacity, core, b)
    ensures var t := SharedPipe.Apply(capacity, core, b);
            && |t.servers| == |core.servers|
            && (!b.Lock? ==> t.calls == core.calls)
            && (!b.Lock? && !b.Leave? ==> t.holder == core.holder)
            && (b.DbRead? || b.DbWrite? ==> t.servers == core.servers)
            && (!b.DbRead? && !b.DbWrite? ==>
                  b.i < |core.servers|
                  && forall j :: 0 <= j < |core.servers| && j != b.i ==> t.servers[j] == core.servers[j])
            && (b.Leave? ==> core.servers[b.i].Done? && t.servers[b.i].Idle?)
            && (b.Lock? ==>
                  && core.holder == None && t.holder == Some(b.i) && t.servers[b.i] == SharedPipe.Writing(b.req, 0)
                  && t.calls == core.calls + [SharedPipe.Call(b.i, b.req)])
            && (b.ServerWrite? ==> core.servers[b.i].Writing? && !t.servers[b.i].Idle?
                                   && t.servers[b.i].req == core.servers[b.i].req)
            && (b.ServerRead? ==> core.servers[b.i].Reading? && (t.servers[b.i].Reading? || t.servers[b.i].Done?)
                                  && t.servers[b.i].req == core.servers[b.i].req
                                  && |core.servers[b.i].got| <= |t.servers[b.i].got|)
  {
    hide RequestBytes, Answer, MessageNext;
  }

  lemma OtherKept(stock: Stock, v: seq<Answered>, core: SharedPipe.State, next: SharedPipe.State, j: nat, s: Session)
    requires j < |core.servers| == |next.servers| && SessionInv(stock, v, core, j, s)
    requires next.servers[j] == core.servers[j] && (s.front.Busy? ==> next.holder == core.holder)
    ensures SessionInv(stock, v, next, j, s)
  {
    hide Settled, Pending, ReplyBytes, Wrapped;
  }

  lemma InnerKeepsSession(capacity: nat, stock: Stock, v: seq<Answered>, core: SharedPipe.State,
                          b: SharedPipe.Action, j: nat, s: Session)
    requires SharedPipe.Enabled(capacity, core, b) && !b.Lock? && !b.Leave?
    requires j < |core.servers| && SessionInv(stock, v, core, j, s)
    ensures |SharedPipe.Apply(capacity, core, b).servers| == |core.servers|
    ensures SessionInv(stock, v, SharedPipe.Apply(capacity, core, b), j, s)
  {
    hide Settled, Pending, Answering, ReplyBytes, RequestBytes, Wrapped, SharedPipe.Enabled, SharedPipe.Apply;
    CoreFrame(capacity, core, b);
    var t := SharedPipe.Apply(capacity, core, b);
    if !b.DbRead? && !b.DbWrite? && j == b.i {
      assert s.front.Busy?;
      assert Available(core.servers[j]) <= Available(t.servers[j]);
    } else {
      OtherKept(stock, v, core, t, j, s);
    }
  }

  lemma VerdictsOfOthers(t0: Tables, calls: seq<SharedPipe.Call>, c: SharedPipe.Call, j: nat)
    requires ValidTables(t0) && SharedPipe.AllAcceptable(t0, calls + [c]) && j != c.server
    ensures SharedPipe.AllAcceptable(t0, calls) && Verdicts(t0, calls + [c], j) == Verdicts(t0, calls, j)
  {
    hide SharedPipe.ReplyTo, ValidTables;
    assert (calls + [c])[..|calls|] == calls;
    assert forall k :: 0 <= k < |calls| ==> (calls + [c])[k] == calls[k];
  }

  /** The stock's products stay the ones it had. */
  lemma KeysStay(t0: Tables, core: SharedPipe.State)
    requires SharedPipe.Inv(t0, core)
    ensures core.tables.stock.Keys == t0.stock.Keys
  {
    hide RequestBytes, ReplyBytes, Serve, SharedPipe.ReplyTo, SharedPipe.RepliesAreDue;
  }

  lemma CoreKept(capacity: nat, t0: Tables, s: State, a: Action)
    requires Inv(t0, s) && Enabled(capacity, s, a)
    ensures SharedPipe.Inv(t0, Apply(capacity, s, a).core)
  {
    hide SharedPipe.Inv, SharedPipe.Enabled, SharedPipe.Apply, SessionInv, Verdicts, Stepped;
    var b := CoreStep(capacity, s, a);
    if b.Some? {
      SharedPipe.StepKeepsInv(capacity, t0, s.core, b.value);
    }
  }

  lemma SessionOf(t0: Tables, s: State, i: nat)
    requires Inv(t0, s) && i < |s.sessions|
    ensures ValidTables(t0) && SharedPipe.AllAcceptable(t0, s.core.calls) && i < |s.core.servers|
    ensures SessionInv(t0.stock, Verdicts(t0, s.core.calls, i), s.core, i, s.sessions[i])
  {
    hide SharedPipe.Inv, SessionInv, Verdicts;
    ValidParts(t0, s.core);
  }

  /** The session of the client or server that takes a step. */
  lemma ActorKept(capacity: nat, t0: Tables, s: State, a: Action)
    requires Inv(t0, s) && Enabled(capacity, s, a) && !a.Inner? && a.i < |s.sessions|
    ensures var t := Apply(capacity, s, a);
            && SharedPipe.Inv(t0, t.core) && ValidTables(t0) && SharedPipe.AllAcceptable(t0, t.core.calls)
            && SessionInv(t0.stock, Verdicts(t0, t.core.calls, a.i), t.core, a.i, Stepped(capacity, s, a))
  {
    hide Inv, SharedPipe.Inv, SharedPipe.Enabled, SharedPipe.Apply, SessionInv, Verdicts, Wrapped, WrappedNext,
         RequestBytes, ReplyBytes, AfterTaking, AfterReading, ValidTables, SharedPipe.AllAcceptable;
    CoreOf(t0, s);
    CoreKept(capacity, t0, s, a);
    SessionOf(t0, s, a.i);
    ValidParts(t0, Apply(capacity, s, a).core);
    var v, x := Verdicts(t0, s.core.calls, a.i), s.sessions[a.i];
    match a
    case Ask(i, req) =>
      KeysStay(t0, s.core);
      SharedPipe.AcceptableByKeys(req, s.core.tables.stock, t0.stock);
      AskKeepsSession(t0.stock, v, s.core, i, x, req);
    case ClientWrite(i, k) => ClientWriteKeepsSession(t0.stock, v, s.core, i, x, k);
    case Take(i, k) => TakeKeepsSession(t0.stock, v, s.core, i, x, k);
    case Enter(i) =>
      CoreFrame(capacity, s.core, SharedPipe.Lock(i, x.front.req));
      EnterKeepsSession(t0, s.core, Apply(capacity, s, a).core, i, x);
    case Forward(i, k) => ForwardKeepsSession(t0, s.core, i, x, k);
    case Leave(i) =>
      CoreFrame(capacity, s.core, SharedPipe.Leave(i));
      LeaveKeepsSession(t0, s.core, Apply(capacity, s, a).core, i, x);
    case Pass(i, k) => PassKeepsSession(t0.stock, v, s.core, i, x, k);
    case ClientRead(i, k) => ClientReadKeepsSession(t0.stock, v, s.core, i, x, k);
  }

  lemma CoreOf(t0: Tables, s: State)
    requires Inv(t0, s)
    ensures SharedPipe.Inv(t0, s.core) && |s.sessions| == |s.core.servers|
  {
  }

  /** The sessions of all others. */
  lemma BystanderKept(capacity: nat, t0: Tables, s: State, a: Action, j: nat)
    requires Inv(t0, s) && Enabled(capacity, s, a) && j < |s.sessions| && (a.Inner? || j != a.i)
    ensures var t := Apply(capacity, s, a);
            && SharedPipe.Inv(t0, t.core) && ValidTables(t0) && SharedPipe.AllAcceptable(t0, t.core.calls)
            && SessionInv(t0.stock, Verdicts(t0, t.core.calls, j), t.core, j, s.sessions[j])
  {
    hide Inv, SharedPipe.Inv, SharedPipe.Enabled, SharedPipe.Apply, SessionInv, Verdicts, Stepped, ValidTables,
         SharedPipe.AllAcceptable;
    CoreOf(t0, s);
    CoreKept(capacity, t0, s, a);
    SessionOf(t0, s, j);
    ValidParts(t0, Apply(capacity, s, a).core);
    var v, x, next := Verdicts(t0, s.core.calls, j), s.sessions[j], Apply(capacity, s, a).core;
    match a
    case Inner(b) =>
      CoreFrame(capacity, s.core, b);
      InnerKeepsSession(capacity, t0.stock, v, s.core, b, j, x);
    case Enter(i) =>
      CoreFrame(capacity, s.core, SharedPipe.Lock(i, s.sessions[i].front.req));
      VerdictsOfOthers(t0, s.core.calls, SharedPipe.Call(i, s.sessions[i].front.req), j);
      if x.front.Busy? {
        BusyHolds(t0.stock, v, s.core, j, x);
      }
      OtherKept(t0.stock, v, s.core, next, j, x);
    case Leave(i) =>
      CoreFrame(capacity, s.core, SharedPipe.Leave(i));
      SessionOf(t0, s, i);
      if x.front.Busy? {
        BusyHolds(t0.stock, v, s.core, j, x);
      }
      BusyHolds(t0.stock, Verdicts(t0, s.core.calls, i), s.core, i, s.sessions[i]);
      OtherKept(t0.stock, v, s.core, next, j, x);
    case _ =>
      assert next == s.core;
  }

  lemma BusyHolds(stock: Stock, v: seq<Answered>, core: SharedPipe.State, j: nat, s: Session)
    requires j < |core.servers| && SessionInv(stock, v, core, j, s) && s.front.Busy?
    ensures core.holder == Some(j)
  {
  }

  lemma StepKeepsInv(capacity: nat, t0: Tables, s: State, a: Action)
    requires |s.sessions| == |s.core.servers| && Inv(t0, s) && Enabled(capacity, s, a)
    ensures Inv(t0, Apply(capacity, s, a))
  {
    hide SharedPipe.Inv, SharedPipe.Enabled, SharedPipe.Apply, SessionInv, Verdicts, Stepped, Wrapped, WrappedNext;
    var t := Apply(capacity, s, a);
    CoreKept(capacity, t0, s, a);
    ValidParts(t0, t.core);
    forall j | 0 <= j < |t.sessions|
      ensures SessionInv(t0.stock, Verdicts(t0, t.core.calls, j), t.core, j, t.sessions[j])
    {
      if !a.Inner? && j == a.i {
        ActorKept(capacity, t0, s, a);
      } else {
        BystanderKept(capacity, t0, s, a, j);
      }
    }
  }

  lemma {:induction false} RunKeepsInv(capacity: nat, t0: Tables, s: State, actions: seq<Action>, t: State)
    requires |s.sessions| == |s.core.servers| && Inv(t0, s) && Run(capacity, s, actions, t)
    ensures Inv(t0, t)
    decreases |actions|
  {
    hide Inv, Enabled, Apply;
    if actions != [] {
      StepKeepsInv(capacity, t0, s, actions[0]);
      RunKeepsInv(capacity, t0, Apply(capacity, s, actions[0]), actions[1..], t);
    }
  }

  lemma ReachableInv(capacity: nat, n: nat, t0: Tables, actions: seq<Action>, s: State)
    requires ValidTables(t0) && Run(capacity, Start(n, t0), actions, s)
    ensures Inv(t0, s)
  {
    RunKeepsInv(capacity, t0, Start(n, t0), actions, s);
  }

  // ------------------------------------------------------------------ what clients get

  /** Under every interleaving each client has, for its requests in order, the replies the
      sequential service gives them: all of them when it rests, all but the last while it waits. */
  lemma EveryClientGetsItsVerdicts(capacity: nat, n: nat, t0: Tables, actions: seq<Action>, s: State)
    requires ValidTables(t0) && Run(capacity, Start(n, t0), actions, s)
    ensures SharedPipe.AllAcceptable(t0, s.core.calls) && |s.sessions| == n
    ensures forall i :: 0 <= i < n ==>
              var v, x := Verdicts(t0, s.core.calls, i), s.sessions[i];
              && x.results <= v && |v| <= |x.results| + 1
              && (!x.client.Waiting? ==> x.results == v)
  {
    hide Run, Inv, SharedPipe.Inv, SessionInv, Verdicts, ValidTables;
    ReachableInv(capacity, n, t0, actions, s);
    CoreOf(t0, s);
    ValidParts(t0, s.core);
    SessionsStay(capacity, Start(n, t0), actions, s);
    forall i | 0 <= i < n
      ensures var v, x := Verdicts(t0, s.core.calls, i), s.sessions[i];
              x.results <= v && |v| <= |x.results| + 1 && (!x.client.Waiting? ==> x.results == v)
    {
      SessionOf(t0, s, i);
      ResultsAreVerdicts(t0.stock, Verdicts(t0, s.core.calls, i), s.core, i, s.sessions[i]);
    }
  }

  lemma ResultsAreVerdicts(stock: Stock, v: seq<Answered>, core: SharedPipe.State, i: nat, s: Session)
    requires i < |core.servers| && SessionInv(stock, v, core, i, s)
    ensures s.results <= v && |v| <= |s.results| + 1 && (!s.client.Waiting? ==> s.results == v)
  {
    hide RequestBytes, ReplyBytes, Wrapped;
  }

  lemma {:induction false} SessionsStay(capacity: nat, s: State, actions: seq<Action>, t: State)
    requires |s.sessions| == |s.core.servers| && Run(capacity, s, actions, t)
    ensures |t.sessions| == |s.sessions|
    decreases |actions|
  {
    hide Enabled, Stepped, CoreStep;
    if actions != [] {
      SessionsStay(capacity, Apply(capacity, s, actions[0]), actions[1..], t);
    }
  }

  /** The verdict on an order: what placing exactly that order does after all the calls that took
      the mutex before it. */
  lemma {:induction false} VerdictIsPlacing(t0: Tables, calls: seq<SharedPipe.Call>, i: nat, k: nat) returns (m: nat)
    requires ValidTables(t0) && SharedPipe.AllAcceptable(t0, calls) && k < |Verdicts(t0, calls, i)|
    ensures m < |calls| && calls[m] == SharedPipe.Call(i, Verdicts(t0, calls, i)[k].req)
    ensures Verdicts(t0, calls, i)[k].reply == SharedPipe.ReplyTo(t0, calls, m)
    ensures SharedPipe.AllAcceptable(t0, calls[..m])
    ensures var before := SharedPipe.TablesAfter(t0, calls[..m]);
            match Verdicts(t0, calls, i)[k].req
            case GetProducts => true
            case PlaceOrder(order) =>
              && Placeable(order, before.stock)
              && Verdicts(t0, calls, i)[k].reply
                 == match Placed(before, order).1
                    case Accepted => Ok
                    case Failed => Error
                    case Reduced(o) => Unsatisfiable(o)
    decreases |calls|
  {
    hide ValidTables, Placed;
    var n := |calls| - 1;
    if k < |Verdicts(t0, calls[..n], i)| {
      m := VerdictIsPlacing(t0, calls[..n], i, k);
      assert calls[..n][..m] == calls[..m];
      SharedPipe.OneMoreCall(t0, calls, m);
      SharedPipe.OneMoreCall(t0, calls[..n], m);
    } else {
      m := n;
      SharedPipe.OneMoreCall(t0, calls, n);
    }
  }

  // --------------------------------------------------------------------------- progress

  lemma ClientCanRead(v: seq<Answered>, s: Session, sent: nat)
    requires Pending(v, s, sent) && s.down != []
    ensures s.client.Waiting? && |s.client.got| + 1 <= WrappedNext(ReplyKind(s.client.req), s.client.got)
  {
    hide ReplyBytes, Wrapped, WrappedNext;
    var reply := v[|v| - 1].reply;
    var w := Wrapped(ReplyBytes(reply));
    PrefixMoves(s.client.got, s.down, w, sent, 0);
    ReplyDelimits(ReplyKind(s.client.req), reply, |s.client.got|);
  }

  lemma LastOneWaits(v: seq<Answered>, s: Session, sent: nat)
    requires Pending(v, s, sent) && sent == 8 + |ReplyBytes(v[|v| - 1].reply)|
    ensures s.down != []
  {
    hide ReplyBytes, Wrapped;
    PrefixMoves(s.client.got, s.down, Wrapped(ReplyBytes(v[|v| - 1].reply)), sent, 0);
  }

  /** A server that listens can take what there is; a client with nothing under way can write on or
      read what is left for it. */
  lemma ListeningCanGoOn(capacity: nat, t0: Tables, s: State, i: nat)
    requires capacity > 0 && Inv(t0, s) && i < |s.sessions|
    requires s.sessions[i].front.Listening? && !s.sessions[i].client.Resting?
    ensures Enabled(capacity, s, Take(i, 1)) || Enabled(capacity, s, ClientWrite(i, 1))
         || Enabled(capacity, s, ClientRead(i, 1))
  {
    hide Verdicts, ReplyBytes, RequestBytes, Wrapped, WrappedNext, SharedPipe.Inv, Pending;
    SessionOf(t0, s, i);
    var v, x := Verdicts(t0, s.core.calls, i), s.sessions[i];
    var g := x.front.got;
    if Settled(t0.stock, v, x, g) {
      SettledCanGoOn(t0.stock, v, x, g);
    } else {
      LastOneWaits(v, x, 8 + |ReplyBytes(v[|v| - 1].reply)|);
      ClientCanRead(v, x, 8 + |ReplyBytes(v[|v| - 1].reply)|);
    }
  }

  lemma SettledCanGoOn(stock: Stock, v: seq<Answered>, s: Session, g: seq<byte>)
    requires Settled(stock, v, s, g) && !s.client.Resting?
    ensures s.up != [] ==> |g| + 1 <= WrappedNext(RequestKind, g)
    ensures s.up == [] ==>
              && s.client.Sending? && SendableRequest(s.client.req)
              && var c := Wrapped(RequestBytes(s.client.req));
              && s.client.sent < |c| && s.client.sent + 1 <= WrappedNext(RequestKind, c[..s.client.sent])
  {
    hide RequestBytes, Wrapped, WrappedNext;
    var req := s.client.req;
    var c := Wrapped(RequestBytes(req));
    WholePrefix(c);
    PrefixMoves(g, s.up, c, if s.client.Sending? then s.client.sent else |c|, 0);
    RequestDelimits(req, |g|);
    if s.client.Sending? {
      RequestDelimits(req, s.client.sent);
    }
  }

  /** While a server has some of an order's answer to relay, it can, or its client can read. */
  lemma ForwardingCanGoOn(capacity: nat, t0: Tables, s: State, i: nat)
    requires capacity > 0 && Inv(t0, s) && i < |s.sessions| && s.sessions[i].front.Busy?
    requires s.core.servers[i].Reading? || s.core.servers[i].Done?
    requires s.core.servers[i].req.PlaceOrder? && s.sessions[i].front.relayed < Available(s.core.servers[i])
    ensures Enabled(capacity, s, Forward(i, 1)) || Enabled(capacity, s, ClientRead(i, 1))
  {
    hide Verdicts, ReplyBytes, RequestBytes, Wrapped, WrappedNext, SharedPipe.Inv, Pending, Settled;
    CoreOf(t0, s);
    SessionOf(t0, s, i);
    HolderHas(t0, s.core, i);
    var v, x, server := Verdicts(t0, s.core.calls, i), s.sessions[i], s.core.servers[i];
    var reply, sent := v[|v| - 1].reply, x.front.relayed;
    if x.down == [] {
      WrappedPrefix(server.got, ReplyBytes(reply), 0, sent);
      ReplyDelimits(OrderReplyKind, reply, sent);
    } else {
      NothingToReadWhenSettled(t0.stock, v, x);
      ClientCanRead(v, x, sent);
    }
  }

  lemma PassingCanGoOn(capacity: nat, t0: Tables, s: State, i: nat)
    requires capacity > 0 && Inv(t0, s) && i < |s.sessions| && s.sessions[i].front.Passing?
    ensures Enabled(capacity, s, Pass(i, 1)) || Enabled(capacity, s, ClientRead(i, 1))
  {
    hide Verdicts, ReplyBytes, RequestBytes, Wrapped, WrappedNext, SharedPipe.Inv, Pending;
    SessionOf(t0, s, i);
    var v, x := Verdicts(t0, s.core.calls, i), s.sessions[i];
    PendingParts(v, x);
    if x.down == [] {
      PendingKind(v, x, x.front.sent);
      ReplyDelimits(ProductsReplyKind, v[|v| - 1].reply, x.front.sent);
    } else {
      ClientCanRead(v, x, x.front.sent);
    }
  }

  lemma PendingKind(v: seq<Answered>, s: Session, sent: nat)
    requires Pending(v, s, sent)
    ensures AnswersKind(ReplyKind(v[|v| - 1].req), v[|v| - 1].reply)
  {
  }

  lemma HolderCanGoOn(capacity: nat, t0: Tables, s: State)
    requires capacity > 0 && Inv(t0, s) && s.core.holder.Some?
    requires s.core.holder.value < |s.sessions| && !s.core.servers[s.core.holder.value].Idle?
    ensures exists a :: Enabled(capacity, s, a) && !a.Ask?
  {
    hide Verdicts, ReplyBytes, RequestBytes, Wrapped, WrappedNext, SharedPipe.Inv, SharedPipe.Enabled, Inv, Answering;
    CoreOf(t0, s);
    var h := s.core.holder.value;
    SessionOf(t0, s, h);
    var server, front := s.core.servers[h], s.sessions[h].front;
    assert front.Busy?;
    match server
    case Writing(_, _) =>
      SharedPipe.WritingNeverStuck(capacity, t0, s.core);
      assert Enabled(capacity, s, Inner(SharedPipe.ServerWrite(h, 1)))
          || Enabled(capacity, s, Inner(SharedPipe.DbRead(1)));
    case Reading(_, _) =>
      SharedPipe.ReadingNeverStuck(capacity, t0, s.core);
      if s.core.fromDb == [] {
        assert Enabled(capacity, s, Inner(SharedPipe.DbWrite(1))) || Enabled(capacity, s, Inner(SharedPipe.DbRead(1)));
      } else if MayReadOn(server, front) {
        assert Enabled(capacity, s, Inner(SharedPipe.ServerRead(h, 1)));
      } else {
        ForwardingCanGoOn(capacity, t0, s, h);
      }
    case Done(_, _) =>
      if server.req.PlaceOrder? && front.relayed < Available(server) {
        ForwardingCanGoOn(capacity, t0, s, h);
      } else {
        SharedPipe.DoneCanLeave(capacity, t0, s.core);
        assert Enabled(capacity, s, Leave(h));
      }
  }

  lemma SomeoneCanStep(capacity: nat, t0: Tables, s: State, i: nat)
    requires capacity > 0 && Inv(t0, s) && t0.catalogue != []
    requires i < |s.sessions| && !s.sessions[i].client.Resting?
    ensures exists a :: Enabled(capacity, s, a) && !a.Ask?
  {
    hide Verdicts, ReplyBytes, RequestBytes, Wrapped, WrappedNext, Inv, SharedPipe.Inv, Settled, Pending;
    CoreOf(t0, s);
    SessionOf(t0, s, i);
    if s.core.holder.Some? {
      SharedPipe.NeverKeptWithCatalogue(t0, s.core);
      HolderInRange(t0, s.core);
      HolderCanGoOn(capacity, t0, s);
    } else {
      match s.sessions[i].front
      case Listening(_) => ListeningCanGoOn(capacity, t0, s, i);
      case Passing(_, _) => PassingCanGoOn(capacity, t0, s, i);
      case Ready(req) =>
        KeysStay(t0, s.core);
        SharedPipe.AcceptableByKeys(req, s.core.tables.stock, t0.stock);
        assert Enabled(capacity, s, Enter(i));
      case Busy(_) =>
    }
  }

  lemma HolderInRange(t0: Tables, core: SharedPipe.State)
    requires SharedPipe.Inv(t0, core) && core.holder.Some?
    ensures core.holder.value < |core.servers|
  {
  }

  /** Where there is something to sell the shop never gets stuck, however small its queues: as long
      as some client is not at rest, somebody can go on with what is under way. */
  lemma ShopNeverStuck(capacity: nat, n: nat, t0: Tables, actions: seq<Action>, s: State, i: nat)
    requires capacity > 0 && ValidTables(t0) && t0.catalogue != [] && Run(capacity, Start(n, t0), actions, s)
    requires i < |s.sessions| == |s.core.servers| && !s.sessions[i].client.Resting?
    ensures exists a :: Enabled(capacity, s, a) && !a.Ask?
  {
    hide Run, Inv, Enabled;
    ReachableInv(capacity, n, t0, actions, s);
    SomeoneCanStep(capacity, t0, s, i);
  }

  // --------------------------------------------------------------------- how long it takes

  function RowsSize(rows: seq<CatalogueRow>): nat {
    if rows == [] then 0 else 8 + (22 + |rows[0].name| + |rows[0].description|) + RowsSize(rows[1..])
  }

  /** A bound on the reply to a request, whatever the stock is by then. */
  function MaxReply(t0: Tables, req: Request): nat {
    match req
    case GetProducts => 4 + RowsSize(t0.catalogue)
    case PlaceOrder(order) => 12 + OrderSize(order)
  }

  lemma {:induction false} ImagesSize(ps: seq<ProductData>, rows: seq<CatalogueRow>)
    requires |ps| == |rows| && forall k :: 0 <= k < |ps| ==> Shippable(ps[k])
    requires forall k :: 0 <= k < |ps| ==> ps[k].name == rows[k].name && ps[k].description == rows[k].description
    ensures |Frames(ProductImages(ps))| == RowsSize(rows)
  {
    hide ProductBytes, Frame;
    if ps != [] {
      ImagesSize(ps[1..], rows[1..]);
      assert ProductImages(ps)[1..] == ProductImages(ps[1..]);
    }
  }

  lemma OneFrameSize(m: seq<byte>)
    requires |m| <= INT_MAX
    ensures |Frames([m])| == 8 + |m|
  {
    hide Frame;
    SingleFrame(m);
  }

  lemma ReplyIsBounded(t: Tables, req: Request)
    requires ValidTables(t) && Acceptable(req, t.stock)
    ensures |ReplyBytes(Serve(t, req).1)| <= MaxReply(t, req)
  {
    hide ProductBytes, OrderBytes, Frames, ProductImages, Frame;
    NoFramesSize();
    match req
    case GetProducts =>
      if t.catalogue != [] {
        ImagesSize(ProductsOf(t), t.catalogue);
      }
    case PlaceOrder(order) =>
      match Placed(t, order).1
      case Reduced(o) => OneFrameSize(OrderBytes(o));
      case _ =>
  }

  lemma NoFramesSize()
    ensures |Frames([])| == 0
  {
  }

  /** From when a server has a request until its client has the answer, at most. */
  function RequestWork(t0: Tables, req: Request): nat
    requires SendableRequest(req)
  {
    2 + (2 * |RequestBytes(req)| + 2 * MaxReply(t0, req)) + 2 * (8 + MaxReply(t0, req))
  }

  /** Bytes a session has still to move outside the shared pipes, each counted for its writer and
      for its reader, and the work of its request until that has the mutex. */
  ghost function SessionWork(t0: Tables, v: seq<Answered>, s: Session): int
    requires forall k :: 0 <= k < |v| ==> SendableReply(v[k].reply)
  {
    if |s.results| < |v| then
      var w := 8 + |ReplyBytes(v[|v| - 1].reply)|;
      2 * (w - match s.front case Busy(x) => x case Passing(_, x) => x case _ => w) + |s.down|
    else
      match s.client
      case Resting => 0
      case Sending(req, sent) =>
        if SendableRequest(req) then 2 * (8 + |RequestBytes(req)| - sent) + |s.up| + RequestWork(t0, req) else 0
      case Waiting(req, _) => if SendableRequest(req) then |s.up| + RequestWork(t0, req) else 0
  }

  ghost function SessionsWork(t0: Tables, calls: seq<SharedPipe.Call>, sessions: seq<Session>): int
    requires ValidTables(t0) && SharedPipe.AllAcceptable(t0, calls)
    decreases |sessions|
  {
    if sessions == [] then 0 else
    var n := |sessions| - 1;
    SessionsWork(t0, calls, sessions[..n]) + SessionWork(t0, Verdicts(t0, calls, n), sessions[n])
  }

  ghost function WorkLeft(t0: Tables, s: State): int
    requires ValidTables(t0) && SharedPipe.AllAcceptable(t0, s.core.calls)
  {
    SharedPipe.WorkLeft(t0, s.core) + SessionsWork(t0, s.core.calls, s.sessions)
  }

  /** Only one session's work changes. */
  lemma {:induction false} SessionsWorkOfUpdate(
      t0: Tables, calls: seq<SharedPipe.Call>, next: seq<SharedPipe.Call>, sessions: seq<Session>, i: nat, x: Session)
    requires ValidTables(t0) && SharedPipe.AllAcceptable(t0, calls) && SharedPipe.AllAcceptable(t0, next)
    requires i < |sessions|
    requires forall j: nat :: j != i ==> Verdicts(t0, next, j) == Verdicts(t0, calls, j)
    ensures SessionsWork(t0, next, sessions[i := x]) - SessionsWork(t0, calls, sessions)
         == SessionWork(t0, Verdicts(t0, next, i), x) - SessionWork(t0, Verdicts(t0, calls, i), sessions[i])
    decreases |sessions|
  {
    hide SessionWork, Verdicts, ValidTables;
    var n := |sessions| - 1;
    if i < n {
      SessionsWorkOfUpdate(t0, calls, next, sessions[..n], i, x);
      assert sessions[i := x][..n] == sessions[..n][i := x];
    } else {
      assert sessions[i := x][..n] == sessions[..n];
      SameSessionsWork(t0, calls, next, sessions[..n], i);
    }
  }

  lemma {:induction false} SameSessionsWork(
      t0: Tables, calls: seq<SharedPipe.Call>, next: seq<SharedPipe.Call>, sessions: seq<Session>, i: nat)
    requires ValidTables(t0) && SharedPipe.AllAcceptable(t0, calls) && SharedPipe.AllAcceptable(t0, next)
    requires |sessions| <= i
    requires forall j: nat :: j != i ==> Verdicts(t0, next, j) == Verdicts(t0, calls, j)
    ensures SessionsWork(t0, next, sessions) == SessionsWork(t0, calls, sessions)
    decreases |sessions|
  {
    hide SessionWork, Verdicts, ValidTables;
    if sessions != [] {
      SameSessionsWork(t0, calls, next, sessions[..|sessions| - 1], i);
    }
  }

  lemma SessionWorkIsNotNegative(t0: Tables, v: seq<Answered>, core: SharedPipe.State, i: nat, s: Session)
    requires i < |core.servers| && SessionInv(t0.stock, v, core, i, s)
    requires forall k :: 0 <= k < |v| ==> SendableReply(v[k].reply)
    ensures SessionWork(t0, v, s) >= 0
  {
    hide Wrapped, RequestBytes, ReplyBytes, Available, RequestWork;
  }

  lemma {:induction false} SessionsWorkIsNotNegative(t0: Tables, s: State, n: nat)
    requires Inv(t0, s) && n <= |s.sessions|
    ensures SharedPipe.AllAcceptable(t0, s.core.calls) && SessionsWork(t0, s.core.calls, s.sessions[..n]) >= 0
    decreases n
  {
    hide SessionWork, Verdicts, SessionInv, Inv, ValidTables, SharedPipe.Inv;
    CoreOf(t0, s);
    ValidParts(t0, s.core);
    if n > 0 {
      SessionsWorkIsNotNegative(t0, s, n - 1);
      SessionOf(t0, s, n - 1);
      SessionWorkIsNotNegative(t0, Verdicts(t0, s.core.calls, n - 1), s.core, n - 1, s.sessions[n - 1]);
      assert s.sessions[..n][..n - 1] == s.sessions[..n - 1];
    }
  }

  lemma ClientStepUsesUpWork(capacity: nat, t0: Tables, s: State, a: Action)
    requires Inv(t0, s) && Enabled(capacity, s, a) && (a.ClientWrite? || a.ClientRead?) && a.i < |s.sessions|
    ensures ValidTables(t0) && SharedPipe.AllAcceptable(t0, s.core.calls)
    ensures var v := Verdicts(t0, s.core.calls, a.i);
            SessionWork(t0, v, Stepped(capacity, s, a)) < SessionWork(t0, v, s.sessions[a.i])
  {
    hide Wrapped, WrappedNext, RequestBytes, ReplyBytes, RequestWork, Verdicts, SharedPipe.Inv, SharedPipe.Enabled,
         Inv, ParseRequest, ParseReply, ValidTables, SharedPipe.AllAcceptable;
    CoreOf(t0, s);
    SessionOf(t0, s, a.i);
  }

  lemma TakeUsesUpWork(capacity: nat, t0: Tables, s: State, a: Action)
    requires Inv(t0, s) && Enabled(capacity, s, a) && a.Take? && a.i < |s.sessions|
    ensures ValidTables(t0) && SharedPipe.AllAcceptable(t0, s.core.calls)
    ensures var v := Verdicts(t0, s.core.calls, a.i);
            SessionWork(t0, v, Stepped(capacity, s, a)) < SessionWork(t0, v, s.sessions[a.i])
  {
    hide Wrapped, WrappedNext, RequestBytes, ReplyBytes, RequestWork, Verdicts, SharedPipe.Inv, SharedPipe.Enabled,
         Inv, ParseRequest, ParseReply, ValidTables, SharedPipe.AllAcceptable;
    CoreOf(t0, s);
    SessionOf(t0, s, a.i);
  }

  lemma ForwardUsesUpWork(capacity: nat, t0: Tables, s: State, a: Action)
    requires Inv(t0, s) && Enabled(capacity, s, a) && a.Forward? && a.i < |s.sessions|
    ensures ValidTables(t0) && SharedPipe.AllAcceptable(t0, s.core.calls)
    ensures var v := Verdicts(t0, s.core.calls, a.i);
            SessionWork(t0, v, Stepped(capacity, s, a)) < SessionWork(t0, v, s.sessions[a.i])
  {
    hide Wrapped, WrappedNext, RequestBytes, ReplyBytes, RequestWork, Verdicts, SharedPipe.Inv, SharedPipe.Enabled,
         Inv, ParseRequest, ParseReply, ValidTables, SharedPipe.AllAcceptable;
    CoreOf(t0, s);
    SessionOf(t0, s, a.i);
    BusyHolds(t0.stock, Verdicts(t0, s.core.calls, a.i), s.core, a.i, s.sessions[a.i]);
    HolderHas(t0, s.core, a.i);
  }

  lemma LeaveCostsNothing(capacity: nat, t0: Tables, s: State, a: Action)
    requires Inv(t0, s) && Enabled(capacity, s, a) && a.Leave? && a.i < |s.sessions|
    ensures ValidTables(t0) && SharedPipe.AllAcceptable(t0, s.core.calls)
    ensures var v := Verdicts(t0, s.core.calls, a.i);
            SessionWork(t0, v, Stepped(capacity, s, a)) <= SessionWork(t0, v, s.sessions[a.i])
  {
    hide Wrapped, WrappedNext, RequestBytes, ReplyBytes, RequestWork, Verdicts, SharedPipe.Inv, SharedPipe.Enabled,
         Inv, ParseRequest, ParseReply, ValidTables, SharedPipe.AllAcceptable;
    CoreOf(t0, s);
    SessionOf(t0, s, a.i);
  }

  lemma PassUsesUpWork(capacity: nat, t0: Tables, s: State, a: Action)
    requires Inv(t0, s) && Enabled(capacity, s, a) && a.Pass? && a.i < |s.sessions|
    ensures ValidTables(t0) && SharedPipe.AllAcceptable(t0, s.core.calls)
    ensures var v := Verdicts(t0, s.core.calls, a.i);
            SessionWork(t0, v, Stepped(capacity, s, a)) < SessionWork(t0, v, s.sessions[a.i])
  {
    hide Wrapped, WrappedNext, RequestBytes, ReplyBytes, RequestWork, Verdicts, SharedPipe.Inv, SharedPipe.Enabled,
         Inv, ParseRequest, ParseReply, ValidTables, SharedPipe.AllAcceptable;
    CoreOf(t0, s);
    SessionOf(t0, s, a.i);
  }

  /** A step on a session's link uses up work of the session; leaving the exchange costs nothing there. */
  lemma LinkStepUsesUpWork(capacity: nat, t0: Tables, s: State, a: Action)
    requires Inv(t0, s) && Enabled(capacity, s, a) && !a.Inner? && !a.Ask? && !a.Enter? && a.i < |s.sessions|
    ensures ValidTables(t0) && SharedPipe.AllAcceptable(t0, s.core.calls)
    ensures var v := Verdicts(t0, s.core.calls, a.i);
            && SessionWork(t0, v, Stepped(capacity, s, a)) <= SessionWork(t0, v, s.sessions[a.i])
            && (!a.Leave? ==> SessionWork(t0, v, Stepped(capacity, s, a)) < SessionWork(t0, v, s.sessions[a.i]))
  {
    hide Enabled, Inv, SessionWork, Stepped, Verdicts;
    if a.ClientWrite? || a.ClientRead? {
      ClientStepUsesUpWork(capacity, t0, s, a);
    } else if a.Take? {
      TakeUsesUpWork(capacity, t0, s, a);
    } else if a.Forward? {
      ForwardUsesUpWork(capacity, t0, s, a);
    } else if a.Leave? {
      LeaveCostsNothing(capacity, t0, s, a);
    } else {
      PassUsesUpWork(capacity, t0, s, a);
    }
  }

  /** Having entered the exchange a session has left, with the shared pipes, less than its request
      was reckoned at. */
  lemma EnterUsesUpWork(capacity: nat, t0: Tables, s: State, i: nat)
    requires Inv(t0, s) && Enabled(capacity, s, Enter(i)) && i < |s.sessions|
    ensures var t := Apply(capacity, s, Enter(i));
            && ValidTables(t0)
            && SharedPipe.AllAcceptable(t0, s.core.calls) && SharedPipe.AllAcceptable(t0, t.core.calls)
            && SharedPipe.WorkLeft(t0, t.core) + SessionWork(t0, Verdicts(t0, t.core.calls, i), t.sessions[i])
               < SharedPipe.WorkLeft(t0, s.core) + SessionWork(t0, Verdicts(t0, s.core.calls, i), s.sessions[i])
  {
    hide Wrapped, WrappedNext, RequestBytes, ReplyBytes, Verdicts, Inv, SharedPipe.Inv, SharedPipe.Enabled,
         SharedPipe.Apply, SharedPipe.ReplyTo, MaxReply, ValidTables, SharedPipe.AllAcceptable;
    CoreOf(t0, s);
    SessionOf(t0, s, i);
    var x, req := s.sessions[i], s.sessions[i].front.req;
    CoreFrame(capacity, s.core, SharedPipe.Lock(i, req));
    CoreKept(capacity, t0, s, Enter(i));
    var t := Apply(capacity, s, Enter(i));
    ValidParts(t0, t.core);
    LastVerdict(t0, t.core.calls);
    OwnVerdicts(t0, s.core.calls, SharedPipe.Call(i, req));
    var n := |s.core.calls|;
    ReplyToIsBounded(t0, t.core.calls, n);
    assert t.core.servers[i] == SharedPipe.Writing(req, 0) && t.core.toDb == [] by {
      LockLeavesPipes(capacity, t0, s.core, i, req);
    }
  }

  lemma LockLeavesPipes(capacity: nat, t0: Tables, core: SharedPipe.State, i: nat, req: Request)
    requires SharedPipe.Inv(t0, core) && SharedPipe.Enabled(capacity, core, SharedPipe.Lock(i, req))
    ensures SharedPipe.Apply(capacity, core, SharedPipe.Lock(i, req)).toDb == []
    ensures SharedPipe.Apply(capacity, core, SharedPipe.Lock(i, req)).servers[i] == SharedPipe.Writing(req, 0)
    ensures i < |core.servers| && core.holder == None
  {
    hide RequestBytes, ReplyBytes, SharedPipe.ReplyTo, SharedPipe.TablesAfter;
  }

  lemma OwnVerdicts(t0: Tables, calls: seq<SharedPipe.Call>, c: SharedPipe.Call)
    requires ValidTables(t0) && SharedPipe.AllAcceptable(t0, calls) && SharedPipe.AllAcceptable(t0, calls + [c])
    ensures |Verdicts(t0, calls + [c], c.server)| == |Verdicts(t0, calls, c.server)| + 1
  {
    hide ValidTables, SharedPipe.ReplyTo;
    assert (calls + [c])[..|calls|] == calls;
  }

  lemma ReplyToIsBounded(t0: Tables, calls: seq<SharedPipe.Call>, k: nat)
    requires ValidTables(t0) && SharedPipe.AllAcceptable(t0, calls) && k < |calls|
    ensures |ReplyBytes(SharedPipe.ReplyTo(t0, calls, k))| <= MaxReply(t0, calls[k].req)
  {
    hide ReplyBytes, Serve, ValidTables;
    SharedPipe.OneMoreCall(t0, calls, k);
    ReplyIsBounded(SharedPipe.TablesAfter(t0, calls[..k]), calls[k].req);
  }

  /** Whatever happens, unless a client asks for something new, there is less to do afterwards. */
  lemma StepsUseUpWork(capacity: nat, t0: Tables, s: State, a: Action)
    requires |s.sessions| == |s.core.servers| && Inv(t0, s) && Enabled(capacity, s, a) && !a.Ask?
    ensures ValidTables(t0) && SharedPipe.AllAcceptable(t0, s.core.calls)
    ensures SharedPipe.AllAcceptable(t0, Apply(capacity, s, a).core.calls)
    ensures WorkLeft(t0, Apply(capacity, s, a)) < WorkLeft(t0, s)
  {
    hide Wrapped, WrappedNext, Verdicts, SessionsWork, SessionWork, Inv, SharedPipe.Inv, SharedPipe.Enabled,
         SharedPipe.Apply, SharedPipe.WorkLeft, Stepped, ValidTables, SharedPipe.AllAcceptable, RequestBytes;
    var t := Apply(capacity, s, a);
    CoreOf(t0, s);
    CoreKept(capacity, t0, s, a);
    ValidParts(t0, s.core);
    ValidParts(t0, t.core);
    if a.Inner? {
      CoreFrame(capacity, s.core, a.a);
      SharedPipe.StepsUseUpWork(capacity, t0, s.core, a.a);
    } else if a.Enter? {
      var req := s.sessions[a.i].front.req;
      CoreFrame(capacity, s.core, SharedPipe.Lock(a.i, req));
      EnterUsesUpWork(capacity, t0, s, a.i);
      OthersVerdictsStay(t0, s.core.calls, SharedPipe.Call(a.i, req));
      SessionsWorkOfUpdate(t0, s.core.calls, t.core.calls, s.sessions, a.i, t.sessions[a.i]);
    } else {
      LinkStepUsesUpWork(capacity, t0, s, a);
      if a.Leave? {
        CoreFrame(capacity, s.core, SharedPipe.Leave(a.i));
        SharedPipe.StepsUseUpWork(capacity, t0, s.core, SharedPipe.Leave(a.i));
      }
      SessionsWorkOfUpdate(t0, s.core.calls, s.core.calls, s.sessions, a.i, t.sessions[a.i]);
    }
  }

  lemma OthersVerdictsStay(t0: Tables, calls: seq<SharedPipe.Call>, c: SharedPipe.Call)
    requires ValidTables(t0) && SharedPipe.AllAcceptable(t0, calls) && SharedPipe.AllAcceptable(t0, calls + [c])
    ensures forall j: nat :: j != c.server ==> Verdicts(t0, calls + [c], j) == Verdicts(t0, calls, j)
  {
    hide Verdicts, ValidTables, SharedPipe.AllAcceptable;
    forall j: nat | j != c.server
      ensures Verdicts(t0, calls + [c], j) == Verdicts(t0, calls, j)
    {
      VerdictsOfOthers(t0, calls, c, j);
    }
  }

  lemma WorkIsNotNegative(t0: Tables, s: State)
    requires Inv(t0, s)
    ensures ValidTables(t0) && SharedPipe.AllAcceptable(t0, s.core.calls) && WorkLeft(t0, s) >= 0
  {
    hide SessionsWork, Inv, SharedPipe.Inv, SharedPipe.WorkLeft;
    CoreOf(t0, s);
    ValidParts(t0, s.core);
    SharedPipe.WorkIsNotNegative(t0, s.core);
    SessionsWorkIsNotNegative(t0, s, |s.sessions|);
    assert s.sessions[..|s.sessions|] == s.sessions;
  }

  /** Without new requests no run is longer than the work there is. */
  lemma {:induction false} RunsAreBounded(capacity: nat, t0: Tables, s: State, actions: seq<Action>, t: State)
    requires |s.sessions| == |s.core.servers| && Inv(t0, s) && Run(capacity, s, actions, t)
    requires forall k :: 0 <= k < |actions| ==> !actions[k].Ask?
    ensures ValidTables(t0) && SharedPipe.AllAcceptable(t0, s.core.calls) && |actions| <= WorkLeft(t0, s)
    decreases |actions|
  {
    hide Inv, Enabled, Apply, WorkLeft, ValidTables, SharedPipe.AllAcceptable;
    WorkIsNotNegative(t0, s);
    if actions != [] {
      var next := Apply(capacity, s, actions[0]);
      StepKeepsInv(capacity, t0, s, actions[0]);
      StepsUseUpWork(capacity, t0, s, actions[0]);
      WorkIsNotNegative(t0, next);
      RunsAreBounded(capacity, t0, next, actions[1..], t);
    }
  }

  /** Every request is answered, where there is something to sell: once clients ask no more, the
      shop comes to a halt after so many steps at most, and it halts only when every client rests
      with all its verdicts. */
  lemma EveryRequestIsAnswered(capacity: nat, n: nat, t0: Tables, actions: seq<Action>, s: State,
        more: seq<Action>, t: State)
    requires capacity > 0 && ValidTables(t0) && t0.catalogue != [] && Run(capacity, Start(n, t0), actions, s)
    requires |s.sessions| == |s.core.servers| && Run(capacity, s, more, t)
    requires forall k :: 0 <= k < |more| ==> !more[k].Ask?
    ensures SharedPipe.AllAcceptable(t0, s.core.calls) && |more| <= WorkLeft(t0, s)
    ensures |t.sessions| == |t.core.servers| == |s.sessions| && SharedPipe.AllAcceptable(t0, t.core.calls)
    ensures (forall a :: Enabled(capacity, t, a) ==> a.Ask?) ==>
              forall i :: 0 <= i < |t.sessions| ==>
                t.sessions[i].client.Resting? && t.sessions[i].results == Verdicts(t0, t.core.calls, i)
  {
    hide Run, Inv, Enabled, WorkLeft, Verdicts, SessionInv, ValidTables, SharedPipe.Inv, SharedPipe.AllAcceptable;
    ReachableInv(capacity, n, t0, actions, s);
    RunsAreBounded(capacity, t0, s, more, t);
    RunKeepsInv(capacity, t0, s, more, t);
    SessionsStay(capacity, s, more, t);
    CoreOf(t0, t);
    ValidParts(t0, t.core);
    if forall a :: Enabled(capacity, t, a) ==> a.Ask? {
      forall i | 0 <= i < |t.sessions|
        ensures t.sessions[i].client.Resting? && t.sessions[i].results == Verdicts(t0, t.core.calls, i)
      {
        if !t.sessions[i].client.Resting? {
          SomeoneCanStep(capacity, t0, t, i);
          assert false;
        }
        SessionOf(t0, t, i);
        ResultsAreVerdicts(t0.stock, Verdicts(t0, t.core.calls, i), t.core, i, t.sessions[i]);
      }
    }
  }
}

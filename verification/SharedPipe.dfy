/** The protocol of `server/forkedServer.c`, `server/dbConn.c` and `database/databaseServer.c`:
    any number of forked servers share one pair of pipes to one database process, guarded by one
    process-shared mutex. A step is a single `read` or `write` of any positive number of bytes,
    a lock or an unlock; computation in between rides with the call before it. Pipes are bounded. */
module SharedPipe {
  import opened Bytes
  import opened Orders
  import opened Transport
  import opened Ledger
  import opened Messages

  /** A forked server: serving its client, writing its request, reading its reply, or holding
      the whole reply and about to leave the exchange. */
  datatype Server =
    | Idle
    | Writing(req: Request, sent: nat)
    | Reading(req: Request, got: seq<byte>)
    | Done(req: Request, got: seq<byte>)

  /** The database process: reading a request (at its command read when it has read nothing of
      it), or writing a reply. */
  datatype Database =
    | Receiving(got: seq<byte>)
    | Replying(kind: Kind, reply: seq<byte>, sent: nat)

  datatype Call = Call(server: nat, req: Request)

  /** `calls` and `replies` are history: who entered with what, in order of taking the mutex,
      and the reply bytes read so far. No step is guarded by them. */
  datatype State = State(
    servers: seq<Server>, holder: Option<nat>,
    toDb: seq<byte>, fromDb: seq<byte>,
    db: Database, tables: Tables,
    calls: seq<Call>, replies: seq<seq<byte>>)

  datatype Action =
    | Lock(i: nat, req: Request)
    | ServerWrite(i: nat, n: nat)
    | DbRead(n: nat)
    | DbWrite(n: nat)
    | ServerRead(i: nat, n: nat)
    | Leave(i: nat)

  ghost predicate Enabled(capacity: nat, s: State, a: Action) {
    match a
    case Lock(i, req) =>
      i < |s.servers| && s.servers[i].Idle? && s.holder.None? && Acceptable(req, s.tables.stock)
    case ServerWrite(i, n) =>
      && i < |s.servers| && s.servers[i].Writing? && SendableRequest(s.servers[i].req) && 0 < n
      && var b, sent := RequestBytes(s.servers[i].req), s.servers[i].sent;
      && sent + n <= |b| && sent + n <= MessageNext(RequestKind, b[..sent]) && |s.toDb| + n <= capacity
    case DbRead(n) =>
      && s.db.Receiving? && 0 < n <= |s.toDb|
      && |s.db.got| + n <= MessageNext(RequestKind, s.db.got)
    case DbWrite(n) =>
      && s.db.Replying? && 0 < n && s.db.sent + n <= |s.db.reply|
      && s.db.sent + n <= MessageNext(s.db.kind, s.db.reply[..s.db.sent]) && |s.fromDb| + n <= capacity
    case ServerRead(i, n) =>
      && i < |s.servers| && s.servers[i].Reading? && 0 < n <= |s.fromDb|
      && |s.servers[i].got| + n <= MessageNext(ReplyKind(s.servers[i].req), s.servers[i].got)
    case Leave(i) =>
      i < |s.servers| && s.servers[i].Done? && |s.servers[i].got| >= 4
  }

  /** Fetching the catalogue returns early on an error reply, past the unlock. */
  predicate ReturnsLocked(req: Request, got: seq<byte>)
    requires |got| >= 4
  {
    req.GetProducts? && IntAt(got[..4]) == MESSAGE_ERROR
  }

  ghost function Apply(capacity: nat, s: State, a: Action): State
    requires Enabled(capacity, s, a)
  {
    match a
    case Lock(i, req) =>
      s.(servers := s.servers[i := Writing(req, 0)], holder := Some(i), calls := s.calls + [Call(i, req)])
    case ServerWrite(i, n) =>
      var Writing(req, sent) := s.servers[i];
      var b := RequestBytes(req);
      s.(servers := s.servers[i := if sent + n == |b| then Reading(req, []) else Writing(req, sent + n)],
         toDb := s.toDb + b[sent..sent + n])
    case DbRead(n) =>
      var got := s.db.got + s.toDb[..n];
      var t := s.(toDb := s.toDb[n..]);
      if |got| < MessageNext(RequestKind, got) then t.(db := Receiving(got)) else
      var (tables, reply) := Answer(s.tables, got);
      t.(tables := tables,
         db := if reply == [] then Receiving([])
               else if IntAt(got[..4]) == CMD_GET_PRODUCTS then Replying(ProductsReplyKind, reply, 0)
               else Replying(OrderReplyKind, reply, 0))
    case DbWrite(n) =>
      var Replying(kind, reply, sent) := s.db;
      s.(db := if sent + n == |reply| then Receiving([]) else Replying(kind, reply, sent + n),
         fromDb := s.fromDb + reply[sent..sent + n])
    case ServerRead(i, n) =>
      var Reading(req, got0) := s.servers[i];
      var got := got0 + s.fromDb[..n];
      var t := s.(fromDb := s.fromDb[n..]);
      if |got| < MessageNext(ReplyKind(req), got) then t.(servers := s.servers[i := Reading(req, got)])
      else t.(servers := s.servers[i := Done(req, got)], replies := s.replies + [got])
    case Leave(i) =>
      var Done(req, got) := s.servers[i];
      s.(servers := s.servers[i := Idle], holder := if ReturnsLocked(req, got) then s.holder else None)
  }

  ghost predicate Run(capacity: nat, s: State, actions: seq<Action>, t: State)
    decreases |actions|
  {
    if actions == [] then s == t
    else Enabled(capacity, s, actions[0]) && Run(capacity, Apply(capacity, s, actions[0]), actions[1..], t)
  }

  function Start(n: nat, tables: Tables): State {
    State(seq(n, _ => Idle), None, [], [], Receiving([]), tables, [], [])
  }

  // -------------------------------------------------------- the sequential system

  ghost predicate AllAcceptable(t0: Tables, calls: seq<Call>) {
    forall k :: 0 <= k < |calls| ==> Acceptable(calls[k].req, t0.stock)
  }

  lemma AcceptableByKeys(req: Request, s: Stock, t: Stock)
    requires s.Keys == t.Keys
    ensures Acceptable(req, s) <==> Acceptable(req, t)
  {
  }

  /** The tables after serving the calls one at a time, each in one piece. */
  ghost function TablesAfter(t0: Tables, calls: seq<Call>): (t: Tables)
    requires ValidTables(t0) && AllAcceptable(t0, calls)
    ensures ValidTables(t) && t.stock.Keys == t0.stock.Keys && t.catalogue == t0.catalogue
  {
    if calls == [] then t0 else
    var n := |calls| - 1;
    AcceptableByKeys(calls[n].req, t0.stock, TablesAfter(t0, calls[..n]).stock);
    Serve(TablesAfter(t0, calls[..n]), calls[n].req).0
  }

  /** The reply the k-th call gets there. */
  ghost function ReplyTo(t0: Tables, calls: seq<Call>, k: nat): (r: Reply)
    requires ValidTables(t0) && AllAcceptable(t0, calls) && k < |calls|
    ensures SendableReply(r) && AnswersKind(ReplyKind(calls[k].req), r)
  {
    AcceptableByKeys(calls[k].req, t0.stock, TablesAfter(t0, calls[..k]).stock);
    Serve(TablesAfter(t0, calls[..k]), calls[k].req).1
  }

  // ------------------------------------------------------------------ the invariant

  predicate Quiet(s: State) {
    s.toDb == [] && s.fromDb == [] && s.db == Receiving([])
  }

  /** The exchange in progress: `b` is the request, `r` the reply it is due, `before` and `after`
      the tables on either side of serving it. */
  ghost predicate InExchange(s: State, server: Server, req: Request, b: seq<byte>, r: seq<byte>,
                             before: Tables, after: Tables, replied: bool) {
    match server
    case Idle => Quiet(s) && s.tables == after && replied && |r| >= 4 && ReturnsLocked(req, r)
    case Writing(req', sent) =>
      && req' == req && sent < |b| && !replied
      && s.fromDb == [] && s.db.Receiving? && s.db.got + s.toDb == b[..sent] && s.tables == before
    case Reading(req', got) =>
      && req' == req && |got| < |r| && !replied
      && (match s.db
          case Receiving(q) =>
           || (q + s.toDb == b && |q| < |b| && got == [] && s.fromDb == [] && s.tables == before)
           || (q == [] && s.toDb == [] && got + s.fromDb == r && s.tables == after)
          case Replying(kind, reply, sent) =>
           && kind == ReplyKind(req) && reply == r && sent < |r| && s.toDb == []
           && got + s.fromDb == r[..sent] && s.tables == after)
    case Done(req', got) => req' == req && got == r && Quiet(s) && s.tables == after && replied
  }

  /** The replies read so far are the ones the sequential system gives. */
  ghost predicate RepliesAreDue(t0: Tables, calls: seq<Call>, replies: seq<seq<byte>>)
    requires ValidTables(t0) && AllAcceptable(t0, calls) && |replies| <= |calls|
  {
    forall k :: 0 <= k < |replies| ==> replies[k] == ReplyBytes(ReplyTo(t0, calls, k))
  }

  ghost predicate Inv(t0: Tables, s: State) {
    && ValidTables(t0) && AllAcceptable(t0, s.calls)
    && (forall j :: 0 <= j < |s.servers| && s.holder != Some(j) ==> s.servers[j].Idle?)
    && |s.replies| <= |s.calls|
    && RepliesAreDue(t0, s.calls, s.replies)
    && match s.holder
       case None => Quiet(s) && s.tables == TablesAfter(t0, s.calls) && |s.replies| == |s.calls|
       case Some(i) =>
         && i < |s.servers| && |s.calls| > 0
         && var n := |s.calls| - 1;
         && s.calls[n].server == i && |s.replies| >= n
         && InExchange(s, s.servers[i], s.calls[n].req, RequestBytes(s.calls[n].req),
                       ReplyBytes(ReplyTo(t0, s.calls, n)), TablesAfter(t0, s.calls[..n]),
                       TablesAfter(t0, s.calls), |s.replies| == |s.calls|)
  }

  lemma RequestDelimits(req: Request, k: nat)
    requires SendableRequest(req) && k <= |RequestBytes(req)|
    ensures 4 <= |RequestBytes(req)|
    ensures k < |RequestBytes(req)| ==> k < MessageNext(RequestKind, RequestBytes(req)[..k]) <= |RequestBytes(req)|
    ensures k == |RequestBytes(req)| ==> MessageNext(RequestKind, RequestBytes(req)[..k]) == k
    ensures (IntAt(RequestBytes(req)[..4]) == CMD_GET_PRODUCTS) <==> req.GetProducts?
  {
    MessageDelimits(RequestKind, RequestMessage(req), k);
    MessageTag(RequestMessage(req));
  }

  lemma ReplyDelimits(kind: Kind, reply: Reply, k: nat)
    requires SendableReply(reply) && AnswersKind(kind, reply) && k <= |ReplyBytes(reply)|
    ensures 4 <= |ReplyBytes(reply)|
    ensures k < |ReplyBytes(reply)| ==> k < MessageNext(kind, ReplyBytes(reply)[..k]) <= |ReplyBytes(reply)|
    ensures k == |ReplyBytes(reply)| ==> MessageNext(kind, ReplyBytes(reply)[..k]) == k
    ensures (IntAt(ReplyBytes(reply)[..4]) == MESSAGE_ERROR) <==> reply.Error?
  {
    ReplyRoundTrip(kind, reply);
    MessageDelimits(kind, ReplyMessage(reply), k);
    MessageTag(ReplyMessage(reply));
  }

  lemma MessageTag(m: Message)
    requires Sized(m.bodies)
    ensures 4 <= |MessageBytes(m)| && IntAt(MessageBytes(m)[..4]) == m.tag
  {
    IntRoundTrip(m.tag);
    assert MessageBytes(m)[..4] == IntBytes(m.tag);
  }

  // ------------------------------------------------------- every step keeps it

  lemma LockKeepsInv(capacity: nat, t0: Tables, s: State, i: nat, req: Request)
    requires Inv(t0, s) && Enabled(capacity, s, Lock(i, req))
    ensures Inv(t0, Apply(capacity, s, Lock(i, req)))
  {
    hide RequestBytes, ReplyBytes, Serve, RepliesAreDue;
    var t := Apply(capacity, s, Lock(i, req));
    AcceptableByKeys(req, s.tables.stock, t0.stock);
    RequestDelimits(req, 0);
    assert t.calls[..|s.calls|] == s.calls;
    RepliesStand(t0, s.calls, t.calls, s.replies);
    assert RequestBytes(req)[..0] == [];
  }

  lemma RepliesStand(t0: Tables, calls: seq<Call>, longer: seq<Call>, replies: seq<seq<byte>>)
    requires ValidTables(t0) && AllAcceptable(t0, calls) && AllAcceptable(t0, longer)
    requires calls <= longer && |replies| <= |calls| && RepliesAreDue(t0, calls, replies)
    ensures RepliesAreDue(t0, longer, replies)
  {
    hide ReplyBytes, Serve, TablesAfter;
    forall k | 0 <= k < |replies|
      ensures ReplyTo(t0, calls, k) == ReplyTo(t0, longer, k)
    {
      assert calls[..k] == longer[..k] && calls[k] == longer[k];
    }
  }

  lemma ServerWriteKeepsInv(capacity: nat, t0: Tables, s: State, i: nat, n: nat)
    requires Inv(t0, s) && Enabled(capacity, s, ServerWrite(i, n))
    ensures Inv(t0, Apply(capacity, s, ServerWrite(i, n)))
  {
    hide RequestBytes, ReplyBytes, Serve, ReplyTo, TablesAfter, MessageNext, RepliesAreDue;
    var Writing(req, sent) := s.servers[i];
    var b := RequestBytes(req);
    assert s.holder == Some(i);
    ReplyDelimits(ReplyKind(req), ReplyTo(t0, s.calls, |s.calls| - 1), 0);
    assert b[..sent] + b[sent..sent + n] == b[..sent + n];
    assert s.db.got + (s.toDb + b[sent..sent + n]) == b[..sent + n];
    assert b[..|b|] == b;
  }

  /** Served after the calls before it, the last call gets the reply it is due. */
  lemma LastCallIsAnswered(t0: Tables, calls: seq<Call>)
    requires ValidTables(t0) && AllAcceptable(t0, calls) && calls != []
    ensures var n := |calls| - 1;
            var b, r := RequestBytes(calls[n].req), ReplyBytes(ReplyTo(t0, calls, n));
            Answer(TablesAfter(t0, calls[..n]), b) == (TablesAfter(t0, calls), r) && r != []
  {
    hide RequestBytes, ReplyBytes, Serve, MessageNext, Answer;
    var n := |calls| - 1;
    var req, before := calls[n].req, TablesAfter(t0, calls[..n]);
    AcceptableByKeys(req, t0.stock, before.stock);
    AnswerOfRequest(before, req);
    ReplyDelimits(ReplyKind(req), ReplyTo(t0, calls, n), 0);
  }

  lemma DbReadKeepsInv(capacity: nat, t0: Tables, s: State, n: nat)
    requires Inv(t0, s) && Enabled(capacity, s, DbRead(n))
    ensures Inv(t0, Apply(capacity, s, DbRead(n)))
  {
    hide RequestBytes, ReplyBytes, Serve, MessageNext, Answer, RepliesAreDue, TablesAfter, ReplyTo;
    assert s.holder.Some?;
    var i, last := s.holder.value, |s.calls| - 1;
    var req := s.calls[last].req;
    var b, got := RequestBytes(req), s.db.got + s.toDb[..n];
    assert s.toDb[..n] + s.toDb[n..] == s.toDb;
    assert got + s.toDb[n..] == s.db.got + s.toDb;
    if s.servers[i].Writing? {
      var sent := s.servers[i].sent;
      assert got == b[..sent][..|got|] == b[..|got|];
      RequestDelimits(req, |got|);
    } else {
      assert got == b[..|got|];
      RequestDelimits(req, |got|);
      if |got| == |b| {
        assert got == b;
        LastCallIsAnswered(t0, s.calls);
      }
    }
  }

  lemma DbWriteKeepsInv(capacity: nat, t0: Tables, s: State, n: nat)
    requires Inv(t0, s) && Enabled(capacity, s, DbWrite(n))
    ensures Inv(t0, Apply(capacity, s, DbWrite(n)))
  {
    hide RequestBytes, ReplyBytes, Serve, ReplyTo, TablesAfter, MessageNext, RepliesAreDue, Answer, ValidTables,
         AllAcceptable, ReplyKind;
    assert s.holder.Some? && s.servers[s.holder.value].Reading?;
    SentMore(s.servers[s.holder.value].got, s.fromDb, s.db.reply, s.db.sent, n);
  }

  lemma SentMore(got: seq<byte>, pipe: seq<byte>, reply: seq<byte>, sent: nat, n: nat)
    requires sent + n <= |reply| && got + pipe == reply[..sent]
    ensures got + (pipe + reply[sent..sent + n]) == reply[..sent + n]
    ensures reply[..|reply|] == reply
  {
    assert reply[..sent + n] == reply[..sent] + reply[sent..sent + n];
  }

  lemma ServerReadKeepsInv(capacity: nat, t0: Tables, s: State, i: nat, n: nat)
    requires Inv(t0, s) && Enabled(capacity, s, ServerRead(i, n))
    ensures Inv(t0, Apply(capacity, s, ServerRead(i, n)))
  {
    hide RequestBytes, ReplyBytes, Serve, ReplyTo, TablesAfter, MessageNext, RepliesAreDue, Answer, ValidTables,
         AllAcceptable;
    assert s.holder == Some(i);
    var last := |s.calls| - 1;
    var Reading(req, got0) := s.servers[i];
    var got, reply := got0 + s.fromDb[..n], ReplyTo(t0, s.calls, last);
    var r := ReplyBytes(reply);
    assert s.fromDb[..n] + s.fromDb[n..] == s.fromDb;
    assert got + s.fromDb[n..] == got0 + s.fromDb;
    assert got == r[..|got|] by {
      if s.db.Replying? {
        assert got == r[..s.db.sent][..|got|];
      }
    }
    ReplyDelimits(ReplyKind(req), reply, |got|);
    if |got| == |r| {
      RepliesGrow(t0, s.calls, s.replies, got);
    }
  }

  lemma RepliesGrow(t0: Tables, calls: seq<Call>, replies: seq<seq<byte>>, reply: seq<byte>)
    requires ValidTables(t0) && AllAcceptable(t0, calls) && |replies| < |calls| && RepliesAreDue(t0, calls, replies)
    requires reply == ReplyBytes(ReplyTo(t0, calls, |replies|))
    ensures RepliesAreDue(t0, calls, replies + [reply])
  {
  }

  lemma LeaveKeepsInv(capacity: nat, t0: Tables, s: State, i: nat)
    requires Inv(t0, s) && Enabled(capacity, s, Leave(i))
    ensures Inv(t0, Apply(capacity, s, Leave(i)))
  {
    hide RequestBytes, ReplyBytes, Serve, ReplyTo, TablesAfter, MessageNext, RepliesAreDue;
    assert s.holder == Some(i);
  }

  lemma StepKeepsInv(capacity: nat, t0: Tables, s: State, a: Action)
    requires Inv(t0, s) && Enabled(capacity, s, a)
    ensures Inv(t0, Apply(capacity, s, a))
  {
    hide Inv, Enabled, Apply;
    match a
    case Lock(i, req) => LockKeepsInv(capacity, t0, s, i, req);
    case ServerWrite(i, n) => ServerWriteKeepsInv(capacity, t0, s, i, n);
    case DbRead(n) => DbReadKeepsInv(capacity, t0, s, n);
    case DbWrite(n) => DbWriteKeepsInv(capacity, t0, s, n);
    case ServerRead(i, n) => ServerReadKeepsInv(capacity, t0, s, i, n);
    case Leave(i) => LeaveKeepsInv(capacity, t0, s, i);
  }

  lemma {:induction false} RunKeepsInv(capacity: nat, t0: Tables, s: State, actions: seq<Action>, t: State)
    requires Inv(t0, s) && Run(capacity, s, actions, t)
    ensures Inv(t0, t)
    decreases |actions|
  {
    hide Inv, Enabled, Apply;
    if actions != [] {
      StepKeepsInv(capacity, t0, s, actions[0]);
      RunKeepsInv(capacity, t0, Apply(capacity, s, actions[0]), actions[1..], t);
    }
  }

  // ------------------------------------------------------------------ the theorems

  lemma ReachableInv(capacity: nat, n: nat, t0: Tables, actions: seq<Action>, s: State)
    requires ValidTables(t0) && Run(capacity, Start(n, t0), actions, s)
    ensures Inv(t0, s)
  {
    RunKeepsInv(capacity, t0, Start(n, t0), actions, s);
  }

  /** Mutual exclusion at byte level. While the mutex is free both pipes are empty, every server
      is idle and the database waits at its command read. While a server holds it, only that
      server is in an exchange, and the pipes hold exactly the unread rest of it: what the server
      has written of its request and the database has not read, or what the database has written
      of the reply due and the server has not read. */
  lemma PipesBelongToTheHolder(capacity: nat, n: nat, t0: Tables, actions: seq<Action>, s: State)
    requires ValidTables(t0) && Run(capacity, Start(n, t0), actions, s)
    ensures AllAcceptable(t0, s.calls)
    ensures s.holder == None ==> Quiet(s) && forall j :: 0 <= j < |s.servers| ==> s.servers[j].Idle?
    ensures s.holder.Some? ==>
              var i, last := s.holder.value, |s.calls| - 1;
              && 0 <= last && s.calls[last].server == i < |s.servers|
              && (forall j :: 0 <= j < |s.servers| && j != i ==> s.servers[j].Idle?)
              && var req := s.calls[last].req;
              && var b, r := RequestBytes(req), ReplyBytes(ReplyTo(t0, s.calls, last));
              match s.servers[i]
              case Writing(q, sent) =>
                q == req && sent < |b| && s.db.Receiving? && s.db.got + s.toDb == b[..sent] && s.fromDb == []
              case Reading(q, got) =>
                && q == req && |got| < |r|
                && (match s.db
                    case Receiving(d) =>
                      || (d + s.toDb == b && |d| < |b| && got == [] && s.fromDb == [])
                      || (d == [] && s.toDb == [] && got + s.fromDb == r)
                    case Replying(_, reply, sent) =>
                      reply == r && sent < |r| && s.toDb == [] && got + s.fromDb == r[..sent])
              case Done(q, got) => q == req && got == r && Quiet(s)
              case Idle => Quiet(s)
  {
    hide Run, RequestBytes, ReplyBytes, ReplyTo, TablesAfter;
    ReachableInv(capacity, n, t0, actions, s);
  }

  /** Every interleaved run refines the sequential one: the tables are those of serving the calls
      one at a time in the order the mutex was taken (all of them, or all but the one being
      exchanged), each reply read is the one its request gets there, and its reader can tell. */
  lemma RefinesSequentialService(capacity: nat, n: nat, t0: Tables, actions: seq<Action>, s: State)
    requires ValidTables(t0) && Run(capacity, Start(n, t0), actions, s)
    ensures AllAcceptable(t0, s.calls)
    ensures |s.calls| - 1 <= |s.replies| <= |s.calls|
    ensures s.tables == TablesAfter(t0, s.calls)
         || (|s.replies| < |s.calls| && s.tables == TablesAfter(t0, s.calls[..|s.calls| - 1]))
    ensures forall k :: 0 <= k < |s.replies| ==>
              && s.replies[k] == ReplyBytes(ReplyTo(t0, s.calls, k))
              && ParseReply(ReplyKind(s.calls[k].req), s.replies[k]) == Some(ReplyTo(t0, s.calls, k))
    ensures forall i :: 0 <= i < |s.servers| && s.servers[i].Done? ==>
              && |s.replies| == |s.calls| > 0
              && s.calls[|s.calls| - 1] == Call(i, s.servers[i].req)
              && s.servers[i].got == s.replies[|s.replies| - 1]
  {
    hide Run, RequestBytes, ReplyBytes, ReplyTo, TablesAfter, ParseReply;
    ReachableInv(capacity, n, t0, actions, s);
    forall k | 0 <= k < |s.replies|
      ensures ParseReply(ReplyKind(s.calls[k].req), s.replies[k]) == Some(ReplyTo(t0, s.calls, k))
    {
      ReplyRoundTrip(ReplyKind(s.calls[k].req), ReplyTo(t0, s.calls, k));
    }
  }

  // ----------------------------------------------------------------------- progress

  /** Bytes the exchange in progress has still to move, each counted once for its writer and
      once for its reader, and the leaving itself. */
  ghost function WorkLeft(t0: Tables, s: State): int
    requires ValidTables(t0) && AllAcceptable(t0, s.calls)
  {
    if s.holder.None? || |s.calls| == 0 || s.holder.value >= |s.servers| then 0 else
    var last := |s.calls| - 1;
    var b, r := |RequestBytes(s.calls[last].req)|, |ReplyBytes(ReplyTo(t0, s.calls, last))|;
    match s.servers[s.holder.value]
    case Idle => 0
    case Writing(_, sent) => 2 * (b - sent) + |s.toDb| + 2 * r + 1
    case Reading(_, got) => |s.toDb| + 2 * (r - |got| - |s.fromDb|) + |s.fromDb| + 1
    case Done(_, _) => 1
  }

  /** While a server waits for its reply: it can read what there is, or the database can go on. */
  lemma ReadingNeverStuck(capacity: nat, t0: Tables, s: State)
    requires capacity > 0 && Inv(t0, s) && s.holder.Some? && s.servers[s.holder.value].Reading?
    ensures if s.fromDb != [] then Enabled(capacity, s, ServerRead(s.holder.value, 1))
            else Enabled(capacity, s, DbWrite(1)) || Enabled(capacity, s, DbRead(1))
  {
    hide RequestBytes, ReplyBytes, ReplyTo, TablesAfter, MessageNext, RepliesAreDue;
    var i, last := s.holder.value, |s.calls| - 1;
    var req, reply, got := s.calls[last].req, ReplyTo(t0, s.calls, last), s.servers[i].got;
    var b, r := RequestBytes(req), ReplyBytes(reply);
    if s.fromDb != [] {
      assert got == r[..|got|] by {
        if s.db.Replying? {
          assert got == r[..s.db.sent][..|got|];
        }
      }
      ReplyDelimits(ReplyKind(req), reply, |got|);
    } else if s.db.Replying? {
      ReplyDelimits(ReplyKind(req), reply, s.db.sent);
    } else {
      assert s.db.got == b[..|s.db.got|];
      RequestDelimits(req, |s.db.got|);
    }
  }

  /** While it writes its request: it can write on, or the database can read. */
  lemma WritingNeverStuck(capacity: nat, t0: Tables, s: State)
    requires capacity > 0 && Inv(t0, s) && s.holder.Some? && s.servers[s.holder.value].Writing?
    ensures Enabled(capacity, s, ServerWrite(s.holder.value, 1)) || Enabled(capacity, s, DbRead(1))
  {
    hide RequestBytes, ReplyBytes, ReplyTo, TablesAfter, MessageNext, RepliesAreDue;
    var req, sent := s.calls[|s.calls| - 1].req, s.servers[s.holder.value].sent;
    var b := RequestBytes(req);
    if s.toDb == [] {
      RequestDelimits(req, sent);
    } else {
      assert s.db.got == b[..sent][..|s.db.got|] == b[..|s.db.got|];
      RequestDelimits(req, |s.db.got|);
    }
  }

  lemma DoneCanLeave(capacity: nat, t0: Tables, s: State)
    requires Inv(t0, s) && s.holder.Some? && s.servers[s.holder.value].Done?
    ensures Enabled(capacity, s, Leave(s.holder.value))
  {
    hide RequestBytes, ReplyBytes, ReplyTo, TablesAfter, RepliesAreDue;
    var last := |s.calls| - 1;
    ReplyDelimits(ReplyKind(s.calls[last].req), ReplyTo(t0, s.calls, last), 0);
  }

  /** An exchange cannot get stuck, however small the pipes: while its server holds the mutex
      some process can take a step. */
  lemma ExchangeNeverStuck(capacity: nat, n: nat, t0: Tables, actions: seq<Action>, s: State)
    requires capacity > 0 && ValidTables(t0) && Run(capacity, Start(n, t0), actions, s)
    requires s.holder.Some? && s.holder.value < |s.servers| && !s.servers[s.holder.value].Idle?
    ensures exists a :: Enabled(capacity, s, a)
  {
    hide Run, Enabled, Inv;
    ReachableInv(capacity, n, t0, actions, s);
    match s.servers[s.holder.value]
    case Writing(_, _) => WritingNeverStuck(capacity, t0, s);
    case Reading(_, _) => ReadingNeverStuck(capacity, t0, s);
    case Done(_, _) => DoneCanLeave(capacity, t0, s);
  }

  /** The mutex is never kept where there is something to sell. */
  lemma NeverKeptWithCatalogue(t0: Tables, s: State)
    requires Inv(t0, s) && t0.catalogue != [] && s.holder.Some?
    ensures !s.servers[s.holder.value].Idle?
  {
    hide RequestBytes, ReplyBytes, RepliesAreDue;
    var last := |s.calls| - 1;
    ReplyDelimits(ReplyKind(s.calls[last].req), ReplyTo(t0, s.calls, last), 0);
  }

  /** The lengths of an exchange, with the contents left out. */
  lemma ExchangeLengths(t0: Tables, s: State)
    requires Inv(t0, s) && s.holder.Some?
    ensures AllAcceptable(t0, s.calls) && |s.calls| > 0 && s.holder.value < |s.servers|
    ensures forall j :: 0 <= j < |s.servers| && j != s.holder.value ==> s.servers[j].Idle?
    ensures var last := |s.calls| - 1;
            var server, req, b, r := s.servers[s.holder.value], s.calls[last].req,
                  |RequestBytes(s.calls[last].req)|, |ReplyBytes(ReplyTo(t0, s.calls, last))|;
            && b >= 4 && r >= 4
            && (server.Writing? ==> server.req == req && server.sent < b && s.fromDb == [] && s.db.Receiving?)
            && (server.Reading? ==> |server.got| + |s.fromDb| <= r)
            && (server.Reading? && s.db.Replying? ==>
                  s.toDb == [] && |server.got| + |s.fromDb| == s.db.sent && |s.db.reply| == r)
            && ((server.Idle? || server.Done?) ==> Quiet(s))
  {
    hide RequestBytes, ReplyBytes, ReplyTo, TablesAfter;
    var i, last := s.holder.value, |s.calls| - 1;
    ReplyDelimits(ReplyKind(s.calls[last].req), ReplyTo(t0, s.calls, last), 0);
    RequestDelimits(s.calls[last].req, 0);
    if s.servers[i].Reading? {
      assert |s.servers[i].got + s.fromDb| == |s.servers[i].got| + |s.fromDb|;
    }
  }

  /** Every step of an exchange uses up some of its work. */
  lemma StepsUseUpWork(capacity: nat, t0: Tables, s: State, a: Action)
    requires Inv(t0, s) && Enabled(capacity, s, a) && !a.Lock?
    ensures AllAcceptable(t0, s.calls) && Apply(capacity, s, a).calls == s.calls
    ensures WorkLeft(t0, Apply(capacity, s, a)) < WorkLeft(t0, s)
  {
    hide RequestBytes, ReplyBytes, ReplyTo, TablesAfter, MessageNext, Answer, Inv;
    assert s.holder.Some? by { OnlyLocksWhenFree(capacity, t0, s, a); }
    ExchangeLengths(t0, s);
  }

  lemma OnlyLocksWhenFree(capacity: nat, t0: Tables, s: State, a: Action)
    requires Inv(t0, s) && Enabled(capacity, s, a) && !a.Lock?
    ensures s.holder.Some?
  {
  }

  lemma {:induction false} WorkIsNotNegative(t0: Tables, s: State)
    requires Inv(t0, s)
    ensures AllAcceptable(t0, s.calls) && WorkLeft(t0, s) >= 0
  {
    hide RequestBytes, ReplyBytes, ReplyTo, TablesAfter;
    if s.holder.Some? {
      ExchangeLengths(t0, s);
    }
  }

  /** Hence between taking the mutex and leaving, a run has at most `WorkLeft` steps. */
  lemma {:induction false} ExchangeIsBounded(capacity: nat, t0: Tables, s: State, actions: seq<Action>, t: State)
    requires Inv(t0, s) && Run(capacity, s, actions, t)
    requires forall k :: 0 <= k < |actions| ==> !actions[k].Lock?
    ensures AllAcceptable(t0, s.calls) && |actions| <= WorkLeft(t0, s)
    decreases |actions|
  {
    hide Inv, Enabled, Apply, WorkLeft, AllAcceptable;
    WorkIsNotNegative(t0, s);
    if actions != [] {
      var next := Apply(capacity, s, actions[0]);
      StepKeepsInv(capacity, t0, s, actions[0]);
      StepsUseUpWork(capacity, t0, s, actions[0]);
      WorkIsNotNegative(t0, next);
      ExchangeIsBounded(capacity, t0, next, actions[1..], t);
    }
  }

  // --------------------------------------------------------- the mutex that is kept

  /** The early return of the catalogue fetch is taken exactly when the catalogue is empty, and
      it stops the system for good: nobody can do anything afterwards. */
  lemma MutexKeptIffCatalogueEmpty(capacity: nat, n: nat, t0: Tables, actions: seq<Action>, s: State, i: nat)
    requires ValidTables(t0) && Run(capacity, Start(n, t0), actions, s)
    requires Enabled(capacity, s, Leave(i))
    ensures Apply(capacity, s, Leave(i)).holder == None
         <==> !(s.servers[i].req.GetProducts? && t0.catalogue == [])
    ensures Apply(capacity, s, Leave(i)).holder != None ==>
              forall a :: !Enabled(capacity, Apply(capacity, s, Leave(i)), a)
  {
    hide Run, RequestBytes, ReplyBytes, MessageNext;
    ReachableInv(capacity, n, t0, actions, s);
    var last := |s.calls| - 1;
    assert s.holder == Some(i) && s.servers[i].got == ReplyBytes(ReplyTo(t0, s.calls, last));
    ReplyDelimits(ReplyKind(s.calls[last].req), ReplyTo(t0, s.calls, last), 0);
    LeaveKeepsInv(capacity, t0, s, i);
    var t := Apply(capacity, s, Leave(i));
    if t.holder != None {
      NothingAfterReturningLocked(capacity, t0, t);
    }
  }

  lemma NothingAfterReturningLocked(capacity: nat, t0: Tables, s: State)
    requires Inv(t0, s) && s.holder.Some? && s.servers[s.holder.value].Idle?
    ensures forall a :: !Enabled(capacity, s, a)
  {
    hide RequestBytes, ReplyBytes, ReplyTo, TablesAfter, MessageNext, Inv;
    ExchangeLengths(t0, s);
    forall a ensures !Enabled(capacity, s, a) {
      match a
      case _ =>
    }
  }

  // ----------------------------------------------------------- conservation, again

  predicate DistinctCalls(calls: seq<Call>) {
    forall k :: 0 <= k < |calls| && calls[k].req.PlaceOrder? ==> DistinctIds(calls[k].req.order.entries)
  }

  /** No order among the first m calls is answered with an error. */
  ghost predicate NoErrors(t0: Tables, calls: seq<Call>, m: nat)
    requires ValidTables(t0) && AllAcceptable(t0, calls) && m <= |calls|
  {
    forall k :: 0 <= k < m && calls[k].req.PlaceOrder? ==> ReplyTo(t0, calls, k) != Error
  }

  /** Of no product is there less, left and sold together, than there was. */
  ghost predicate NothingLost(t: Tables, initial: Stock) {
    t.stock.Keys == initial.Keys && forall id :: id in initial ==> t.stock[id] + Sold(t.lines, id) >= initial[id]
  }

  lemma OneMoreCall(t0: Tables, calls: seq<Call>, m: nat)
    requires ValidTables(t0) && AllAcceptable(t0, calls) && m < |calls|
    ensures calls[..m + 1][..m] == calls[..m] && calls[..m + 1][m] == calls[m]
    ensures AllAcceptable(t0, calls[..m]) && AllAcceptable(t0, calls[..m + 1])
    ensures Acceptable(calls[m].req, TablesAfter(t0, calls[..m]).stock)
    ensures TablesAfter(t0, calls[..m + 1]) == Serve(TablesAfter(t0, calls[..m]), calls[m].req).0
    ensures ReplyTo(t0, calls, m) == Serve(TablesAfter(t0, calls[..m]), calls[m].req).1
  {
    hide Serve, ValidTables;
    AcceptableByKeys(calls[m].req, t0.stock, TablesAfter(t0, calls[..m]).stock);
    assert calls[..m + 1][..m] == calls[..m];
  }

  /** Served one at a time: nothing is lost, and the books balance exactly as long as no order is
      answered with an error. */
  lemma {:induction false} BalancedIffNoErrors(t0: Tables, calls: seq<Call>, m: nat, initial: Stock)
    requires ValidTables(t0) && AllAcceptable(t0, calls) && m <= |calls| && Balanced(t0, initial)
    ensures AllAcceptable(t0, calls[..m]) && NothingLost(TablesAfter(t0, calls[..m]), initial)
    ensures Balanced(TablesAfter(t0, calls[..m]), initial) <==> NoErrors(t0, calls, m)
  {
    hide ValidTables, Serve, ReplyTo;
    if m == 0 {
    } else {
      BalancedIffNoErrors(t0, calls, m - 1, initial);
      OneMoreCall(t0, calls, m - 1);
      ServingMovesBooks(TablesAfter(t0, calls[..m - 1]), calls[m - 1].req, initial);
      OneMoreReply(t0, calls, m - 1);
    }
  }

  lemma OneMoreReply(t0: Tables, calls: seq<Call>, m: nat)
    requires ValidTables(t0) && AllAcceptable(t0, calls) && m < |calls|
    ensures NoErrors(t0, calls, m + 1)
       <==> NoErrors(t0, calls, m) && (calls[m].req.PlaceOrder? ==> ReplyTo(t0, calls, m) != Error)
  {
    hide ReplyTo, ValidTables;
  }

  /** Serving a request never lowers what is left and sold together, and changes it exactly with
      an error for an order. */
  lemma ServingMovesBooks(t: Tables, req: Request, initial: Stock)
    requires ValidTables(t) && Acceptable(req, t.stock) && NothingLost(t, initial)
    ensures NothingLost(Serve(t, req).0, initial)
    ensures Balanced(Serve(t, req).0, initial)
       <==> Balanced(t, initial) && (req.PlaceOrder? ==> Serve(t, req).1 != Error)
  {
    hide Placed, Balanced, NothingLost;
    StockOfValid(t);
    match req
    case GetProducts =>
    case PlaceOrder(order) => PlacingMovesBooks(t, order, initial);
  }

  lemma PlacingMovesBooks(t: Tables, o: OrderData, initial: Stock)
    requires ValidStock(t.stock) && Placeable(o, t.stock) && NothingLost(t, initial)
    ensures NothingLost(Placed(t, o).0, initial)
    ensures Balanced(Placed(t, o).0, initial) <==> Balanced(t, initial) && Placed(t, o).1 != Failed
  {
    hide Placed;
    PlacingLosesNothing(t, o);
    var after := Placed(t, o).0;
    forall id | id in initial
      ensures after.stock[id] + Sold(after.lines, id) >= t.stock[id] + Sold(t.lines, id) >= initial[id]
    {
    }
    if Balanced(t, initial) {
      PlacingKeepsBalanceIffNotFailed(t, o, initial);
    } else {
      var id :| id in initial && t.stock[id] + Sold(t.lines, id) > initial[id];
      assert after.stock[id] + Sold(after.lines, id) > initial[id];
    }
  }

  lemma StockOfValid(t: Tables)
    requires ValidTables(t)
    ensures ValidStock(t.stock)
  {
  }

  lemma DistinctOrdersGetNoErrors(t0: Tables, calls: seq<Call>)
    requires ValidTables(t0) && AllAcceptable(t0, calls) && DistinctCalls(calls)
    ensures NoErrors(t0, calls, |calls|)
  {
    hide ValidTables, TablesAfter;
    forall k | 0 <= k < |calls| && calls[k].req.PlaceOrder?
      ensures ReplyTo(t0, calls, k) != Error
    {
      OneMoreCall(t0, calls, k);
      StockOfValid(TablesAfter(t0, calls[..k]));
      AllOrNothing(TablesAfter(t0, calls[..k]), calls[k].req.order);
    }
  }

  lemma SequentialServiceConserves(t0: Tables, calls: seq<Call>, initial: Stock)
    requires ValidTables(t0) && AllAcceptable(t0, calls) && DistinctCalls(calls) && Balanced(t0, initial)
    ensures Balanced(TablesAfter(t0, calls), initial)
  {
    DistinctOrdersGetNoErrors(t0, calls);
    BalancedIffNoErrors(t0, calls, |calls|, initial);
    assert calls[..|calls|] == calls;
  }

  /** At every moment of every run: the database has served the first m calls, all or all but the
      one in progress, and what is left and what was sold of each product add up to what there was
      exactly if none of their orders was answered with an error. */
  lemma BooksBalanceIffNoErrors(
      capacity: nat, n: nat, t0: Tables, actions: seq<Action>, s: State, initial: Stock) returns (m: nat)
    requires ValidTables(t0) && Balanced(t0, initial) && Run(capacity, Start(n, t0), actions, s)
    ensures AllAcceptable(t0, s.calls) && |s.replies| <= m <= |s.calls| && |s.calls| - 1 <= m
    ensures AllAcceptable(t0, s.calls[..m]) && s.tables == TablesAfter(t0, s.calls[..m])
    ensures ValidStock(s.tables.stock) && (Balanced(s.tables, initial) <==> NoErrors(t0, s.calls, m))
  {
    hide Run, Balanced, ValidTables, TablesAfter, NoErrors, NothingLost;
    RefinesSequentialService(capacity, n, t0, actions, s);
    m := if s.tables == TablesAfter(t0, s.calls) then |s.calls| else |s.calls| - 1;
    assert s.calls[..|s.calls|] == s.calls;
    BalancedIffNoErrors(t0, s.calls, m, initial);
    StockOfValid(TablesAfter(t0, s.calls[..m]));
  }

  /** So they always do when no order names a product twice. */
  lemma StockIsConservedUnderInterleaving(
      capacity: nat, n: nat, t0: Tables, actions: seq<Action>, s: State, initial: Stock)
    requires ValidTables(t0) && Balanced(t0, initial) && Run(capacity, Start(n, t0), actions, s)
    requires DistinctCalls(s.calls)
    ensures Balanced(s.tables, initial) && ValidStock(s.tables.stock)
  {
    hide Run, Balanced, ValidTables, TablesAfter, ReplyTo;
    var m := BooksBalanceIffNoErrors(capacity, n, t0, actions, s, initial);
    DistinctOrdersGetNoErrors(t0, s.calls);
    assert NoErrors(t0, s.calls, m);
  }
}

/** The connection rendezvous of `common/commWithFIFOs.c`: any number of clients post the paths
    of their two FIFOs into the one FIFO of the main server, under a file lock; the server takes
    the records one at a time, swaps the roles, opens both ends and acknowledges. A step is one
    system call, a read or write moving any positive number of bytes. */
module Rendezvous {
  import opened Bytes
  import opened Orders
  import opened Transport
  import opened Decimal
  import SqlText

  type Path = seq<byte>

  // ----------------------------------------------------------------------- paths

  const TMP: Path := [47, 116, 109, 112, 47]
  const OUT_SUFFIX: Path := [45, 111, 117, 116]
  const IN_SUFFIX: Path := [45, 105, 110]

  function OutPath(pid: int32): Path { TMP + Printed(pid) + OUT_SUFFIX }
  function InPath(pid: int32): Path { TMP + Printed(pid) + IN_SUFFIX }

  lemma Between(head: seq<byte>, middle: seq<byte>, tail: seq<byte>)
    ensures var all := head + middle + tail;
            middle == all[|head|..|all| - |tail|] && (tail != [] ==> all[|all| - 1] == tail[|tail| - 1])
  {
  }

  /** Distinct processes use four distinct FIFOs. */
  lemma PathsAreDistinct(p: int32, q: int32)
    ensures OutPath(p) != InPath(q)
    ensures p != q ==> OutPath(p) != OutPath(q) && InPath(p) != InPath(q)
    ensures CString(OutPath(p)) && CString(InPath(p))
  {
    hide Printed;
    Between(TMP, Printed(p), OUT_SUFFIX);
    Between(TMP, Printed(q), OUT_SUFFIX);
    Between(TMP, Printed(p), IN_SUFFIX);
    Between(TMP, Printed(q), IN_SUFFIX);
    if Printed(p) == Printed(q) {
      PrintedIsInjective(p, q);
    }
  }

  /** And this is how they are called. */
  lemma PathsAreNamed(pid: int32)
    ensures OutPath(pid) == SqlText.Ascii("/tmp/") + Printed(pid) + SqlText.Ascii("-out")
    ensures InPath(pid) == SqlText.Ascii("/tmp/") + Printed(pid) + SqlText.Ascii("-in")
  {
    hide Printed;
    assert SqlText.Ascii("/tmp/") == TMP && SqlText.Ascii("-out") == OUT_SUFFIX && SqlText.Ascii("-in") == IN_SUFFIX;
  }

  lemma {:induction false} PrintedIsShort(n: nat)
    ensures |Digits(n)| <= n / 10 + 1
  {
    if n >= 10 {
      PrintedIsShort(n / 10);
    }
  }

  /** The body of a record: each path with its terminating NUL. */
  function RecordBodies(pid: int32): (ms: seq<seq<byte>>)
    ensures |ms| == 2 && Sized(ms)
  {
    PrintedIsShort(Magnitude(pid));
    [OutPath(pid) + [0], InPath(pid) + [0]]
  }

  function Record(pid: int32): (b: seq<byte>)
    ensures b != []
  {
    Frames(RecordBodies(pid))
  }

  // ---------------------------------------------------------------------- the system

  /** A client of `conn_open`: before step 1, with its FIFOs made, with its in FIFO open for
      reading, holding the lock, waiting, acknowledged, connected. */
  datatype Client = Fresh | Created | Listening | Posting(sent: nat) | Waiting | Acknowledged | Connected

  /** One end of an accepted connection: where the server reads and where it writes. */
  datatype Conn = Conn(inPath: Path, outPath: Path)

  /** The main server in `conn_accept`. */
  datatype Server = Taking(got: seq<byte>) | OpeningIn(conn: Conn) | OpeningOut(conn: Conn) | Acking(conn: Conn)

  /** `readers` and `writers` are the FIFOs some process has opened for reading and for writing,
      `acks` those with an unread acknowledgement in them. `posted` is history: the clients in
      the order they took the lock. */
  datatype State = State(
    clients: seq<Client>, lock: Option<nat>, fifo: seq<byte>, server: Server, accepted: seq<Conn>,
    readers: set<Path>, writers: set<Path>, acks: set<Path>, posted: seq<nat>)

  datatype Action =
    | MakeFifos(j: nat) | OpenIn(j: nat) | TakeLock(j: nat) | Post(j: nat, n: nat) | Unlock(j: nat)
    | ReceiveAck(j: nat) | OpenOut(j: nat)
    | Take(n: nat) | ServerOpenIn | ServerOpenOut | SendAck

  ghost predicate Enabled(capacity: nat, pids: seq<int32>, s: State, a: Action)
    requires |s.clients| == |pids|
  {
    match a
    case MakeFifos(j) => j < |pids| && s.clients[j].Fresh?
    case OpenIn(j) => j < |pids| && s.clients[j].Created?
    case TakeLock(j) => j < |pids| && s.clients[j].Listening? && s.lock.None?
    case Post(j, n) =>
      && j < |pids| && s.clients[j].Posting? && 0 < n
      && var sent := s.clients[j].sent;
      && sent + n <= |Record(pids[j])| && sent + n <= FramesNext(Record(pids[j])[..sent], 2)
      && |s.fifo| + n <= capacity
    case Unlock(j) => j < |pids| && s.clients[j].Posting? && s.clients[j].sent == |Record(pids[j])|
    case ReceiveAck(j) => j < |pids| && s.clients[j].Waiting? && InPath(pids[j]) in s.acks
    case OpenOut(j) => j < |pids| && s.clients[j].Acknowledged?
    case Take(n) => s.server.Taking? && 0 < n <= |s.fifo| && |s.server.got| + n <= FramesNext(s.server.got, 2)
    case ServerOpenIn => s.server.OpeningIn?
    case ServerOpenOut => s.server.OpeningOut?
    case SendAck => s.server.Acking?
  }

  /** The roles swapped: the client's out path is where the server reads. */
  function ConnOf(bodies: seq<seq<byte>>): Conn
    requires |bodies| == 2
  {
    Conn(PathOf(bodies[0]), PathOf(bodies[1]))
  }

  function PathOf(body: seq<byte>): Path {
    if body == [] then [] else body[..|body| - 1]
  }

  /** The server goes on reading until it has the record, whose paths it then opens. */
  function AfterReading(got: seq<byte>): Server {
    if |got| < FramesNext(got, 2) then Taking(got) else
    match ParseFrames(got, 2)
    case Some(bodies) => if |bodies| == 2 then OpeningIn(ConnOf(bodies)) else Taking(got)
    case None => Taking(got)
  }

  ghost function Apply(capacity: nat, pids: seq<int32>, s: State, a: Action): (t: State)
    requires |s.clients| == |pids| && Enabled(capacity, pids, s, a)
    ensures |t.clients| == |pids|
  {
    match a
    case MakeFifos(j) => s.(clients := s.clients[j := Created])
    case OpenIn(j) => s.(clients := s.clients[j := Listening], readers := s.readers + {InPath(pids[j])})
    case TakeLock(j) => s.(clients := s.clients[j := Posting(0)], lock := Some(j), posted := s.posted + [j])
    case Post(j, n) =>
      var sent := s.clients[j].sent;
      s.(clients := s.clients[j := Posting(sent + n)], fifo := s.fifo + Record(pids[j])[sent..sent + n])
    case Unlock(j) => s.(clients := s.clients[j := Waiting], lock := None)
    case ReceiveAck(j) => s.(clients := s.clients[j := Acknowledged], acks := s.acks - {InPath(pids[j])})
    case OpenOut(j) => s.(clients := s.clients[j := Connected], writers := s.writers + {OutPath(pids[j])})
    case Take(n) =>
      s.(fifo := s.fifo[n..], server := AfterReading(s.server.got + s.fifo[..n]))
    case ServerOpenIn => s.(server := OpeningOut(s.server.conn), readers := s.readers + {s.server.conn.inPath})
    case ServerOpenOut => s.(server := Acking(s.server.conn), writers := s.writers + {s.server.conn.outPath})
    case SendAck =>
      s.(server := Taking([]), acks := s.acks + {s.server.conn.outPath}, accepted := s.accepted + [s.server.conn])
  }

  function Start(n: nat): State {
    State(seq(n, _ => Fresh), None, [], Taking([]), [], {}, {}, {}, [])
  }

  ghost predicate Run(capacity: nat, pids: seq<int32>, s: State, actions: seq<Action>, t: State)
    requires |s.clients| == |pids|
    decreases |actions|
  {
    if actions == [] then s == t
    else Enabled(capacity, pids, s, actions[0])
         && Run(capacity, pids, Apply(capacity, pids, s, actions[0]), actions[1..], t)
  }

  predicate DistinctPids(pids: seq<int32>) {
    forall j, k :: 0 <= j < k < |pids| ==> pids[j] != pids[k]
  }

  // ------------------------------------------------------------------ the invariant

  /** What a sequence of clients posts, record after record. */
  function Wire(pids: seq<int32>, posted: seq<nat>): seq<byte>
    requires forall k :: 0 <= k < |posted| ==> posted[k] < |pids|
  {
    if posted == [] then [] else Record(pids[posted[0]]) + Wire(pids, posted[1..])
  }

  /** The records the server has taken whole. */
  function Taken(s: State): nat {
    |s.accepted| + if s.server.Taking? then 0 else 1
  }

  function Partial(s: State): seq<byte> {
    if s.server.Taking? then s.server.got else []
  }

  /** What the lock holder has still to write of its record. */
  function Unwritten(pids: seq<int32>, s: State): seq<byte> {
    if s.lock.Some? && s.lock.value < |s.clients| == |pids| && s.clients[s.lock.value].Posting?
       && s.clients[s.lock.value].sent <= |Record(pids[s.lock.value])|
    then Record(pids[s.lock.value])[s.clients[s.lock.value].sent..] else []
  }

  predicate HasPosted(c: Client) {
    c.Posting? || c.Waiting? || c.Acknowledged? || c.Connected?
  }

  function AcceptedFrom(pid: int32): Conn {
    Conn(OutPath(pid), InPath(pid))
  }

  ghost predicate Indexed(pids: seq<int32>, s: State) {
    && |s.clients| == |pids|
    && (forall k :: 0 <= k < |s.posted| ==> s.posted[k] < |pids|)
    && Taken(s) <= |s.posted|
  }

  /** Everybody posts once and the lock is held by the one that posts. */
  ghost predicate PostsInv(pids: seq<int32>, s: State)
    requires Indexed(pids, s)
  {
    && (forall j, k :: 0 <= j < k < |s.posted| ==> s.posted[j] != s.posted[k])
    && (forall j :: 0 <= j < |pids| ==> (HasPosted(s.clients[j]) <==> j in s.posted))
    && (forall j :: 0 <= j < |pids| ==> (s.clients[j].Posting? <==> s.lock == Some(j)))
    && (s.lock.Some? ==>
          && s.lock.value < |pids| && s.posted != [] && s.posted[|s.posted| - 1] == s.lock.value
          && s.clients[s.lock.value].sent <= |Record(pids[s.lock.value])|)
  }

  /** The stream: what the server has of the next record, what is in the FIFO and what the lock
      holder has still to write are the records not yet taken, in the order of posting. */
  ghost predicate StreamInv(pids: seq<int32>, s: State)
    requires Indexed(pids, s)
  {
    && Partial(s) + s.fifo + Unwritten(pids, s) == Wire(pids, s.posted[Taken(s)..])
    && (Taken(s) < |s.posted| ==> |Partial(s)| < |Record(pids[s.posted[Taken(s)]])|)
  }

  ghost predicate ServerInv(pids: seq<int32>, s: State)
    requires Indexed(pids, s)
  {
    && (forall k :: 0 <= k < |s.accepted| ==> s.accepted[k] == AcceptedFrom(pids[s.posted[k]]))
    && (!s.server.Taking? ==> s.server.conn == AcceptedFrom(pids[s.posted[|s.accepted|]]))
  }

  /** Who has opened what. */
  ghost predicate OpensInv(pids: seq<int32>, s: State)
    requires Indexed(pids, s)
  {
    && (forall j :: 0 <= j < |pids| && !s.clients[j].Fresh? && !s.clients[j].Created? ==> InPath(pids[j]) in s.readers)
    && (forall j :: 0 <= j < |pids| && s.clients[j].Connected? ==> OutPath(pids[j]) in s.writers)
    && (forall k :: 0 <= k < |s.accepted| ==>
          OutPath(pids[s.posted[k]]) in s.readers && InPath(pids[s.posted[k]]) in s.writers)
    && (s.server.OpeningOut? || s.server.Acking? ==> OutPath(pids[s.posted[|s.accepted|]]) in s.readers)
    && (s.server.Acking? ==> InPath(pids[s.posted[|s.accepted|]]) in s.writers)
  }

  predicate Acked(c: Client) {
    c.Acknowledged? || c.Connected?
  }

  /** An acknowledgement is on its way, or has arrived, exactly at the clients accepted. */
  ghost predicate AcksInv(pids: seq<int32>, s: State)
    requires Indexed(pids, s)
  {
    && (forall j :: 0 <= j < |pids| && (InPath(pids[j]) in s.acks || Acked(s.clients[j]))
          ==> j in s.posted[..|s.accepted|])
    && (forall k :: 0 <= k < |s.accepted| ==> InPath(pids[s.posted[k]]) in s.acks || Acked(s.clients[s.posted[k]]))
  }

  ghost predicate Inv(pids: seq<int32>, s: State) {
    Indexed(pids, s) && PostsInv(pids, s) && StreamInv(pids, s) && ServerInv(pids, s) && OpensInv(pids, s)
    && AcksInv(pids, s)
  }

  // -------------------------------------------------------------------- stream facts

  lemma {:induction false} WireGrows(pids: seq<int32>, posted: seq<nat>, j: nat)
    requires j < |pids| && forall k :: 0 <= k < |posted| ==> posted[k] < |pids|
    ensures Wire(pids, posted + [j]) == Wire(pids, posted) + Record(pids[j])
  {
    hide Record;
    if posted == [] {
      assert (posted + [j])[1..] == [];
      assert Wire(pids, posted + [j]) == Record(pids[j]) + Wire(pids, []);
    } else {
      WireGrows(pids, posted[1..], j);
      assert (posted + [j])[1..] == posted[1..] + [j];
    }
  }

  lemma WireHead(pids: seq<int32>, posted: seq<nat>, d: nat)
    requires d < |posted| && forall k :: 0 <= k < |posted| ==> posted[k] < |pids|
    ensures Wire(pids, posted[d..]) == Record(pids[posted[d]]) + Wire(pids, posted[d + 1..])
  {
  }

  lemma RecordDelimits(pid: int32, k: nat)
    requires k <= |Record(pid)|
    ensures k < |Record(pid)| ==> k < FramesNext(Record(pid)[..k], 2) <= |Record(pid)|
    ensures k == |Record(pid)| ==> FramesNext(Record(pid)[..k], 2) == k
    ensures ParseFrames(Record(pid), 2) == Some(RecordBodies(pid))
    ensures ConnOf(RecordBodies(pid)) == AcceptedFrom(pid)
  {
    hide FramesNext, Frames, ParseFrames, OutPath, InPath;
    FramesDelimit(RecordBodies(pid), k);
    ParseFramesRoundTrip(RecordBodies(pid));
    assert RecordBodies(pid) == [OutPath(pid) + [0], InPath(pid) + [0]];
    assert (OutPath(pid) + [0])[..|OutPath(pid)|] == OutPath(pid);
    assert (InPath(pid) + [0])[..|InPath(pid)|] == InPath(pid);
  }

  // ------------------------------------------------------------- every step keeps it

  lemma NothingPosted(pids: seq<int32>, posted: seq<nat>)
    requires posted == []
    ensures Wire(pids, posted) == []
  {
  }

  lemma PostsKept(capacity: nat, pids: seq<int32>, s: State, a: Action)
    requires Indexed(pids, s) && PostsInv(pids, s) && Enabled(capacity, pids, s, a)
      && Indexed(pids, Apply(capacity, pids, s, a))
    ensures PostsInv(pids, Apply(capacity, pids, s, a))
  {
    hide Record, FramesNext, ParseFrames, InPath, OutPath, Taken;
    if a.TakeLock? {
      assert !HasPosted(s.clients[a.j]);
    }
  }

  lemma PostKeepsStream(capacity: nat, pids: seq<int32>, s: State, j: nat, n: nat)
    requires Indexed(pids, s) && PostsInv(pids, s) && StreamInv(pids, s) && Enabled(capacity, pids, s, Post(j, n))
    ensures Indexed(pids, Apply(capacity, pids, s, Post(j, n))) && StreamInv(pids, Apply(capacity, pids, s, Post(j, n)))
  {
    hide Record, FramesNext, Wire;
    var t := Apply(capacity, pids, s, Post(j, n));
    var b, sent := Record(pids[j]), s.clients[j].sent;
    assert s.lock == Some(j);
    assert b[sent..sent + n] + b[sent + n..] == b[sent..];
    assert Partial(t) + t.fifo + Unwritten(pids, t) == Partial(s) + s.fifo + Unwritten(pids, s);
  }

  lemma TakeLockKeepsStream(capacity: nat, pids: seq<int32>, s: State, j: nat)
    requires Indexed(pids, s) && PostsInv(pids, s) && StreamInv(pids, s) && Enabled(capacity, pids, s, TakeLock(j))
    ensures Indexed(pids, Apply(capacity, pids, s, TakeLock(j)))
      && StreamInv(pids, Apply(capacity, pids, s, TakeLock(j)))
  {
    hide Record, FramesNext, Wire;
    var t := Apply(capacity, pids, s, TakeLock(j));
    var d := Taken(s);
    assert t.posted[d..] == s.posted[d..] + [j];
    WireGrows(pids, s.posted[d..], j);
    assert Record(pids[j])[0..] == Record(pids[j]);
    assert Partial(t) + t.fifo + Unwritten(pids, t) == Partial(s) + s.fifo + Unwritten(pids, s) + Record(pids[j]);
    if d == |s.posted| {
      NothingPosted(pids, s.posted[d..]);
      assert Partial(s) == [];
    }
  }

  /** The server's partial record is a prefix of the next one posted, so a read that completes
      it yields exactly that client's two paths. */
  lemma TakeIsInOrder(capacity: nat, pids: seq<int32>, s: State, n: nat)
    requires Indexed(pids, s) && StreamInv(pids, s) && Enabled(capacity, pids, s, Take(n))
    ensures Taken(s) < |s.posted|
    ensures var b, got := Record(pids[s.posted[Taken(s)]]), s.server.got + s.fifo[..n];
            && |got| <= |b|
            && Apply(capacity, pids, s, Take(n)) == s.(fifo := s.fifo[n..], server :=
                 if |got| == |b| then OpeningIn(AcceptedFrom(pids[s.posted[Taken(s)]])) else Taking(got))
            && got + (s.fifo[n..] + Unwritten(pids, s)) == b + Wire(pids, s.posted[Taken(s) + 1..])
  {
    hide Record, FramesNext, AfterReading, Wire, AcceptedFrom, Unwritten, Apply, Enabled, PathOf, RecordBodies,
         OutPath, InPath, ConnOf, Partial;
    assert Partial(s) == s.server.got by { TakeApplied(capacity, pids, s, n); WhileTaking(s); }
    TakeApplied(capacity, pids, s, n);
    var d := Taken(s);
    if d == |s.posted| {
      NothingPosted(pids, s.posted[d..]);
      assert false;
    }
    WireHead(pids, s.posted, d);
    var b, rest := Record(pids[s.posted[d]]), Wire(pids, s.posted[d + 1..]);
    var got := s.server.got + s.fifo[..n];
    Regrouped(s.server.got, s.fifo, Unwritten(pids, s), n);
    PrefixOfFirst(s.server.got, b, rest);
    RecordDelimits(pids[s.posted[d]], |s.server.got|);
    PrefixOfFirst(got, b, rest);
    RecordIsRead(pids[s.posted[d]], |got|);
  }

  lemma WhileTaking(s: State)
    requires s.server.Taking?
    ensures Partial(s) == s.server.got
  {
  }

  lemma TakeApplied(capacity: nat, pids: seq<int32>, s: State, n: nat)
    requires |s.clients| == |pids| && Enabled(capacity, pids, s, Take(n))
    ensures s.server.Taking? && 0 < n <= |s.fifo| && |s.server.got| + n <= FramesNext(s.server.got, 2)
    ensures Apply(capacity, pids, s, Take(n))
         == s.(fifo := s.fifo[n..], server := AfterReading(s.server.got + s.fifo[..n]))
  {
    hide FramesNext, AfterReading;
  }

  /** Reading a record to its end opens its paths, and reading less goes on. */
  lemma RecordIsRead(pid: int32, k: nat)
    requires k <= |Record(pid)|
    ensures AfterReading(Record(pid)[..k])
         == if k == |Record(pid)| then OpeningIn(AcceptedFrom(pid)) else Taking(Record(pid)[..k])
  {
    hide Record, FramesNext, ParseFrames, AcceptedFrom, ConnOf;
    RecordDelimits(pid, k);
    WholePrefix(Record(pid));
  }

  lemma PrefixOfFirst(x: seq<byte>, b: seq<byte>, rest: seq<byte>)
    requires |x| <= |b + rest| && x == (b + rest)[..|x|]
    ensures |x| <= |b| ==> x == b[..|x|]
  {
  }

  lemma WholePrefix(b: seq<byte>)
    ensures b[..|b|] == b
  {
  }

  lemma TakeKeepsStream(capacity: nat, pids: seq<int32>, s: State, n: nat)
    requires Indexed(pids, s) && StreamInv(pids, s) && Enabled(capacity, pids, s, Take(n))
    ensures Indexed(pids, Apply(capacity, pids, s, Take(n))) && StreamInv(pids, Apply(capacity, pids, s, Take(n)))
  {
    hide Record, FramesNext, ParseFrames, Wire, AcceptedFrom;
    TakeIsInOrder(capacity, pids, s, n);
    var t := Apply(capacity, pids, s, Take(n));
    var got := s.server.got + s.fifo[..n];
    assert Unwritten(pids, t) == Unwritten(pids, s);
    if t.server.Taking? {
      WireHead(pids, s.posted, Taken(s));
      assert got + t.fifo + Unwritten(pids, t) == got + (s.fifo[n..] + Unwritten(pids, s));
    } else {
      var b := Record(pids[s.posted[Taken(s)]]);
      SameHead(got, s.fifo[n..] + Unwritten(pids, s), b, Wire(pids, s.posted[Taken(s) + 1..]));
      assert [] + t.fifo + Unwritten(pids, t) == s.fifo[n..] + Unwritten(pids, s);
    }
  }

  lemma SameHead(x: seq<byte>, y: seq<byte>, b: seq<byte>, rest: seq<byte>)
    requires x + y == b + rest && |x| == |b|
    ensures x == b && y == rest
  {
    assert x == (x + y)[..|x|] && b == (b + rest)[..|b|];
    assert y == (x + y)[|x|..] && rest == (b + rest)[|b|..];
  }

  lemma StreamKept(capacity: nat, pids: seq<int32>, s: State, a: Action)
    requires Indexed(pids, s) && PostsInv(pids, s) && StreamInv(pids, s) && Enabled(capacity, pids, s, a)
    ensures Indexed(pids, Apply(capacity, pids, s, a)) && StreamInv(pids, Apply(capacity, pids, s, a))
  {
    hide Record, FramesNext, Wire, ParseFrames, InPath, OutPath;
    match a
    case TakeLock(j) => TakeLockKeepsStream(capacity, pids, s, j);
    case Post(j, n) => PostKeepsStream(capacity, pids, s, j, n);
    case Take(n) => TakeKeepsStream(capacity, pids, s, n);
    case Unlock(j) =>
      assert s.lock == Some(j) && Unwritten(pids, s) == [];
    case _ =>
      assert Unwritten(pids, Apply(capacity, pids, s, a)) == Unwritten(pids, s);
  }

  lemma ServerKept(capacity: nat, pids: seq<int32>, s: State, a: Action)
    requires Indexed(pids, s) && StreamInv(pids, s) && ServerInv(pids, s) && Enabled(capacity, pids, s, a)
    requires Indexed(pids, Apply(capacity, pids, s, a))
    ensures ServerInv(pids, Apply(capacity, pids, s, a))
  {
    hide Record, FramesNext, StreamInv, ParseFrames, AcceptedFrom, InPath, OutPath;
    if a.Take? {
      TakeIsInOrder(capacity, pids, s, a.n);
    }
  }

  lemma OpensKept(capacity: nat, pids: seq<int32>, s: State, a: Action)
    requires Indexed(pids, s) && StreamInv(pids, s) && ServerInv(pids, s) && OpensInv(pids, s)
      && Enabled(capacity, pids, s, a)
    requires Indexed(pids, Apply(capacity, pids, s, a))
    ensures OpensInv(pids, Apply(capacity, pids, s, a))
  {
    hide Record, FramesNext, StreamInv, ParseFrames, InPath, OutPath;
    if a.Take? {
      TakeIsInOrder(capacity, pids, s, a.n);
    }
  }

  lemma AckIsReceived(capacity: nat, pids: seq<int32>, s: State, j: nat)
    requires DistinctPids(pids) && Indexed(pids, s) && AcksInv(pids, s) && Enabled(capacity, pids, s, ReceiveAck(j))
    ensures AcksInv(pids, Apply(capacity, pids, s, ReceiveAck(j)))
  {
    hide Record, FramesNext, ParseFrames, InPath, OutPath;
    var t := Apply(capacity, pids, s, ReceiveAck(j));
    forall k | 0 <= k < |pids| && k != j
      ensures InPath(pids[k]) in t.acks <==> InPath(pids[k]) in s.acks
    {
      InPathsDiffer(pids, j, k);
    }
  }

  lemma AckIsSent(capacity: nat, pids: seq<int32>, s: State)
    requires DistinctPids(pids) && Indexed(pids, s) && ServerInv(pids, s) && AcksInv(pids, s)
    requires Enabled(capacity, pids, s, SendAck)
    ensures Indexed(pids, Apply(capacity, pids, s, SendAck)) && AcksInv(pids, Apply(capacity, pids, s, SendAck))
  {
    hide Record, FramesNext, ParseFrames, InPath, OutPath;
    var t := Apply(capacity, pids, s, SendAck);
    var d := |s.accepted|;
    assert t.posted[..d + 1] == s.posted[..d] + [s.posted[d]];
    forall k | 0 <= k < |pids| && k != s.posted[d]
      ensures InPath(pids[k]) in t.acks <==> InPath(pids[k]) in s.acks
    {
      InPathsDiffer(pids, s.posted[d], k);
    }
  }

  lemma AcksKept(capacity: nat, pids: seq<int32>, s: State, a: Action)
    requires DistinctPids(pids) && Indexed(pids, s) && StreamInv(pids, s) && ServerInv(pids, s) && AcksInv(pids, s)
    requires PostsInv(pids, s) && Enabled(capacity, pids, s, a)
    requires Indexed(pids, Apply(capacity, pids, s, a))
    ensures AcksInv(pids, Apply(capacity, pids, s, a))
  {
    hide Record, FramesNext, ParseFrames, InPath, OutPath, ServerInv, StreamInv;
    if a.ReceiveAck? {
      AckIsReceived(capacity, pids, s, a.j);
    } else if a.SendAck? {
      AckIsSent(capacity, pids, s);
    } else if a.TakeLock? {
      TakeLockKeepsAcks(capacity, pids, s, a.j);
    } else if a.Take? {
      TakeIsInOrder(capacity, pids, s, a.n);
    }
  }

  lemma TakeLockKeepsAcks(capacity: nat, pids: seq<int32>, s: State, j: nat)
    requires Indexed(pids, s) && PostsInv(pids, s) && AcksInv(pids, s) && Enabled(capacity, pids, s, TakeLock(j))
    requires Indexed(pids, Apply(capacity, pids, s, TakeLock(j)))
    ensures AcksInv(pids, Apply(capacity, pids, s, TakeLock(j)))
  {
    hide Record, FramesNext, ParseFrames, InPath, OutPath;
    var t := Apply(capacity, pids, s, TakeLock(j));
    assert t.posted[..|s.accepted|] == s.posted[..|s.accepted|];
    assert !HasPosted(s.clients[j]);
  }

  lemma InPathsDiffer(pids: seq<int32>, j: nat, k: nat)
    requires DistinctPids(pids) && j < |pids| && k < |pids| && j != k
    ensures InPath(pids[k]) != InPath(pids[j])
  {
    assert pids[k] != pids[j] by {
      if j < k { } else { }
    }
    PathsAreDistinct(pids[k], pids[j]);
  }

  lemma StepKeepsInv(capacity: nat, pids: seq<int32>, s: State, a: Action)
    requires DistinctPids(pids) && Inv(pids, s) && Enabled(capacity, pids, s, a)
    ensures Inv(pids, Apply(capacity, pids, s, a))
  {
    hide PostsInv, StreamInv, ServerInv, OpensInv, AcksInv, Enabled, Apply;
    StreamKept(capacity, pids, s, a);
    PostsKept(capacity, pids, s, a);
    ServerKept(capacity, pids, s, a);
    OpensKept(capacity, pids, s, a);
    AcksKept(capacity, pids, s, a);
  }

  lemma {:induction false} RunKeepsInv(capacity: nat, pids: seq<int32>, s: State, actions: seq<Action>, t: State)
    requires DistinctPids(pids) && Inv(pids, s) && Run(capacity, pids, s, actions, t)
    ensures Inv(pids, t)
    decreases |actions|
  {
    hide PostsInv, StreamInv, ServerInv, OpensInv, AcksInv, Enabled, Apply;
    if actions != [] {
      StepKeepsInv(capacity, pids, s, actions[0]);
      RunKeepsInv(capacity, pids, Apply(capacity, pids, s, actions[0]), actions[1..], t);
    }
  }

  lemma StartInv(pids: seq<int32>)
    ensures Inv(pids, Start(|pids|))
  {
  }

  // ------------------------------------------------------------------ the theorems

  lemma ReachableInv(capacity: nat, pids: seq<int32>, actions: seq<Action>, s: State)
    requires DistinctPids(pids) && Run(capacity, pids, Start(|pids|), actions, s)
    ensures Inv(pids, s)
  {
    hide Run, Inv;
    StartInv(pids);
    RunKeepsInv(capacity, pids, Start(|pids|), actions, s);
  }

  /** With the FIFO goes what the server has read of its current record: together they are whole
      records in the order of posting, and after them at most the part that the client holding
      the lock has written of its own. They are empty when the server has that record already. */
  lemma FifoHoldsWholeRecords(capacity: nat, pids: seq<int32>, actions: seq<Action>, s: State)
    requires DistinctPids(pids) && Run(capacity, pids, Start(|pids|), actions, s)
    ensures Indexed(pids, s)
    ensures s.lock.None? ==> Partial(s) + s.fifo == Wire(pids, s.posted[Taken(s)..])
    ensures s.lock.Some? && Taken(s) == |s.posted| ==> Partial(s) == [] && s.fifo == []
    ensures s.lock.Some? && Taken(s) < |s.posted| ==>
              && s.posted[|s.posted| - 1] == s.lock.value < |s.clients|
              && s.clients[s.lock.value].Posting? && s.clients[s.lock.value].sent <= |Record(pids[s.lock.value])|
              && Partial(s) + s.fifo == Wire(pids, s.posted[Taken(s)..|s.posted| - 1])
                                        + Record(pids[s.lock.value])[..s.clients[s.lock.value].sent]
  {
    hide Run, Record, Wire, ServerInv, OpensInv, AcksInv;
    ReachableInv(capacity, pids, actions, s);
    var written, d := Partial(s) + s.fifo, Taken(s);
    if s.lock.None? {
      assert written + Unwritten(pids, s) == written;
    } else if d < |s.posted| {
      var n, j := |s.posted| - 1, s.lock.value;
      WireGrows(pids, s.posted[d..n], j);
      assert s.posted[d..n] + [j] == s.posted[d..];
      CancelTail(written, Wire(pids, s.posted[d..n]), Record(pids[j]), s.clients[j].sent);
    } else {
      NothingPosted(pids, s.posted[d..]);
    }
  }

  lemma CancelTail(x: seq<byte>, y: seq<byte>, b: seq<byte>, k: nat)
    requires k <= |b| && x + b[k..] == y + b
    ensures x == y + b[..k]
  {
    assert b == b[..k] + b[k..];
    assert y + b == (y + b[..k]) + b[k..];
    assert |x| == |y + b[..k]|;
    assert x == (x + b[k..])[..|x|];
  }

  /** Each accepted connection is one client's with the roles swapped, in the order of posting;
      no two accepted connections share a FIFO; and a connected client has been accepted. */
  lemma AcceptedConnectionsArePaired(capacity: nat, pids: seq<int32>, actions: seq<Action>, s: State)
    requires DistinctPids(pids) && Run(capacity, pids, Start(|pids|), actions, s)
    ensures |s.clients| == |pids| && |s.accepted| <= |s.posted|
    ensures forall k :: 0 <= k < |s.accepted| ==>
              s.posted[k] < |pids| && s.accepted[k] == Conn(OutPath(pids[s.posted[k]]), InPath(pids[s.posted[k]]))
    ensures forall k, m :: 0 <= k < m < |s.accepted| ==>
              && s.accepted[k].inPath != s.accepted[m].inPath && s.accepted[k].outPath != s.accepted[m].outPath
              && s.accepted[k].inPath != s.accepted[m].outPath && s.accepted[k].outPath != s.accepted[m].inPath
    ensures forall j :: 0 <= j < |pids| && s.clients[j].Connected? ==>
              Conn(OutPath(pids[j]), InPath(pids[j])) in s.accepted
  {
    hide Run, StreamInv, OpensInv, OutPath, InPath;
    ReachableInv(capacity, pids, actions, s);
    forall k, m | 0 <= k < m < |s.accepted|
      ensures s.accepted[k].inPath != s.accepted[m].inPath && s.accepted[k].outPath != s.accepted[m].outPath
      ensures s.accepted[k].inPath != s.accepted[m].outPath && s.accepted[k].outPath != s.accepted[m].inPath
    {
      var p, q := pids[s.posted[k]], pids[s.posted[m]];
      assert p != q;
      PathsAreDistinct(p, q);
      PathsAreDistinct(q, p);
    }
    forall j | 0 <= j < |pids| && s.clients[j].Connected?
      ensures Conn(OutPath(pids[j]), InPath(pids[j])) in s.accepted
    {
      assert Acked(s.clients[j]);
      var k :| 0 <= k < |s.accepted| && s.posted[..|s.accepted|][k] == j;
      assert s.accepted[k] == AcceptedFrom(pids[j]);
    }
  }

  /** Nobody opens a FIFO for writing before its peer has opened it for reading, so the server's
      open does not fail and the client's does not block. A connected pair is open both ways. */
  lemma WritersFindReaders(capacity: nat, pids: seq<int32>, actions: seq<Action>, s: State)
    requires DistinctPids(pids) && Run(capacity, pids, Start(|pids|), actions, s)
    ensures |s.clients| == |pids|
    ensures s.server.OpeningOut? ==> s.server.conn.outPath in s.readers
    ensures forall j :: 0 <= j < |pids| && s.clients[j].Acknowledged? ==> OutPath(pids[j]) in s.readers
    ensures forall j :: 0 <= j < |pids| && s.clients[j].Connected? ==>
              {InPath(pids[j]), OutPath(pids[j])} <= s.readers * s.writers
  {
    hide Run, StreamInv, OutPath, InPath;
    ReachableInv(capacity, pids, actions, s);
    if s.server.OpeningOut? {
      var j := s.posted[|s.accepted|];
      assert j in s.posted && HasPosted(s.clients[j]);
    }
    forall j | 0 <= j < |pids| && Acked(s.clients[j])
      ensures OutPath(pids[j]) in s.readers && InPath(pids[j]) in s.writers
    {
      var k :| 0 <= k < |s.accepted| && s.posted[..|s.accepted|][k] == j;
      assert s.posted[k] == j;
    }
  }

  // ----------------------------------------------------------------------- progress

  /** Steps and bytes a client has before it. */
  function ClientWork(pid: int32, c: Client): int {
    match c
    case Fresh => 2 * |Record(pid)| + 6
    case Created => 2 * |Record(pid)| + 5
    case Listening => 2 * |Record(pid)| + 4
    case Posting(sent) => 2 * (|Record(pid)| - sent) + 3
    case Waiting => 2
    case Acknowledged => 1
    case Connected => 0
  }

  function AllWork(pids: seq<int32>, clients: seq<Client>): int
    requires |pids| == |clients|
  {
    if pids == [] then 0 else ClientWork(pids[0], clients[0]) + AllWork(pids[1..], clients[1..])
  }

  function ServerWork(s: Server): nat {
    match s
    case Taking(_) => 3
    case OpeningIn(_) => 3
    case OpeningOut(_) => 2
    case Acking(_) => 1
  }

  function WorkLeft(pids: seq<int32>, s: State): int
    requires |s.clients| == |pids|
  {
    AllWork(pids, s.clients) + |s.fifo| + 3 * (|pids| - |s.accepted|) + ServerWork(s.server)
  }

  lemma {:induction false} AllWorkOfUpdate(pids: seq<int32>, clients: seq<Client>, j: nat, c: Client)
    requires |pids| == |clients| && j < |pids|
    ensures AllWork(pids, clients[j := c])
         == AllWork(pids, clients) - ClientWork(pids[j], clients[j]) + ClientWork(pids[j], c)
  {
    hide ClientWork;
    if j == 0 {
      assert clients[0 := c][1..] == clients[1..];
    } else {
      AllWorkOfUpdate(pids[1..], clients[1..], j - 1, c);
      assert clients[j := c][1..] == clients[1..][j - 1 := c];
    }
  }

  lemma StepsUseUpWork(capacity: nat, pids: seq<int32>, s: State, a: Action)
    requires |s.clients| == |pids| && Enabled(capacity, pids, s, a)
    ensures WorkLeft(pids, Apply(capacity, pids, s, a)) < WorkLeft(pids, s)
  {
    hide Record, FramesNext, AllWork, ParseFrames;
    match a
    case MakeFifos(j) => AllWorkOfUpdate(pids, s.clients, j, Created);
    case OpenIn(j) => AllWorkOfUpdate(pids, s.clients, j, Listening);
    case TakeLock(j) => AllWorkOfUpdate(pids, s.clients, j, Posting(0));
    case Post(j, n) => AllWorkOfUpdate(pids, s.clients, j, Posting(s.clients[j].sent + n));
    case Unlock(j) => AllWorkOfUpdate(pids, s.clients, j, Waiting);
    case ReceiveAck(j) => AllWorkOfUpdate(pids, s.clients, j, Acknowledged);
    case OpenOut(j) => AllWorkOfUpdate(pids, s.clients, j, Connected);
    case _ =>
  }

  lemma {:induction false} RunUsesUpWork(capacity: nat, pids: seq<int32>, s: State, actions: seq<Action>, t: State)
    requires |s.clients| == |pids| && Run(capacity, pids, s, actions, t)
    ensures |t.clients| == |pids| && |actions| + WorkLeft(pids, t) <= WorkLeft(pids, s)
    decreases |actions|
  {
    hide Enabled, Apply, WorkLeft;
    if actions != [] {
      StepsUseUpWork(capacity, pids, s, actions[0]);
      RunUsesUpWork(capacity, pids, Apply(capacity, pids, s, actions[0]), actions[1..], t);
    }
  }

  lemma {:induction false} AllWorkIsNotNegative(pids: seq<int32>, clients: seq<Client>)
    requires |pids| == |clients|
    requires forall j :: 0 <= j < |pids| && clients[j].Posting? ==> clients[j].sent <= |Record(pids[j])|
    ensures AllWork(pids, clients) >= 0
  {
    hide Record;
    if pids != [] {
      AllWorkIsNotNegative(pids[1..], clients[1..]);
    }
  }

  function Below(n: nat): (r: set<nat>)
    ensures |r| == n
    ensures forall k: nat :: k in r <==> k < n
  {
    if n == 0 then {} else Below(n - 1) + {n - 1}
  }

  lemma {:induction false} PostedAtMostOnce(n: nat, posted: seq<nat>, seen: set<nat>)
    requires forall k :: 0 <= k < |posted| ==> posted[k] < n && posted[k] !in seen
    requires forall j, k :: 0 <= j < k < |posted| ==> posted[j] != posted[k]
    requires seen <= Below(n)
    ensures |seen| + |posted| <= n
    decreases |posted|
  {
    if posted == [] {
      SubsetIsSmaller(seen, Below(n));
    } else {
      PostedAtMostOnce(n, posted[1..], seen + {posted[0]});
    }
  }

  lemma {:induction false} SubsetIsSmaller(a: set<nat>, b: set<nat>)
    requires a <= b
    ensures |a| <= |b|
  {
    if a != {} {
      var x :| x in a;
      SubsetIsSmaller(a - {x}, b - {x});
    }
  }

  /** While some client is not connected somebody can take a step, however small the FIFO. */
  lemma SomeoneCanStep(capacity: nat, pids: seq<int32>, s: State, j: nat)
    requires capacity > 0 && DistinctPids(pids) && Inv(pids, s)
    requires j < |pids| && !s.clients[j].Connected?
    ensures exists a :: Enabled(capacity, pids, s, a)
  {
    hide Record, Wire, FramesNext, InPath, OutPath;
    match s.server
    case OpeningIn(_) => assert Enabled(capacity, pids, s, ServerOpenIn);
    case OpeningOut(_) => assert Enabled(capacity, pids, s, ServerOpenOut);
    case Acking(_) => assert Enabled(capacity, pids, s, SendAck);
    case Taking(got) =>
      if s.fifo != [] {
        TakeIsPossible(capacity, pids, s);
      } else if s.lock.Some? {
        HolderCanStep(capacity, pids, s);
      } else {
        match s.clients[j]
        case Fresh => assert Enabled(capacity, pids, s, MakeFifos(j));
        case Created => assert Enabled(capacity, pids, s, OpenIn(j));
        case Listening => assert Enabled(capacity, pids, s, TakeLock(j));
        case Acknowledged => assert Enabled(capacity, pids, s, OpenOut(j));
        case Posting(_) => assert false;
        case Waiting =>
          assert HasPosted(s.clients[j]);
          var k :| 0 <= k < |s.posted| && s.posted[k] == j;
          EverythingIsTaken(pids, s);
          assert Enabled(capacity, pids, s, ReceiveAck(j));
        case Connected =>
      }
  }

  lemma TakeIsPossible(capacity: nat, pids: seq<int32>, s: State)
    requires Indexed(pids, s) && StreamInv(pids, s) && s.server.Taking? && s.fifo != []
    ensures Enabled(capacity, pids, s, Take(1))
  {
    hide Record, Wire, FramesNext;
    var d := Taken(s);
    if d == |s.posted| {
      NothingPosted(pids, s.posted[d..]);
      assert false;
    }
    WireHead(pids, s.posted, d);
    var b, rest := Record(pids[s.posted[d]]), Wire(pids, s.posted[d + 1..]);
    Regrouped(s.server.got, s.fifo, Unwritten(pids, s), 0);
    PrefixOfFirst(s.server.got, b, rest);
    RecordDelimits(pids[s.posted[d]], |s.server.got|);
  }

  lemma HolderCanStep(capacity: nat, pids: seq<int32>, s: State)
    requires capacity > 0 && Indexed(pids, s) && PostsInv(pids, s) && s.lock.Some? && s.fifo == []
    ensures exists a :: Enabled(capacity, pids, s, a)
  {
    hide Record, FramesNext;
    var j := s.lock.value;
    RecordDelimits(pids[j], s.clients[j].sent);
    if s.clients[j].sent == |Record(pids[j])| {
      assert Enabled(capacity, pids, s, Unlock(j));
    } else {
      assert Enabled(capacity, pids, s, Post(j, 1));
    }
  }

  lemma EverythingIsTaken(pids: seq<int32>, s: State)
    requires Indexed(pids, s) && StreamInv(pids, s) && s.server.Taking? && s.fifo == [] && s.lock.None?
    ensures |s.accepted| == |s.posted|
  {
  }

  /** Every run connects everybody: no run is longer than the work there is at the start, and
      one that cannot be continued leaves every client connected. */
  lemma EveryRunConnectsEveryClient(capacity: nat, pids: seq<int32>, actions: seq<Action>, s: State)
    requires capacity > 0 && DistinctPids(pids) && Run(capacity, pids, Start(|pids|), actions, s)
    ensures |s.clients| == |pids| && |actions| <= WorkLeft(pids, Start(|pids|))
    ensures (forall a :: !Enabled(capacity, pids, s, a)) ==>
              forall j :: 0 <= j < |pids| ==> s.clients[j].Connected?
  {
    hide Run, Enabled, Record, StreamInv, OpensInv, ServerInv, AcksInv;
    ReachableInv(capacity, pids, actions, s);
    RunUsesUpWork(capacity, pids, Start(|pids|), actions, s);
    AllWorkIsNotNegative(pids, s.clients);
    PostedAtMostOnce(|pids|, s.posted, {});
    forall j | 0 <= j < |pids| && !s.clients[j].Connected?
      ensures exists a :: Enabled(capacity, pids, s, a)
    {
      SomeoneCanStep(capacity, pids, s, j);
    }
  }

  // ------------------------------------------------------- the calls themselves

  /** `sendFIFOPaths`, under the lock: a length and a path, twice. */
  method SendFifoPaths(pid: int32, fd: Pipe)
    requires fd.reliable
    modifies fd`data
    ensures fd.data == old(fd.data) + Record(pid)
  {
    hide Frame, OutPath, InPath;
    var out, inward := OutPath(pid) + [0], InPath(pid) + [0];
    assert RecordBodies(pid) == [out, inward];
    assert |RecordBodies(pid)[0]| <= INT_MAX && |RecordBodies(pid)[1]| <= INT_MAX;
    var _ := EnsureWrite(SizeBytes(|out|), fd);
    var _ := EnsureWrite(out, fd);
    assert Frame(out) == SizeBytes(|out|) + out by { FrameIs(out); }
    var _ := EnsureWrite(SizeBytes(|inward|), fd);
    var _ := EnsureWrite(inward, fd);
    FrameIs(inward);
    TwoFrames(out, inward);
  }

  lemma TwoFrames(a: seq<byte>, b: seq<byte>)
    requires |a| <= INT_MAX && |b| <= INT_MAX
    ensures Frames([a, b]) == Frame(a) + Frame(b)
  {
    hide Frame;
    assert [a, b][1..] == [b] && [b][1..] == [];
    assert Frames([b]) == Frame(b) + Frames([]);
  }

  lemma FrameIs(m: seq<byte>)
    requires |m| <= INT_MAX
    ensures Frame(m) == SizeBytes(|m|) + m
  {
  }

  /** A record is the out path and the in path of the process, each behind its length and with its NUL. */
  lemma RecordLayout(pid: int32)
    ensures var out, inward := OutPath(pid) + [0], InPath(pid) + [0];
            && |out| <= INT_MAX && |inward| <= INT_MAX
            && Record(pid) == SizeBytes(|out|) + out + SizeBytes(|inward|) + inward
  {
    hide Frame, OutPath, InPath;
    var out, inward := OutPath(pid) + [0], InPath(pid) + [0];
    assert RecordBodies(pid) == [out, inward];
    assert |RecordBodies(pid)[0]| <= INT_MAX && |RecordBodies(pid)[1]| <= INT_MAX;
    TwoFrames(out, inward);
    FrameIs(out);
    FrameIs(inward);
  }

  /** The reads of `conn_accept`: the client's out path becomes the in path, and the other way. */
  method ReadConnectionInfo(fd: Pipe, ghost pid: int32, ghost rest: seq<byte>) returns (conn: Conn)
    requires fd.reliable && fd.data == Record(pid) + rest
    modifies fd`data
    ensures conn == Conn(OutPath(pid), InPath(pid)) && fd.data == rest
  {
    hide Frame, OutPath, InPath;
    ghost var out, inward := OutPath(pid) + [0], InPath(pid) + [0];
    assert RecordBodies(pid) == [out, inward];
    assert |RecordBodies(pid)[0]| <= INT_MAX && |RecordBodies(pid)[1]| <= INT_MAX;
    TwoFrames(out, inward);
    assert fd.data == Frame(out) + (Frame(inward) + rest);
    var inPath := ReadPath(fd, out, Frame(inward) + rest);
    var outPath := ReadPath(fd, inward, rest);
    assert out[..|out| - 1] == OutPath(pid) && inward[..|inward| - 1] == InPath(pid);
    conn := Conn(PathOf(inPath), PathOf(outPath));
  }

  method ReadPath(fd: Pipe, ghost m: seq<byte>, ghost rest: seq<byte>) returns (path: seq<byte>)
    requires |m| <= INT_MAX && fd.reliable && fd.data == Frame(m) + rest
    modifies fd`data
    ensures path == m && fd.data == rest
  {
    hide Frame;
    FrameHead(m, rest);
    var _, len := EnsureReadSize(fd);
    var buffer := new byte[len];
    var _ := EnsureRead(buffer, len, fd);
    assert (Frame(m) + rest)[8..][..len] == m && (Frame(m) + rest)[8..][len..] == rest;
    path := buffer[..len];
  }
}

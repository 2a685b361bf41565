/** `common/lib.c` and the framing of `common/commWithFIFOs.c`: exact reads and writes
    over a pipe that moves any positive number of bytes per call, and length-prefixed
    messages on top of them. */
module Transport {
  import opened Bytes

  // ------------------------------------------------------------------- frames

  /** Every message fits a `size_t` length and an `int` byte counter. */
  predicate Sized(ms: seq<seq<byte>>) {
    forall k :: 0 <= k < |ms| ==> |ms[k]| <= INT_MAX
  }

  function Frame(m: seq<byte>): (b: seq<byte>)
    requires |m| <= INT_MAX
    ensures |b| == 8 + |m|
  {
    SizeBytes(|m|) + m
  }

  function Frames(ms: seq<seq<byte>>): seq<byte>
    requires Sized(ms)
  {
    if ms == [] then [] else Frame(ms[0]) + Frames(ms[1..])
  }

  /** Where the read (or write) call in progress ends, for a process that has moved the
      bytes `q` of `n` frames: at the length field first, then at the body it announces. */
  function FramesNext(q: seq<byte>, n: nat): nat
    decreases n
  {
    if n == 0 then 0
    else if |q| < 8 then 8 else
    var end := 8 + SizeAt(q[..8]);
    if |q| < end then end else end + FramesNext(q[end..], n - 1)
  }

  /** The `n` messages a buffer consists of, or None where it is not exactly `n` frames. */
  function ParseFrames(q: seq<byte>, n: nat): Option<seq<seq<byte>>>
    decreases n
  {
    if n == 0 then (if q == [] then Some([]) else None)
    else if |q| < 8 then None else
    var end := 8 + SizeAt(q[..8]);
    if |q| < end then None else
    match ParseFrames(q[end..], n - 1)
    case None => None
    case Some(rest) => Some([q[8..end]] + rest)
  }

  lemma FrameHead(m: seq<byte>, rest: seq<byte>)
    requires |m| <= INT_MAX
    ensures SizeAt((Frame(m) + rest)[..8]) == |m|
    ensures (Frame(m) + rest)[8..8 + |m|] == m
    ensures (Frame(m) + rest)[8 + |m|..] == rest
  {
    hide SizeBytes, SizeAt;
    SizeRoundTrip(|m|);
    assert (Frame(m) + rest)[..8] == SizeBytes(|m|);
  }

  lemma {:induction false} ParseFramesRoundTrip(ms: seq<seq<byte>>)
    requires Sized(ms)
    ensures ParseFrames(Frames(ms), |ms|) == Some(ms)
  {
    hide SizeBytes, SizeAt, Frame;
    if ms != [] {
      var q := Frames(ms);
      var end := 8 + |ms[0]|;
      FrameHead(ms[0], Frames(ms[1..]));
      ParseFramesRoundTrip(ms[1..]);
      assert q[end..] == Frames(ms[1..]) && q[8..end] == ms[0];
      assert ms == [ms[0]] + ms[1..];
    }
  }

  /** Frames delimit themselves: a process that has moved `k` of the bytes knows from those
      bytes alone that it needs more, never asks past the last frame, and stops exactly there. */
  lemma {:induction false} FramesDelimit(ms: seq<seq<byte>>, k: nat)
    requires Sized(ms) && k <= |Frames(ms)|
    ensures k < |Frames(ms)| ==> k < FramesNext(Frames(ms)[..k], |ms|) <= |Frames(ms)|
    ensures k == |Frames(ms)| ==> FramesNext(Frames(ms)[..k], |ms|) == k
  {
    hide SizeBytes, SizeAt, Frame;
    if ms != [] {
      var q := Frames(ms)[..k];
      var rest := Frames(ms[1..]);
      FrameHead(ms[0], rest);
      if k >= 8 {
        assert q[..8] == Frames(ms)[..8];
        var end := 8 + |ms[0]|;
        if k >= end {
          assert q[end..] == rest[..k - end];
          FramesDelimit(ms[1..], k - end);
        }
      }
    }
  }

  lemma {:induction false} FramesConcat(xs: seq<seq<byte>>, ys: seq<seq<byte>>)
    requires Sized(xs) && Sized(ys)
    ensures Sized(xs + ys)
    ensures Frames(xs + ys) == Frames(xs) + Frames(ys)
  {
    hide Frame;
    if xs == [] {
      assert xs + ys == ys;
    } else {
      assert (xs + ys)[1..] == xs[1..] + ys;
      FramesConcat(xs[1..], ys);
    }
  }

  lemma SingleFrame(m: seq<byte>)
    requires |m| <= INT_MAX
    ensures Frames([m]) == Frame(m)
  {
    assert [m][1..] == [];
    assert Frame(m) + [] == Frame(m);
  }

  /** A frame is its length and its message, and frames stand one behind the other. */
  lemma FrameLayout(m: seq<byte>, rest: seq<seq<byte>>)
    requires |m| <= INT_MAX && Sized(rest)
    ensures HoldsSize(Frame(m), 0, |m|) && Frame(m)[8..] == m
    ensures Sized([m] + rest) && Frames([m] + rest) == Frame(m) + Frames(rest) && Frames([]) == []
  {
    hide SizeBytes, HoldsSize;
    SizeLies(Frame(m), 0, |m|);
    assert ([m] + rest)[1..] == rest;
  }

  function NonEmpty(ms: seq<seq<byte>>): (r: seq<seq<byte>>)
    ensures Sized(ms) ==> Sized(r)
    ensures forall k :: 0 <= k < |r| ==> r[k] != []
  {
    if ms == [] then [] else (if ms[0] == [] then [] else [ms[0]]) + NonEmpty(ms[1..])
  }

  lemma {:induction false} NonEmptyOfConcat(xs: seq<seq<byte>>, ys: seq<seq<byte>>)
    ensures NonEmpty(xs + ys) == NonEmpty(xs) + NonEmpty(ys)
  {
    if xs == [] {
      assert xs + ys == ys;
    } else {
      assert (xs + ys)[1..] == xs[1..] + ys;
      NonEmptyOfConcat(xs[1..], ys);
    }
  }

  lemma {:induction false} NonEmptyOfNonEmpty(xs: seq<seq<byte>>)
    requires forall k :: 0 <= k < |xs| ==> xs[k] != []
    ensures NonEmpty(xs) == xs
  {
    if xs != [] {
      NonEmptyOfNonEmpty(xs[1..]);
      assert [xs[0]] + xs[1..] == xs;
    }
  }

  /** Only empty messages are left out: one more of them anywhere changes nothing. */
  lemma EmptyOnesAreLeftOut(xs: seq<seq<byte>>, ys: seq<seq<byte>>)
    ensures NonEmpty(xs + [[]] + ys) == NonEmpty(xs + ys)
  {
    NonEmptyOfConcat(xs, [[]]);
    NonEmptyOfConcat(xs + [[]], ys);
    NonEmptyOfConcat(xs, ys);
    assert NonEmpty([[]]) == [] + NonEmpty([[]][1..]) == [];
    assert NonEmpty(xs) + [] == NonEmpty(xs);
  }

  lemma OneMessage(data: seq<byte>)
    requires data != [] && |data| <= INT_MAX
    ensures Sized([data]) && NonEmpty([data]) == [data] && Frames([data]) == SizeBytes(|data|) + data
  {
    hide Frames, SizeBytes;
    SingleFrame(data);
    assert [data][1..] == [];
    assert NonEmpty([data]) == [data] + [];
  }

  // --------------------------------------------------- one link, any schedule

  /** One direction of a connection: bytes the sender has still to write, bytes in the pipe,
      bytes of the frame the receiver is in the middle of, and the messages it has received. */
  datatype Link = Link(unsent: seq<byte>, pipe: seq<byte>, partial: seq<byte>, received: seq<seq<byte>>)

  datatype LinkStep = Write(n: nat) | Read(n: nat)

  predicate LinkEnabled(capacity: nat, s: Link, a: LinkStep) {
    match a
    case Write(n) => 0 < n <= |s.unsent| && |s.pipe| + n <= capacity
    case Read(n) => 0 < n <= |s.pipe| && |s.partial| + n <= FramesNext(s.partial, 1)
  }

  function LinkApply(s: Link, a: LinkStep): Link
    requires match a case Write(n) => n <= |s.unsent| case Read(n) => n <= |s.pipe|
  {
    match a
    case Write(n) => s.(unsent := s.unsent[n..], pipe := s.pipe + s.unsent[..n])
    case Read(n) =>
      var partial := s.partial + s.pipe[..n];
      if |partial| == FramesNext(partial, 1) && 8 <= |partial|
      then s.(pipe := s.pipe[n..], partial := [], received := s.received + [partial[8..]])
      else s.(pipe := s.pipe[n..], partial := partial)
  }

  ghost predicate LinkRun(capacity: nat, s: Link, steps: seq<LinkStep>, t: Link)
    decreases |steps|
  {
    if steps == [] then s == t
    else LinkEnabled(capacity, s, steps[0]) && LinkRun(capacity, LinkApply(s, steps[0]), steps[1..], t)
  }

  function LinkStart(ms: seq<seq<byte>>): Link
    requires Sized(ms)
  {
    Link(Frames(NonEmpty(ms)), [], [], [])
  }

  ghost predicate LinkInv(ms: seq<seq<byte>>, s: Link) {
    && Sized(ms)
    && |s.received| <= |ms|
    && s.received == ms[..|s.received|]
    && s.partial + s.pipe + s.unsent == Frames(ms[|s.received|..])
    && (|s.received| < |ms| ==> |s.partial| < 8 + |ms[|s.received|]|)
  }

  lemma LinkStepKeepsInv(capacity: nat, ms: seq<seq<byte>>, s: Link, a: LinkStep)
    requires LinkInv(ms, s) && LinkEnabled(capacity, s, a)
    ensures LinkInv(ms, LinkApply(s, a))
  {
    match a
    case Write(n) =>
      assert s.unsent == s.unsent[..n] + s.unsent[n..];
      var t := LinkApply(s, a);
      assert t.partial + t.pipe + t.unsent == s.partial + s.pipe + s.unsent;
    case Read(n) =>
      LinkReadKeepsInv(ms, s, n);
  }

  lemma LinkReadKeepsInv(ms: seq<seq<byte>>, s: Link, n: nat)
    requires LinkInv(ms, s) && 0 < n <= |s.pipe| && |s.partial| + n <= FramesNext(s.partial, 1)
    ensures LinkInv(ms, LinkApply(s, Read(n)))
  {
    hide SizeBytes, SizeAt;
    var d := |s.received|;
    var partial, pipe := s.partial + s.pipe[..n], s.pipe[n..];
    var all := Frames(ms[d..]);
    Regrouped(s.partial, s.pipe, s.unsent, n);
    assert d < |ms|;
    var m, rest := ms[d], Frames(ms[d + 1..]);
    assert all == Frame(m) + rest by {
      assert ms[d..][0] == ms[d] && ms[d..][1..] == ms[d + 1..];
    }
    OneFrame(m, rest, |s.partial|);
    OneFrame(m, rest, |partial|);
    if |partial| == 8 + |m| {
      FrameHead(m, rest);
      assert partial == Frame(m) && pipe + s.unsent == rest;
      LinkDelivers(ms, d, pipe, s.unsent);
    } else {
      assert LinkInv(ms, s.(pipe := pipe, partial := partial));
    }
  }

  lemma LinkDelivers(ms: seq<seq<byte>>, d: nat, pipe: seq<byte>, unsent: seq<byte>)
    requires Sized(ms) && d < |ms| && pipe + unsent == Frames(ms[d + 1..])
    ensures LinkInv(ms, Link(unsent, pipe, [], ms[..d] + [ms[d]]))
  {
  }

  lemma Regrouped(x: seq<byte>, y: seq<byte>, z: seq<byte>, n: nat)
    requires n <= |y|
    ensures x == (x + y + z)[..|x|]
    ensures x + y[..n] == (x + y + z)[..|x| + n]
    ensures y[n..] + z == (x + y + z)[|x| + n..]
    ensures x + y[..n] + y[n..] + z == x + y + z
  {
  }

  lemma OneFrame(m: seq<byte>, rest: seq<byte>, k: nat)
    requires |m| <= INT_MAX && k <= 8 + |m|
    ensures var next := FramesNext((Frame(m) + rest)[..k], 1);
            k <= next <= 8 + |m| && (k == next <==> k == 8 + |m|)
  {
    hide SizeBytes, SizeAt, Frame;
    var q := (Frame(m) + rest)[..k];
    FrameHead(m, rest);
    if k >= 8 {
      assert q[..8] == (Frame(m) + rest)[..8];
    }
  }

  lemma {:induction false} LinkRunKeepsInv(capacity: nat, ms: seq<seq<byte>>, s: Link, steps: seq<LinkStep>, t: Link)
    requires LinkInv(ms, s) && LinkRun(capacity, s, steps, t)
    ensures LinkInv(ms, t)
    decreases |steps|
  {
    if steps != [] {
      LinkStepKeepsInv(capacity, ms, s, steps[0]);
      LinkRunKeepsInv(capacity, ms, LinkApply(s, steps[0]), steps[1..], t);
    }
  }

  /** Whatever pieces the system splits reads and writes into, and however they interleave, a
      receiver has a prefix of the non-empty messages sent; it can always be brought further
      while something is missing; and once the bytes are through it has exactly those messages
      and stands on a frame boundary. A zero-length send adds nothing. */
  lemma FramingDelivers(capacity: nat, ms: seq<seq<byte>>, steps: seq<LinkStep>, t: Link)
    requires Sized(ms) && capacity > 0
    requires LinkRun(capacity, LinkStart(ms), steps, t)
    ensures t.received <= NonEmpty(ms)
    ensures t.unsent == [] && t.pipe == [] ==> t.received == NonEmpty(ms) && t.partial == []
    ensures t.received != NonEmpty(ms) ==> exists a :: LinkEnabled(capacity, t, a)
  {
    var sent := NonEmpty(ms);
    assert sent[0..] == sent;
    LinkRunKeepsInv(capacity, sent, LinkStart(ms), steps, t);
    var d := |t.received|;
    if d < |sent| {
      var m, rest := sent[d], Frames(sent[d + 1..]);
      assert sent[d..][0] == m && sent[d..][1..] == sent[d + 1..];
      var all := Frames(sent[d..]);
      assert t.partial == all[..|t.partial|];
      OneFrame(m, rest, |t.partial|);
      assert |t.partial| < |all|;
      if t.pipe != [] {
        assert LinkEnabled(capacity, t, Read(1));
      } else {
        assert LinkEnabled(capacity, t, Write(1));
      }
    } else {
      assert sent[d..] == [];
    }
  }

  /** Where no message is empty, as in every protocol of the shop, all of them arrive. */
  lemma AllArrive(capacity: nat, ms: seq<seq<byte>>, steps: seq<LinkStep>, t: Link)
    requires Sized(ms) && capacity > 0 && forall k :: 0 <= k < |ms| ==> ms[k] != []
    requires LinkRun(capacity, LinkStart(ms), steps, t)
    ensures t.received <= ms && (t.unsent == [] && t.pipe == [] ==> t.received == ms && t.partial == [])
  {
    hide LinkRun, NonEmpty;
    NonEmptyOfNonEmpty(ms);
    FramingDelivers(capacity, ms, steps, t);
  }

  // ------------------------------------------------------- the calls themselves

  /** One end of a pipe. `data` is what its writers have put or will put there and nobody has
      read: a blocking read of an empty pipe ends when the next of it arrives. */
  class Pipe {
    var data: seq<byte>
    const reliable: bool

    constructor (reliable: bool)
      ensures data == [] && this.reliable == reliable
    {
      data := [];
      this.reliable := reliable;
    }

    /** `read(2)`: -1, or any positive number of bytes up to what was asked for. */
    method Read(want: nat) returns (n: int, got: seq<byte>)
      requires 0 < want && data != []
      modifies this`data
      ensures n == -1 ==> !reliable && data == old(data) && got == []
      ensures n != -1 ==> 0 < n <= want && n <= |old(data)| && got == old(data)[..n] && data == old(data)[n..]
    {
      var fails: bool := *;
      if fails && !reliable {
        return -1, [];
      }
      n :| 0 < n <= want && n <= |data|;
      got := data[..n];
      data := data[n..];
    }

    /** `write(2)`: -1, or any positive number of the bytes offered. */
    method Write(src: seq<byte>) returns (n: int)
      requires src != []
      modifies this`data
      ensures n == -1 ==> !reliable && data == old(data)
      ensures n != -1 ==> 0 < n <= |src| && data == old(data) + src[..n]
    {
      var fails: bool := *;
      if fails && !reliable {
        return -1;
      }
      n :| 0 < n <= |src|;
      data := data + src[..n];
    }
  }

  method EnsureRead(dest: array<byte>, bytes: nat, fd: Pipe) returns (ok: bool)
    requires bytes <= dest.Length && bytes <= INT_MAX && bytes <= |fd.data|
    modifies dest, fd`data
    ensures ok ==> dest[..bytes] == old(fd.data)[..bytes] && fd.data == old(fd.data)[bytes..]
    ensures !ok ==> !fd.reliable && exists k :: 0 <= k < bytes && fd.data == old(fd.data)[k..]
    ensures dest[bytes..] == old(dest[bytes..])
  {
    if bytes == 0 {
      return true;
    }
    ghost var before := fd.data;
    var readBytes := 0;
    while readBytes < bytes
      invariant readBytes <= bytes
      invariant dest[..readBytes] == before[..readBytes] && fd.data == before[readBytes..]
      invariant dest[bytes..] == old(dest[bytes..])
    {
      var readResult, got := fd.Read(bytes - readBytes);
      if readResult == -1 {
        return false;
      }
      forall k | 0 <= k < readResult {
        dest[readBytes + k] := got[k];
      }
      assert before[readBytes..][..readResult] == before[readBytes..readBytes + readResult];
      readBytes := readBytes + readResult;
    }
    return true;
  }

  method EnsureWrite(src: seq<byte>, fd: Pipe) returns (ok: bool)
    requires |src| <= INT_MAX
    modifies fd`data
    ensures ok ==> fd.data == old(fd.data) + src
    ensures !ok ==> !fd.reliable && exists k :: 0 <= k < |src| && fd.data == old(fd.data) + src[..k]
  {
    if |src| == 0 {
      return true;
    }
    var writtenBytes := 0;
    while writtenBytes < |src|
      invariant writtenBytes <= |src|
      invariant fd.data == old(fd.data) + src[..writtenBytes]
    {
      var writeResult := fd.Write(src[writtenBytes..]);
      if writeResult == -1 {
        return false;
      }
      assert src[writtenBytes..][..writeResult] == src[writtenBytes..writtenBytes + writeResult];
      writtenBytes := writtenBytes + writeResult;
    }
    assert src[..writtenBytes] == src;
    return true;
  }

  /** `ensureRead` into an `int` and into a `size_t` variable. */
  method EnsureReadInt(fd: Pipe) returns (ok: bool, value: int32)
    requires 4 <= |fd.data|
    modifies fd`data
    ensures ok ==> value == IntAt(old(fd.data)[..4]) && fd.data == old(fd.data)[4..]
    ensures !ok ==> !fd.reliable
  {
    var cell := new byte[4];
    ok := EnsureRead(cell, 4, fd);
    value := IntAt(cell[..4]);
  }

  method EnsureReadSize(fd: Pipe) returns (ok: bool, value: size)
    requires 8 <= |fd.data|
    modifies fd`data
    ensures ok ==> value == SizeAt(old(fd.data)[..8]) && fd.data == old(fd.data)[8..]
    ensures !ok ==> !fd.reliable
  {
    var cell := new byte[8];
    ok := EnsureRead(cell, 8, fd);
    value := SizeAt(cell[..8]);
  }

  class Connection {
    const outFD: Pipe
    const inFD: Pipe

    constructor (outFD: Pipe, inFD: Pipe)
      ensures this.outFD == outFD && this.inFD == inFD
    {
      this.outFD := outFD;
      this.inFD := inFD;
    }

    /** `conn_send`: one frame, or nothing for an empty message. */
    method Send(data: seq<byte>) returns (ok: bool)
      requires |data| <= INT_MAX
      modifies outFD`data
      ensures ok ==> outFD.data == old(outFD.data) + Frames(NonEmpty([data]))
      ensures outFD.reliable ==> ok
    {
      if |data| == 0 {
        return true;
      }
      hide Frames, NonEmpty;
      OneMessage(data);
      ok := EnsureWrite(SizeBytes(|data|), outFD);
      if ok {
        ok := EnsureWrite(data, outFD);
      }
    }

    /** `conn_receive`: takes exactly the frame at the front of the stream. */
    method Receive() returns (ok: bool, data: array<byte>)
      requires 8 <= |inFD.data| && SizeAt(inFD.data[..8]) <= INT_MAX
      requires 8 + SizeAt(inFD.data[..8]) <= |inFD.data|
      modifies inFD`data
      ensures fresh(data)
      ensures ok ==> inFD.data == old(inFD.data)[8 + SizeAt(old(inFD.data)[..8])..]
      ensures ok ==> data[..] == old(inFD.data)[8..8 + SizeAt(old(inFD.data)[..8])]
      ensures inFD.reliable ==> ok
    {
      ghost var before := inFD.data;
      var length;
      ok, length := EnsureReadSize(inFD);
      if !ok {
        data := new byte[0];
        return;
      }
      data := new byte[length];
      ok := EnsureRead(data, length, inFD);
      assert data[..] == data[..length];
      assert before[8..][..length] == before[8..8 + length];
    }
  }
}

/** The C-string escaper of `database/SQLite/shell.c` against the tokenizer of its dot commands
    and the in-place un-escaper that goes with it. Lines are NUL-terminated buffers. */
module DotCommand {
  import opened Bytes
  import opened Orders

  type Text = seq<byte>

  const MAX_ARGS: nat := 50

  const BACKSLASH: int := 92
  const DOUBLE: int := 34
  const SINGLE: int := 39
  const SPACE: byte := 32
  const DOT: byte := 46

  // ------------------------------------------------------------------ the escaper

  function Octal(b: byte): Text {
    [92, 48 + b / 64, 48 + b / 8 % 8, 48 + b % 8]
  }

  function EscapedByte(b: byte, isPrint: byte -> bool): Text {
    if b == 92 then [92, 92]
    else if b == 34 then [92, 34]
    else if b == 9 then [92, 116]
    else if b == 10 then [92, 110]
    else if b == 13 then [92, 114]
    else if !isPrint(b) then Octal(b)
    else [b]
  }

  function Escaped(z: Text, isPrint: byte -> bool): Text {
    if z == [] then [] else EscapedByte(z[0], isPrint) + Escaped(z[1..], isPrint)
  }

  function QuotedText(z: Text, isPrint: byte -> bool): Text {
    [34] + Escaped(z, isPrint) + [34]
  }

  /** `output_c_string`, for whatever the locale calls printable. */
  method OutputCString(z: Text, isPrint: byte -> bool) returns (out: Text)
    requires CString(z)
    ensures out == QuotedText(z, isPrint)
  {
    hide Escaped, Octal;
    out := [34];
    var i := 0;
    assert z[0..] == z;
    while i < |z|
      invariant i <= |z|
      invariant out + Escaped(z[i..], isPrint) == [34] + Escaped(z, isPrint)
    {
      var c := z[i];
      var piece: Text;
      if c == 92 {
        piece := [c, c];
      } else if c == 34 {
        piece := [92, 34];
      } else if c == 9 {
        piece := [92, 116];
      } else if c == 10 {
        piece := [92, 110];
      } else if c == 13 {
        piece := [92, 114];
      } else if !isPrint(c) {
        piece := Octal(c);
      } else {
        piece := [c];
      }
      EscapedStep(out, piece, z, i, isPrint);
      out := out + piece;
      i := i + 1;
    }
    NothingEscaped(isPrint);
    assert z[i..] == [];
    assert out + [] == [34] + Escaped(z, isPrint);
    out := out + [34];
  }

  lemma NothingEscaped(isPrint: byte -> bool)
    ensures Escaped([], isPrint) == []
  {
  }

  lemma EscapedStep(out: Text, piece: Text, z: Text, i: nat, isPrint: byte -> bool)
    requires i < |z| && piece == EscapedByte(z[i], isPrint)
    ensures out + Escaped(z[i..], isPrint) == out + piece + Escaped(z[i + 1..], isPrint)
  {
  }

  // -------------------------------------------------------------- the un-escaper

  predicate IsOctal(b: byte) {
    48 <= b <= 55
  }

  function Unescaped(b: byte): byte {
    if b == 97 then 7
    else if b == 98 then 8
    else if b == 116 then 9
    else if b == 110 then 10
    else if b == 118 then 11
    else if b == 102 then 12
    else if b == 114 then 13
    else b
  }

  /** How many octal digits stand at the front, counting three at most. */
  function OctalRun(s: Text): (n: nat)
    ensures n <= 3 && n <= |s|
  {
    if s == [] || !IsOctal(s[0]) then 0
    else if |s| == 1 || !IsOctal(s[1]) then 1
    else if |s| == 2 || !IsOctal(s[2]) then 2
    else 3
  }

  /** The value of up to three octal digits, in a `char`. */
  function OctalValue(s: Text, n: nat): byte
    requires n <= OctalRun(s)
  {
    if n == 0 then 0
    else if n == 1 then s[0] - 48
    else
      var two: int := (8 * (s[0] - 48) + (s[1] - 48)) % 256;
      if n == 2 then two else (8 * two + (s[2] - 48)) % 256
  }

  /** What an escaped character is worth, and how many bytes after the backslash it takes. */
  function EscapeAt(s: Text): (r: (byte, nat))
    requires s != []
    ensures 1 <= r.1 <= |s|
  {
    var n := OctalRun(s);
    if n == 0 then (Unescaped(s[0]), 1) else (OctalValue(s, n), n)
  }

  function Resolved(s: Text): (r: Text)
    ensures |r| <= |s|
  {
    if s == [] then []
    else if s[0] == BACKSLASH && |s| > 1 then [EscapeAt(s[1..]).0] + Resolved(s[1 + EscapeAt(s[1..]).1..])
    else [s[0]] + Resolved(s[1..])
  }

  /** A C string of text `s` at position `p` of a buffer. */
  ghost predicate HoldsAt(z: array<byte>, p: nat, s: Text)
    reads z
  {
    p + |s| < z.Length && z[p..p + |s|] == s && z[p + |s|] == 0
  }

  /** Reads the escape after a backslash: its value and the position of its last byte. */
  method ReadEscape(z: array<byte>, first: nat, ghost s: Text) returns (c: byte, i: nat)
    requires s != [] && CString(s) && HoldsAt(z, first, s)
    ensures (c, i - first + 1) == EscapeAt(s) && first <= i < first + |s|
  {
    assert forall k :: 0 <= k < |s| ==> z[first + k] == s[k];
    i := first;
    c := z[i];
    if IsOctal(c) {
      c := c - 48;
      if IsOctal(z[i + 1]) {
        i := i + 1;
        c := (8 * c + (z[i] - 48)) % 256;
        if IsOctal(z[i + 1]) {
          i := i + 1;
          c := (8 * c + (z[i] - 48)) % 256;
        }
      }
    } else {
      c := Unescaped(c);
    }
  }

  /** What the next turn of the rewriting loop writes, and where it reads on. */
  method NextByte(z: array<byte>, p: nat, i: nat, ghost token: Text) returns (c: byte, next: nat)
    requires CString(token) && i < |token| && HoldsAt(z, p + i, token[i..])
    ensures i < next <= |token| && Resolved(token[i..]) == [c] + Resolved(token[next..])
  {
    hide Resolved, EscapeAt, CString, HoldsAt;
    BytesAhead(z, p, i, token);
    c := z[p + i];
    next := i + 1;
    if c == 92 && z[p + i + 1] != 0 {
      EscapeAhead(token, i);
      c, next := ReadEscape(z, p + i + 1, token[i + 1..]);
      next := next - p + 1;
    } else {
      OneByte(token, i);
    }
  }

  lemma BytesAhead(z: array<byte>, p: nat, i: nat, token: Text)
    requires CString(token) && i < |token| && HoldsAt(z, p + i, token[i..])
    ensures p + i + 1 < z.Length && z[p + i] == token[i]
    ensures z[p + i + 1] != 0 <==> i + 1 < |token|
    ensures i + 1 < |token| ==> CString(token[i + 1..]) && HoldsAt(z, p + i + 1, token[i + 1..])
  {
    assert token[i..][1..] == token[i + 1..];
    FirstByte(z, p + i, token[i..]);
    Dropped(z, p + i, token[i..], 1);
    FirstByte(z, p + i + 1, token[i + 1..]);
  }

  /** One turn of the rewriting loop: the byte or the escape at `i` goes to position `j`. */
  method RewriteOne(z: array<byte>, p: nat, i: nat, j: nat, ghost token: Text) returns (next: nat)
    requires CString(token) && j <= i < |token| && HoldsAt(z, p + i, token[i..])
    modifies z
    ensures i < next <= |token| && HoldsAt(z, p + next, token[next..])
    ensures z[..p] == old(z[..p]) && z[p + |token|..] == old(z[p + |token|..])
    ensures z[p..p + j + 1] + Resolved(token[next..]) == old(z[p..p + j]) + Resolved(token[i..])
  {
    hide Resolved, CString, HoldsAt, EscapeAt;
    ghost var rest := token[i..];
    StaysInside(z, p + i, rest);
    ghost var done := z[p..p + j];
    var c;
    c, next := NextByte(z, p, i, token);
    Dropped(z, p + i, rest, next - i);
    assert rest[next - i..] == token[next..];
    StaysInside(z, p + next, token[next..]);
    Overwrite(z, p, p + j, p + next, token[next..], c);
    assert z[p..p + j + 1] == done + [c];
    OneMoreByte(done, c, Resolved(token[next..]));
  }

  lemma OneMoreByte(done: Text, c: byte, rest: Text)
    ensures done + [c] + rest == done + ([c] + rest)
  {
  }

  lemma StaysInside(z: array<byte>, p: nat, s: Text)
    requires HoldsAt(z, p, s)
    ensures p + |s| < z.Length
  {
  }

  /** The rewriting loop, from the first backslash `p` on. */
  method Rewrite(z: array<byte>, p: nat, ghost token: Text)
    requires CString(token) && HoldsAt(z, p, token)
    modifies z
    ensures HoldsAt(z, p, Resolved(token))
    ensures z[..p] == old(z[..p]) && z[p + |token|..] == old(z[p + |token|..])
  {
    hide Resolved, CString;
    var i, j := 0, 0;
    assert token[0..] == token;
    assert z[p..p] == [] && [] + Resolved(token) == Resolved(token);
    FirstByte(z, p, token);
    while z[p + i] != 0
      invariant j <= i <= |token|
      invariant z[..p] == old(z[..p]) && z[p + |token|..] == old(z[p + |token|..])
      invariant HoldsAt(z, p + i, token[i..]) && (z[p + i] == 0 <==> token[i..] == [])
      invariant z[p..p + j] + Resolved(token[i..]) == Resolved(token)
      decreases |token| - i
    {
      i := RewriteOne(z, p, i, j, token);
      j := j + 1;
      FirstByteOfTail(z, p, token, i);
    }
    NothingResolved();
    ghost var result := z[p..p + j];
    if j < i {
      z[p + j] := 0;
    }
    assert z[p..p + j] == result == result + [];
  }

  lemma FirstByteOfTail(z: array<byte>, p: nat, token: Text, i: nat)
    requires CString(token) && i <= |token| && HoldsAt(z, p + i, token[i..])
    ensures z[p + i] == 0 <==> token[i..] == []
  {
  }

  lemma NothingResolved()
    ensures Resolved([]) == []
  {
  }

  lemma FirstByte(z: array<byte>, p: nat, s: Text)
    requires HoldsAt(z, p, s) && CString(s)
    ensures z[p] == 0 <==> s == []
    ensures s != [] ==> z[p] == s[0]
  {
  }

  /** Skips to the first backslash of the token. */
  method SkipPlain(z: array<byte>, start: nat, ghost token: Text) returns (p: nat)
    requires CString(token) && HoldsAt(z, start, token)
    ensures start <= p <= start + |token| && HoldsAt(z, p, token[p - start..])
    ensures Resolved(token) == token[..p - start] + Resolved(token[p - start..])
  {
    hide Resolved;
    p := start;
    assert token[0..] == token && token[..0] + Resolved(token) == Resolved(token);
    while z[p] != 0 && z[p] != 92
      invariant start <= p <= start + |token|
      invariant HoldsAt(z, p, token[p - start..])
      invariant Resolved(token) == token[..p - start] + Resolved(token[p - start..])
      decreases start + |token| - p
    {
      ghost var at := p - start;
      FirstByte(z, p, token[at..]);
      assert token[at..][0] == token[at];
      OneByte(token, at);
      Dropped(z, p, token[at..], 1);
      assert token[at..][1..] == token[at + 1..];
      p := p + 1;
    }
  }

  /** `resolve_backslashes`: rewrites the token in place. The write position never passes the
      read position and nothing outside the token is touched. */
  method ResolveBackslashes(z: array<byte>, start: nat, ghost token: Text)
    requires CString(token) && HoldsAt(z, start, token)
    modifies z
    ensures HoldsAt(z, start, Resolved(token))
    ensures z[..start] == old(z[..start]) && z[start + |token|..] == old(z[start + |token|..])
  {
    hide Resolved;
    ghost var before := z[..];
    var p := SkipPlain(z, start, token);
    ghost var k := p - start;
    Front(z, start, token, k);
    Rewrite(z, p, token[k..]);
    SliceBelow(z[..], before, p, start, p);
    SliceBelow(z[..], before, p, 0, start);
    Joined(z, start, token[..k], Resolved(token[k..]));
  }

  lemma Front(z: array<byte>, p: nat, s: Text, n: nat)
    requires HoldsAt(z, p, s) && n <= |s|
    ensures z[p..p + n] == s[..n]
  {
    assert z[p..p + n] == z[p..p + |s|][..n];
  }

  lemma Joined(z: array<byte>, p: nat, s: Text, t: Text)
    requires p + |s| <= z.Length && z[p..p + |s|] == s && HoldsAt(z, p + |s|, t)
    ensures HoldsAt(z, p, s + t)
  {
    var q := p + |s|;
    assert z[p..q + |t|] == z[p..q] + z[q..q + |t|];
  }

  lemma Dropped(z: array<byte>, p: nat, s: Text, n: nat)
    requires HoldsAt(z, p, s) && n <= |s|
    ensures HoldsAt(z, p + n, s[n..])
  {
  }

  /** Writing behind the rest of the token leaves the rest as it is. */
  method Overwrite(z: array<byte>, low: nat, at: nat, p: nat, ghost s: Text, c: byte)
    requires low <= at < p && HoldsAt(z, p, s)
    modifies z
    ensures HoldsAt(z, p, s) && z[at] == c
    ensures z[..at] == old(z[..at]) && z[at + 1..] == old(z[at + 1..])
    ensures z[low..at] == old(z[low..at])
    ensures z[..low] == old(z[..low]) && z[p + |s|..] == old(z[p + |s|..])
  {
    z[at] := c;
    assert z[p..p + |s|] == old(z[p..p + |s|]);
  }

  lemma OneByte(token: Text, at: nat)
    requires at < |token| && (token[at] != BACKSLASH || at + 1 == |token|)
    ensures Resolved(token[at..]) == [token[at]] + Resolved(token[at + 1..])
    ensures token[..at] + Resolved(token[at..]) == token[..at + 1] + Resolved(token[at + 1..])
  {
  }

  lemma EscapeAhead(token: Text, at: nat)
    requires at + 1 < |token| && token[at] == BACKSLASH
    ensures var (c, n) := EscapeAt(token[at + 1..]);
            Resolved(token[at..]) == [c] + Resolved(token[at + 1 + n..])
  {
  }

  // ----------------------------------------------------------------- the tokenizer

  predicate IsSpace(b: byte) {
    b == 32 || 9 <= b <= 13
  }

  /** Where a quoted token ends: at its delimiter, or at the end of the line. */
  function QuotedEnd(text: Text, i: nat, delim: byte): (e: nat)
    requires i <= |text|
    ensures i <= e <= |text|
    decreases |text| - i
  {
    if i == |text| || text[i] == delim then i
    else if text[i] == BACKSLASH && delim == DOUBLE && i + 1 < |text| then QuotedEnd(text, i + 2, delim)
    else QuotedEnd(text, i + 1, delim)
  }

  function WordEnd(text: Text, i: nat): (e: nat)
    requires i <= |text|
    ensures i <= e <= |text|
    decreases |text| - i
  {
    if i == |text| || IsSpace(text[i]) then i else WordEnd(text, i + 1)
  }

  function SkipSpaces(text: Text, i: nat): (e: nat)
    requires i <= |text|
    ensures i <= e <= |text| && (e < |text| ==> !IsSpace(text[e]))
    decreases |text| - i
  {
    if i < |text| && IsSpace(text[i]) then SkipSpaces(text, i + 1) else i
  }

  function Past(text: Text, e: nat): nat {
    if e < |text| then e + 1 else e
  }

  /** One token at `h`, which is not a space: its value and where to go on. */
  function TokenAt(text: Text, h: nat): (r: (Text, nat))
    requires h < |text| && !IsSpace(text[h])
    ensures h < r.1 <= |text|
  {
    if text[h] == SINGLE || text[h] == DOUBLE then
      var e := QuotedEnd(text, h + 1, text[h]);
      var raw := text[h + 1..e];
      (if text[h] == DOUBLE then Resolved(raw) else raw, Past(text, e))
    else
      var e := WordEnd(text, h);
      (Resolved(text[h..e]), Past(text, e))
  }

  /** The tokens of a line from `h` on, `room` of them at most. */
  function Tokens(text: Text, h: nat, room: nat): (r: seq<Text>)
    requires h <= |text|
    ensures |r| <= room
    decreases room
  {
    if room == 0 then [] else
    var k := SkipSpaces(text, h);
    if k == |text| then [] else
    [TokenAt(text, k).0] + Tokens(text, TokenAt(text, k).1, room - 1)
  }

  /** The line as the tokenizer finds it from `h` on, up to its NUL. */
  ghost predicate RestIs(z: array<byte>, text: Text, h: nat)
    reads z
  {
    h <= |text| && HoldsAt(z, h, text[h..])
  }

  lemma RestByte(z: array<byte>, text: Text, h: nat)
    requires RestIs(z, text, h) && CString(text)
    ensures |text| < z.Length && (z[h] == 0 <==> h == |text|)
    ensures h < |text| ==> z[h] == text[h] && RestIs(z, text, h + 1)
  {
  }

  method SkipToToken(z: array<byte>, from: nat, ghost text: Text) returns (h: nat)
    requires CString(text) && RestIs(z, text, from)
    ensures h == SkipSpaces(text, from) && RestIs(z, text, h)
  {
    hide RestIs;
    h := from;
    RestInside(z, text, h);
    RestByte(z, text, h);
    while IsSpace(z[h])
      invariant from <= h <= |text| && RestIs(z, text, h) && h < z.Length
      invariant SkipSpaces(text, from) == SkipSpaces(text, h)
      invariant z[h] == 0 <==> h == |text|
      invariant h < |text| ==> z[h] == text[h] && RestIs(z, text, h + 1)
      decreases |text| - h
    {
      h := h + 1;
      RestInside(z, text, h);
      RestByte(z, text, h);
    }
  }

  lemma RestInside(z: array<byte>, text: Text, h: nat)
    requires RestIs(z, text, h)
    ensures h <= |text| < z.Length
  {
  }

  method FindQuotedEnd(z: array<byte>, from: nat, delim: byte, ghost text: Text) returns (e: nat)
    requires CString(text) && RestIs(z, text, from) && delim != 0
    ensures e == QuotedEnd(text, from, delim) && RestIs(z, text, e)
  {
    hide RestIs;
    e := from;
    RestInside(z, text, e);
    RestByte(z, text, e);
    while z[e] != 0 && z[e] != delim
      invariant from <= e <= |text| < z.Length && RestIs(z, text, e)
      invariant QuotedEnd(text, from, delim) == QuotedEnd(text, e, delim)
      invariant z[e] == 0 <==> e == |text|
      invariant e < |text| ==> z[e] == text[e] && RestIs(z, text, e + 1)
      decreases |text| - e
    {
      RestByte(z, text, e + 1);
      if z[e] == 92 && delim == 34 && z[e + 1] != 0 {
        e := e + 1;
      }
      e := e + 1;
      RestByte(z, text, e);
    }
  }

  method FindWordEnd(z: array<byte>, from: nat, ghost text: Text) returns (e: nat)
    requires CString(text) && RestIs(z, text, from)
    ensures e == WordEnd(text, from) && RestIs(z, text, e)
  {
    hide RestIs;
    e := from;
    RestInside(z, text, e);
    RestByte(z, text, e);
    while z[e] != 0 && !IsSpace(z[e])
      invariant from <= e <= |text| < z.Length && RestIs(z, text, e)
      invariant WordEnd(text, from) == WordEnd(text, e)
      invariant z[e] == 0 <==> e == |text|
      invariant e < |text| ==> z[e] == text[e] && RestIs(z, text, e + 1)
      decreases |text| - e
    {
      e := e + 1;
      RestByte(z, text, e);
    }
  }

  /** Ends the token that runs to `e` with a NUL and steps past it. */
  method CutToken(z: array<byte>, arg: nat, e: nat, ghost text: Text) returns (next: nat)
    requires CString(text) && arg <= e && RestIs(z, text, arg) && e <= |text|
    modifies z
    ensures next == Past(text, e) && RestIs(z, text, next)
    ensures HoldsAt(z, arg, text[arg..e])
    ensures z[..arg] == old(z[..arg])
  {
    ghost var before := z[..];
    SplitSlice(before, text, arg, e);
    assert RestIs(z, text, e);
    RestByte(z, text, e);
    next := e;
    if z[e] != 0 {
      z[e] := 0;
      next := e + 1;
      SplitSlice(before, text, arg, e + 1);
      assert z[e + 1..] == before[e + 1..];
      SliceAbove(z[..], before, e + 1, |text|);
    }
    assert z[..e] == before[..e];
    SliceBelow(z[..], before, e, arg, e);
    SliceBelow(z[..], before, e, 0, arg);
  }

  lemma SplitSlice(x: Text, text: Text, p: nat, q: nat)
    requires p <= q <= |text| <= |x| && x[p..|text|] == text[p..]
    ensures x[p..q] == text[p..q] && x[q..|text|] == text[q..]
  {
    forall k | p <= k < |text|
      ensures x[k] == text[k]
    {
      assert x[k] == x[p..|text|][k - p] && text[k] == text[p..][k - p];
    }
  }

  /** What lies inside an unchanged part is unchanged. */
  lemma SliceBelow(x: Text, y: Text, at: nat, p: nat, q: nat)
    requires p <= q <= at <= |x| && at <= |y| && x[..at] == y[..at]
    ensures x[p..q] == y[p..q]
  {
    forall k | 0 <= k < at
      ensures x[k] == y[k]
    {
      assert x[k] == x[..at][k] && y[k] == y[..at][k];
    }
  }

  lemma SliceAbove(x: Text, y: Text, at: nat, q: nat)
    requires at <= q <= |x| == |y| && x[at..] == y[at..]
    ensures x[at..q] == y[at..q]
  {
    forall k | at <= k < |x|
      ensures x[k] == y[k]
    {
      assert x[k] == x[at..][k - at] && y[k] == y[at..][k - at];
    }
  }

  /** One turn of the tokenizer loop. */
  method TakeToken(z: array<byte>, h: nat, ghost text: Text) returns (arg: nat, next: nat)
    requires CString(text) && RestIs(z, text, h) && h < |text| && !IsSpace(text[h])
    modifies z
    ensures next == TokenAt(text, h).1 && RestIs(z, text, next)
    ensures h <= arg && HoldsAt(z, arg, TokenAt(text, h).0)
    ensures arg + |TokenAt(text, h).0| < next || next == |text|
    ensures z[..h] == old(z[..h])
  {
    hide Resolved, RestIs, HoldsAt;
    RestInside(z, text, h);
    RestByte(z, text, h);
    if z[h] == 39 || z[h] == 34 {
      var delim := z[h];
      arg := h + 1;
      var e := FindQuotedEnd(z, arg, delim, text);
      next := CutToken(z, arg, e, text);
      assert z[..h] == z[..arg][..h];
      if delim == 34 {
        CStringSlice(text, arg, e);
        ResolveToken(z, arg, e, next, text);
        assert z[..h] == z[..arg][..h];
      }
    } else {
      arg := h;
      var e := FindWordEnd(z, arg, text);
      next := CutToken(z, arg, e, text);
      CStringSlice(text, arg, e);
      ResolveToken(z, arg, e, next, text);
    }
  }

  method ResolveToken(z: array<byte>, arg: nat, e: nat, next: nat, ghost text: Text)
    requires arg <= e <= |text| && CString(text[arg..e]) && next == Past(text, e) && RestIs(z, text, next)
    requires HoldsAt(z, arg, text[arg..e])
    modifies z
    ensures HoldsAt(z, arg, Resolved(text[arg..e])) && RestIs(z, text, next)
    ensures z[..arg] == old(z[..arg])
  {
    hide Resolved;
    ghost var before := z[..];
    ResolveBackslashes(z, arg, text[arg..e]);
    assert z[e..] == before[e..];
    assert z[next..|text|] == z[e..][next - e..|text| - e] == before[next..|text|];
    assert z[|text|] == z[e..][|text| - e];
  }

  lemma CStringSlice(s: Text, i: nat, j: nat)
    requires CString(s) && i <= j <= |s|
    ensures CString(s[i..j])
  {
  }

  /** The tokens found so far stay where they are. */
  ghost predicate Stored(z: array<byte>, args: seq<nat>, tokens: seq<Text>, h: nat, n: nat)
    reads z
  {
    && |args| == |tokens|
    && forall k :: 0 <= k < |args| ==> HoldsAt(z, args[k], tokens[k]) && (args[k] + |tokens[k]| < h || h == n)
  }

  /** One turn of the tokenizer loop: the next token, or the end of the line when only spaces are left. */
  method NextToken(z: array<byte>, h: nat, ghost text: Text, ghost args: seq<nat>, ghost done: seq<Text>,
        ghost room: nat)
    returns (found: bool, arg: nat, next: nat, ghost more: seq<Text>)
    requires CString(text) && RestIs(z, text, h) && h < |text| < z.Length && room > 0
    requires Stored(z, args, done, h, |text|)
    modifies z
    ensures h < next <= |text| && RestIs(z, text, next) && (z[next] == 0 <==> next == |text|)
    ensures done + Tokens(text, h, room) == more + Tokens(text, next, if found then room - 1 else room)
    ensures Stored(z, if found then args + [arg] else args, more, next, |text|)
    ensures !found ==> next == |text|
  {
    hide RestIs, Tokens, Stored, CString, TokenAt, SkipSpaces;
    var at := SkipToToken(z, h, text);
    RestByte(z, text, at);
    if z[at] == 0 {
      OnlySpacesLeft(text, h, room);
      found, arg, next, more := false, at, at, done;
      StoredLater(z, args, done, h, at, |text|);
    } else {
      found := true;
      StoredLater(z, args, done, h, at, |text|);
      arg, next := TakeTokenKeeping(z, at, text, args, done);
      TokensStep(text, h, room);
      more := done + [TokenAt(text, at).0];
      assert done + ([TokenAt(text, at).0] + Tokens(text, next, room - 1)) == more + Tokens(text, next, room - 1);
      RestByte(z, text, next);
    }
  }

  /** The tokenizer of `do_meta_command`: up to fifty tokens, each left in the line as a C string. */
  method Tokenize(z: array<byte>, ghost text: Text) returns (args: seq<nat>)
    requires CString(text) && HoldsAt(z, 0, text) && |text| >= 1
    modifies z
    ensures |args| == |Tokens(text, 1, MAX_ARGS)|
    ensures forall k :: 0 <= k < |args| ==> HoldsAt(z, args[k], Tokens(text, 1, MAX_ARGS)[k])
  {
    hide RestIs, Tokens, Stored, CString;
    ghost var done: seq<Text> := [];
    StartOfLine(z, text);
    NothingStored(z, |text|);
    var h := 1;
    args := [];
    RestByte(z, text, h);
    while z[h] != 0 && |args| < MAX_ARGS
      invariant h <= |text| < z.Length && RestIs(z, text, h) && |args| <= MAX_ARGS
      invariant z[h] == 0 <==> h == |text|
      invariant Tokens(text, 1, MAX_ARGS) == done + Tokens(text, h, MAX_ARGS - |args|)
      invariant Stored(z, args, done, h, |text|)
      decreases |text| - h
    {
      ghost var room := MAX_ARGS - |args|;
      var found, arg;
      found, arg, h, done := NextToken(z, h, text, args, done, room);
      if found {
        args := args + [arg];
      } else {
        break;
      }
    }
    NoTokensLeft(text, h, MAX_ARGS - |args|);
    AllStored(z, args, done, h, |text|);
  }

  lemma NoTokensLeft(text: Text, h: nat, room: nat)
    requires h <= |text| && (h == |text| || room == 0)
    ensures Tokens(text, h, room) == []
  {
  }

  lemma OnlySpacesLeft(text: Text, h: nat, room: nat)
    requires h <= |text| && SkipSpaces(text, h) == |text|
    ensures Tokens(text, h, room) == Tokens(text, |text|, room) == []
  {
  }

  lemma NothingStored(z: array<byte>, n: nat)
    ensures Stored(z, [], [], 1, n)
  {
  }

  lemma StoredLater(z: array<byte>, args: seq<nat>, done: seq<Text>, h: nat, at: nat, n: nat)
    requires Stored(z, args, done, h, n) && h <= at && (h == n ==> at == n)
    ensures Stored(z, args, done, at, n)
  {
  }

  lemma AllStored(z: array<byte>, args: seq<nat>, tokens: seq<Text>, h: nat, n: nat)
    requires Stored(z, args, tokens, h, n)
    ensures |args| == |tokens|
    ensures forall k :: 0 <= k < |args| ==> HoldsAt(z, args[k], tokens[k])
  {
  }

  lemma StartOfLine(z: array<byte>, text: Text)
    requires HoldsAt(z, 0, text) && |text| >= 1
    ensures RestIs(z, text, 1)
  {
  }

  lemma TokensStep(text: Text, h: nat, room: nat)
    requires h <= |text| && room > 0 && SkipSpaces(text, h) < |text|
    ensures var k := SkipSpaces(text, h);
            Tokens(text, h, room) == [TokenAt(text, k).0] + Tokens(text, TokenAt(text, k).1, room - 1)
  {
  }

  method TakeTokenKeeping(z: array<byte>, at: nat, ghost text: Text, ghost args: seq<nat>, ghost done: seq<Text>)
    returns (arg: nat, next: nat)
    requires CString(text) && RestIs(z, text, at) && at < |text| && !IsSpace(text[at])
    requires Stored(z, args, done, at, |text|)
    modifies z
    ensures next == TokenAt(text, at).1 && RestIs(z, text, next)
    ensures Stored(z, args + [arg], done + [TokenAt(text, at).0], next, |text|)
  {
    hide TokenAt, RestIs;
    ghost var before := z[..];
    arg, next := TakeToken(z, at, text);
    forall k | 0 <= k < |args|
      ensures HoldsAt(z, args[k], done[k])
    {
      KeptBelow(z, before, at, args[k], done[k]);
    }
  }

  /** Text that lies below a position where nothing changed is still there. */
  lemma KeptBelow(z: array<byte>, before: Text, at: nat, p: nat, s: Text)
    requires |before| == z.Length && at <= z.Length && z[..at] == before[..at]
    requires p + |s| < at && before[p..p + |s|] == s && before[p + |s|] == 0
    ensures HoldsAt(z, p, s)
  {
    forall q | p <= q <= p + |s|
      ensures z[q] == before[q]
    {
      assert z[q] == z[..at][q] && before[q] == before[..at][q];
    }
    forall j | 0 <= j < |s|
      ensures z[p..p + |s|][j] == s[j]
    {
      assert before[p..p + |s|][j] == before[p + j] == z[p + j];
    }
  }

  // ------------------------------------------------------------------ the round trip

  /** Texts quoted by `output_c_string`, with single spaces between them. */
  function Arguments(fields: seq<Text>, isPrint: byte -> bool): Text {
    if fields == [] then []
    else QuotedText(fields[0], isPrint) + (if |fields| == 1 then [] else [SPACE]) + Arguments(fields[1..], isPrint)
  }

  function CommandLine(fields: seq<Text>, isPrint: byte -> bool): Text {
    [DOT] + Arguments(fields, isPrint)
  }

  /** Every piece the escaper writes resolves to the byte it stands for, whatever comes next. */
  lemma PieceResolves(b: byte, isPrint: byte -> bool, rest: Text)
    ensures Resolved(EscapedByte(b, isPrint) + rest) == [b] + Resolved(rest)
  {
    hide Resolved, Octal;
    var piece := EscapedByte(b, isPrint);
    if piece == [b] {
      ByteResolves(b, rest);
    } else if piece == Octal(b) {
      OctalResolves(b, rest);
    } else {
      PairResolves(piece[1], rest);
    }
  }

  lemma ByteResolves(b: byte, rest: Text)
    requires b != 92
    ensures Resolved([b] + rest) == [b] + Resolved(rest)
  {
  }

  lemma PairResolves(c: byte, rest: Text)
    requires !IsOctal(c)
    ensures Resolved([92, c] + rest) == [Unescaped(c)] + Resolved(rest)
  {
  }

  /** What the comment on `resolve_backslashes` promises for an escaped character. */
  function Promised(c: byte): Option<byte> {
    if c == 97 then Some(7)
    else if c == 98 then Some(8)
    else if c == 116 then Some(9)
    else if c == 110 then Some(10)
    else if c == 118 then Some(11)
    else if c == 102 then Some(12)
    else if c == 114 then Some(13)
    else if c == 115 then Some(32)
    else if c == 34 || c == 39 || c == 92 then Some(c)
    else None
  }

  /** The code keeps the promise for every one of them but `s`, which it leaves as it is. */
  lemma PromiseKeptExceptForS(c: byte, rest: Text)
    requires Promised(c).Some?
    ensures Resolved([92, c] + rest) == [Promised(c).value] + Resolved(rest) <==> c != 115
  {
    hide Resolved;
    PairResolves(c, rest);
    SameCons(Unescaped(c), Promised(c).value, Resolved(rest), Resolved(rest));
  }

  /** An escaped `s` is left as it is, where a space is promised. */
  lemma SpaceEscapeIsLost()
    ensures Resolved([92, 115]) == [115] && AsPromised([92, 115]) == [32]
  {
    var s: Text := [92, 115];
    assert s[1..] == [115] && s[2..] == [];
  }

  /** How many octal digits stand at the front, `room` of them at most. */
  function DigitsAtFront(s: Text, room: nat): (n: nat)
    ensures n <= |s|
  {
    if room == 0 || s == [] || !(48 <= s[0] <= 55) then 0 else 1 + DigitsAtFront(s[1..], room - 1)
  }

  /** The number that octal digits stand for. */
  function OctalNumber(s: Text, n: nat): int
    requires n <= |s|
  {
    if n == 0 then 0 else 8 * OctalNumber(s, n - 1) + (s[n - 1] as int - 48)
  }

  /** An escape as the comment describes it: a character, or up to three octal digits for the byte
      they stand for. Of any other character it says nothing; the backslash goes. */
  function PromisedAt(s: Text): (r: (byte, nat))
    requires s != []
    ensures 1 <= r.1 <= |s|
  {
    var n := DigitsAtFront(s, 3);
    if Promised(s[0]).Some? then (Promised(s[0]).value, 1)
    else if n > 0 then (OctalNumber(s, n) % 256, n)
    else (s[0], 1)
  }

  function AsPromised(s: Text): Text {
    if s == [] then []
    else if s[0] == BACKSLASH && |s| > 1 then [PromisedAt(s[1..]).0] + AsPromised(s[1 + PromisedAt(s[1..]).1..])
    else [s[0]] + AsPromised(s[1..])
  }

  /** Some backslash of the token escapes an `s`. */
  predicate EscapesS(s: Text) {
    if s == [] then false
    else if s[0] == BACKSLASH && |s| > 1 then s[1] == 115 || EscapesS(s[1 + PromisedAt(s[1..]).1..])
    else EscapesS(s[1..])
  }

  lemma EscapeKeepsPromise(s: Text)
    requires s != []
    ensures EscapeAt(s).1 == PromisedAt(s).1
    ensures EscapeAt(s).0 == PromisedAt(s).0 <==> s[0] != 115
    ensures s[0] == 115 ==> EscapeAt(s).0 == 115 && PromisedAt(s).0 == 32
  {
    hide DigitsAtFront, OctalNumber, OctalValue;
    var n := OctalRun(s);
    RunIsDigitsAtFront(s);
    if n > 0 {
      OctalIsNumber(s, n);
    }
  }

  lemma RunIsDigitsAtFront(s: Text)
    ensures OctalRun(s) == DigitsAtFront(s, 3)
  {
    if s != [] {
      var t := s[1..];
      assert DigitsAtFront(s, 3) == if IsOctal(s[0]) then 1 + DigitsAtFront(t, 2) else 0;
      if t != [] {
        var u := t[1..];
        assert DigitsAtFront(t, 2) == if IsOctal(t[0]) then 1 + DigitsAtFront(u, 1) else 0;
        assert u != [] ==> DigitsAtFront(u[1..], 0) == 0;
      }
    }
  }

  lemma OctalIsNumber(s: Text, n: nat)
    requires n <= OctalRun(s)
    ensures OctalValue(s, n) == OctalNumber(s, n) % 256
  {
    if n == 1 {
      OneDigit(s);
    } else if n == 2 {
      OneDigit(s);
      assert OctalNumber(s, 2) == 8 * OctalNumber(s, 1) + (s[1] as int - 48);
    } else if n == 3 {
      OneDigit(s);
      ThreeDigits(s);
      assert OctalNumber(s, 2) == 8 * OctalNumber(s, 1) + (s[1] as int - 48);
      assert OctalNumber(s, 3) == 8 * OctalNumber(s, 2) + (s[2] as int - 48);
    }
  }

  lemma OneDigit(s: Text)
    requires s != []
    ensures OctalNumber(s, 1) == s[0] as int - 48
  {
    assert OctalNumber(s, 0) == 0;
  }

  lemma ResolvedStep(s: Text)
    requires |s| > 1 && s[0] == 92
    ensures Resolved(s) == [EscapeAt(s[1..]).0] + Resolved(s[1 + EscapeAt(s[1..]).1..])
  {
    hide EscapeAt;
  }

  lemma PromisedStep(s: Text)
    requires |s| > 1 && s[0] == 92
    ensures AsPromised(s) == [PromisedAt(s[1..]).0] + AsPromised(s[1 + PromisedAt(s[1..]).1..])
    ensures EscapesS(s) == (s[1] == 115 || EscapesS(s[1 + PromisedAt(s[1..]).1..]))
  {
    hide PromisedAt;
  }

  lemma EscapeStep(s: Text)
    requires |s| > 1 && s[0] == 92
    ensures var (b, n) := PromisedAt(s[1..]);
            && Resolved(s) == [EscapeAt(s[1..]).0] + Resolved(s[1 + n..])
            && AsPromised(s) == [b] + AsPromised(s[1 + n..])
            && EscapesS(s) == (s[1] == 115 || EscapesS(s[1 + n..]))
            && (EscapeAt(s[1..]).0 == b <==> s[1] != 115)
            && (s[1] == 115 ==> EscapeAt(s[1..]).0 == 115 && b == 32)
  {
    hide *;
    ResolvedStep(s);
    PromisedStep(s);
    EscapeKeepsPromise(s[1..]);
  }

  lemma PlainStep(s: Text)
    requires s != [] && (|s| > 1 ==> s[0] != 92)
    ensures Resolved(s) == [s[0]] + Resolved(s[1..]) && AsPromised(s) == [s[0]] + AsPromised(s[1..])
    ensures EscapesS(s) == EscapesS(s[1..])
  {
    hide EscapeAt, PromisedAt;
  }

  /** A token resolves as the comment promises exactly when no backslash in it escapes an `s`. */
  lemma {:induction false} TokenKeepsPromiseIff(s: Text)
    ensures Resolved(s) == AsPromised(s) <==> !EscapesS(s)
    decreases |s|
  {
    hide EscapeAt, PromisedAt;
    if s == [] {
    } else if s[0] == BACKSLASH && |s| > 1 {
      hide Resolved, AsPromised, EscapesS;
      EscapeStep(s);
      var (b, n) := PromisedAt(s[1..]);
      TokenKeepsPromiseIff(s[1 + n..]);
      SameCons(EscapeAt(s[1..]).0, b, Resolved(s[1 + n..]), AsPromised(s[1 + n..]));
    } else {
      hide Resolved, AsPromised, EscapesS;
      PlainStep(s);
      TokenKeepsPromiseIff(s[1..]);
      SameCons(s[0], s[0], Resolved(s[1..]), AsPromised(s[1..]));
    }
  }

  /** The texts are the same but for letters `s` where the other one has spaces. */
  predicate SameButS(done: Text, promised: Text) {
    && |done| == |promised|
    && forall k :: 0 <= k < |done| ==> done[k] == promised[k] || (done[k] == 115 && promised[k] == 32)
  }

  lemma SameBehind(a: byte, b: byte, x: Text, y: Text)
    requires SameButS(x, y) && (a == b || (a == 115 && b == 32))
    ensures SameButS([a] + x, [b] + y)
  {
  }

  lemma NothingDiffers()
    ensures SameButS([], [])
  {
  }

  /** And where it does not, nothing differs but the spaces. */
  lemma {:induction false} OnlySpacesAreLost(s: Text)
    ensures SameButS(Resolved(s), AsPromised(s))
    decreases |s|
  {
    hide EscapeAt, PromisedAt, SameButS;
    if s == [] {
      NothingDiffers();
    } else if s[0] == BACKSLASH && |s| > 1 {
      hide Resolved, AsPromised;
      EscapeStep(s);
      var (b, n) := PromisedAt(s[1..]);
      OnlySpacesAreLost(s[1 + n..]);
      SameBehind(EscapeAt(s[1..]).0, b, Resolved(s[1 + n..]), AsPromised(s[1 + n..]));
    } else {
      hide Resolved, AsPromised;
      PlainStep(s);
      OnlySpacesAreLost(s[1..]);
      SameBehind(s[0], s[0], Resolved(s[1..]), AsPromised(s[1..]));
    }
  }

  lemma SameCons(a: byte, b: byte, x: Text, y: Text)
    ensures [a] + x == [b] + y <==> a == b && x == y
  {
    assert ([a] + x)[0] == a && ([a] + x)[1..] == x && ([b] + y)[0] == b && ([b] + y)[1..] == y;
  }

  lemma OctalResolves(b: byte, rest: Text)
    ensures Resolved(Octal(b) + rest) == [b] + Resolved(rest)
  {
    var digits := Octal(b)[1..];
    var s := Octal(b) + rest;
    assert s[1..] == digits + rest;
    DigitsAreRead(b, rest);
    assert s[4..] == rest;
  }

  lemma ThreeDigits(t: Text)
    requires |t| >= 3 && IsOctal(t[0]) && IsOctal(t[1]) && IsOctal(t[2])
    ensures OctalRun(t) == 3
    ensures var n: int := 64 * (t[0] as int - 48) + 8 * (t[1] as int - 48) + (t[2] as int - 48);
            OctalValue(t, 3) == n % 256
  {
  }

  lemma DigitsOf(b: byte)
    ensures b / 64 <= 3 && b / 8 % 8 <= 7 && b == 64 * (b / 64) + 8 * (b / 8 % 8) + b % 8
  {
  }

  lemma DigitsAreRead(b: byte, rest: Text)
    ensures EscapeAt(Octal(b)[1..] + rest) == (b, 3)
  {
    hide OctalRun, OctalValue, Octal;
    var x: byte, y: byte, z: byte := OctalTail(b);
    var t := [x, y, z] + rest;
    assert t[0] == x && t[1] == y && t[2] == z;
    ThreeDigits(t);
  }

  lemma OctalTail(b: byte) returns (x: byte, y: byte, z: byte)
    ensures Octal(b)[1..] == [x, y, z] && IsOctal(x) && IsOctal(y) && IsOctal(z)
    ensures 64 * (x as int - 48) + 8 * (y as int - 48) + (z as int - 48) == b
  {
    DigitsOf(b);
    x, y, z := 48 + b / 64, 48 + b / 8 % 8, 48 + b % 8;
  }

  lemma {:induction false} EscapingIsUndone(z: Text, isPrint: byte -> bool)
    ensures Resolved(Escaped(z, isPrint)) == z
  {
    if z != [] {
      PieceResolves(z[0], isPrint, Escaped(z[1..], isPrint));
      EscapingIsUndone(z[1..], isPrint);
    }
  }

  /** The search for the closing quote steps over each piece the escaper writes. */
  lemma PieceIsSteppedOver(text: Text, i: nat, b: byte, isPrint: byte -> bool)
    requires i + |EscapedByte(b, isPrint)| <= |text|
    requires text[i..i + |EscapedByte(b, isPrint)|] == EscapedByte(b, isPrint)
    ensures QuotedEnd(text, i, DOUBLE) == QuotedEnd(text, i + |EscapedByte(b, isPrint)|, DOUBLE)
  {
    var piece := EscapedByte(b, isPrint);
    assert forall k :: 0 <= k < |piece| ==> text[i + k] == piece[k];
    if |piece| == 4 {
      assert text[i] == 92 && text[i + 2] == piece[2] && text[i + 3] == piece[3];
      assert QuotedEnd(text, i, DOUBLE) == QuotedEnd(text, i + 2, DOUBLE);
      assert QuotedEnd(text, i + 2, DOUBLE) == QuotedEnd(text, i + 3, DOUBLE);
      assert QuotedEnd(text, i + 3, DOUBLE) == QuotedEnd(text, i + 4, DOUBLE);
    } else {
      assert text[i] == piece[0];
      assert |piece| == 2 ==> text[i + 1] == piece[1];
    }
  }

  lemma {:induction false} ClosingQuoteIsFound(text: Text, i: nat, z: Text, isPrint: byte -> bool)
    requires i + |Escaped(z, isPrint)| < |text| && text[i + |Escaped(z, isPrint)|] == 34
    requires text[i..i + |Escaped(z, isPrint)|] == Escaped(z, isPrint)
    ensures QuotedEnd(text, i, DOUBLE) == i + |Escaped(z, isPrint)|
    decreases |z|
  {
    hide EscapedByte;
    if z != [] {
      var piece := EscapedByte(z[0], isPrint);
      var all := Escaped(z, isPrint);
      assert text[i..i + |piece|] == text[i..i + |all|][..|piece|] == piece;
      PieceIsSteppedOver(text, i, z[0], isPrint);
      assert text[i + |piece|..i + |all|] == text[i..i + |all|][|piece|..] == Escaped(z[1..], isPrint);
      ClosingQuoteIsFound(text, i + |piece|, z[1..], isPrint);
    }
  }

  lemma QuotedTextIsOneToken(text: Text, h: nat, z: Text, isPrint: byte -> bool)
    requires h + |QuotedText(z, isPrint)| <= |text|
    requires text[h..h + |QuotedText(z, isPrint)|] == QuotedText(z, isPrint)
    ensures text[h] == 34 && TokenAt(text, h) == (z, h + |QuotedText(z, isPrint)|)
  {
    hide Escaped, Resolved;
    var q, e := QuotedText(z, isPrint), Escaped(z, isPrint);
    var n := |e|;
    assert text[h] == text[h..h + |q|][0] == 34;
    assert text[h + 1 + n] == text[h..h + |q|][1 + n] == 34;
    assert text[h + 1..h + 1 + n] == text[h..h + |q|][1..1 + n] == e;
    ClosingQuoteIsFound(text, h + 1, z, isPrint);
    EscapingIsUndone(z, isPrint);
  }

  /** The tokens of quoted arguments are the first `room` texts that were quoted. */
  lemma {:induction false} ArgumentsAreTokens(text: Text, h: nat, fields: seq<Text>, isPrint: byte -> bool, room: nat)
    requires h <= |text|
    requires text[SkipSpaces(text, h)..] == Arguments(fields, isPrint)
    ensures Tokens(text, h, room) == fields[..if room <= |fields| then room else |fields|]
    decreases |fields|
  {
    hide QuotedText, TokenAt, SkipSpaces, Tokens, Arguments;
    if fields == [] {
      NoArguments(isPrint);
      OnlySpacesLeft(text, h, room);
    } else if room == 0 {
      NoTokensLeft(text, h, room);
    } else {
      var next := FirstArgument(text, SkipSpaces(text, h), fields, isPrint);
      ArgumentsAreTokens(text, next, fields[1..], isPrint, room - 1);
      TokensStep(text, h, room);
      Prefixed(fields, room);
    }
  }

  lemma Prefixed(fields: seq<Text>, room: nat)
    requires fields != [] && room > 0
    ensures [fields[0]] + fields[1..][..if room <= |fields| then room - 1 else |fields| - 1]
         == fields[..if room <= |fields| then room else |fields|]
  {
  }

  lemma NoArguments(isPrint: byte -> bool)
    ensures Arguments([], isPrint) == []
  {
  }

  /** The first token of quoted arguments is the first text, and the others follow it. */
  lemma FirstArgument(text: Text, k: nat, fields: seq<Text>, isPrint: byte -> bool) returns (next: nat)
    requires k <= |text| && fields != [] && text[k..] == Arguments(fields, isPrint)
    ensures k < |text| && text[k] == 34 && TokenAt(text, k) == (fields[0], next) && next <= |text|
    ensures text[SkipSpaces(text, next)..] == Arguments(fields[1..], isPrint)
  {
    hide QuotedText, TokenAt, SkipSpaces;
    var q := QuotedText(fields[0], isPrint);
    var gap: Text := if |fields| == 1 then [] else [SPACE];
    var rest := Arguments(fields[1..], isPrint);
    assert text[k..] == q + (gap + rest);
    QuotedIsNotEmpty(fields[0], isPrint);
    assert text[k..k + |q|] == text[k..][..|q|] == q;
    QuotedTextIsOneToken(text, k, fields[0], isPrint);
    next := k + |q|;
    assert text[next..] == text[k..][|q|..] == gap + rest;
    SpaceIsSkipped(text, next, fields[1..], isPrint);
  }

  lemma QuotedIsNotEmpty(z: Text, isPrint: byte -> bool)
    ensures QuotedText(z, isPrint) != [] && QuotedText(z, isPrint)[0] == 34
  {
  }

  lemma SpaceIsSkipped(text: Text, next: nat, fields: seq<Text>, isPrint: byte -> bool)
    requires next <= |text|
    requires text[next..] == (if fields == [] then [] else [SPACE]) + Arguments(fields, isPrint)
    ensures text[SkipSpaces(text, next)..] == Arguments(fields, isPrint)
  {
    hide QuotedText;
    if fields != [] {
      QuotedIsNotEmpty(fields[0], isPrint);
      assert text[next] == text[next..][0] == SPACE;
      assert text[next + 1] == text[next..][1] == 34;
      assert text[next + 1..] == text[next..][1..] == Arguments(fields, isPrint);
    }
  }

  /** Quoting a list of texts and running the tokenizer on the line gives the list back, up to the
      fifty arguments there is room for, whatever counts as printable. */
  lemma QuotingRoundTrip(fields: seq<Text>, isPrint: byte -> bool)
    ensures Tokens(CommandLine(fields, isPrint), 1, MAX_ARGS)
         == fields[..if MAX_ARGS <= |fields| then MAX_ARGS else |fields|]
  {
    hide Tokens, QuotedText;
    var text := CommandLine(fields, isPrint);
    assert text[1..] == Arguments(fields, isPrint);
    if fields != [] {
      QuotedIsNotEmpty(fields[0], isPrint);
      assert text[1] == text[1..][0] == 34;
    }
    ArgumentsAreTokens(text, 1, fields, isPrint, MAX_ARGS);
  }

  /** The line of NUL-free texts holds no NUL, so the tokenizer sees all of it. */
  lemma {:induction false} ArgumentsHaveNoNul(fields: seq<Text>, isPrint: byte -> bool)
    requires forall f :: f in fields ==> CString(f)
    ensures CString(Arguments(fields, isPrint)) && CString(CommandLine(fields, isPrint))
  {
    if fields != [] {
      EscapingWritesNoNul(fields[0], isPrint);
      ArgumentsHaveNoNul(fields[1..], isPrint);
    }
  }

  lemma {:induction false} EscapingWritesNoNul(z: Text, isPrint: byte -> bool)
    requires CString(z)
    ensures CString(Escaped(z, isPrint))
  {
    if z != [] {
      EscapingWritesNoNul(z[1..], isPrint);
    }
  }

  // ---------------------------------------------------------------- lines typed by hand

  /** An argument as it may be typed: a bare word, a single-quoted text, a text in double quotes with
      any escapes in it, or one in double quotes as the escaper writes it. */
  datatype Argument = Word(text: Text) | Single(text: Text) | Quoted(text: Text) | Double(text: Text)

  /** No quote but behind a backslash, and no backslash left over at the end. */
  predicate Balanced(raw: Text) {
    if raw == [] then true
    else if raw[0] == 92 then |raw| > 1 && Balanced(raw[2..])
    else raw[0] != 34 && Balanced(raw[1..])
  }

  predicate IsGap(s: Text) {
    forall k :: 0 <= k < |s| ==> s[k] in {9, 10, 11, 12, 13, 32}
  }

  predicate Typable(a: Argument) {
    match a
    case Word(w) => w != [] && w[0] != 34 && w[0] != 39 && forall k :: 0 <= k < |w| ==> w[k] !in {9, 10, 11, 12, 13, 32}
    case Single(z) => forall k :: 0 <= k < |z| ==> z[k] != 39
    case Quoted(raw) => Balanced(raw)
    case Double(_) => true
  }

  function Typed(a: Argument, isPrint: byte -> bool): Text {
    match a
    case Word(w) => w
    case Single(z) => [39] + z + [39]
    case Quoted(raw) => [34] + raw + [34]
    case Double(z) => QuotedText(z, isPrint)
  }

  /** An argument with the blanks before it. */
  datatype Item = Item(gap: Text, arg: Argument)

  /** A word needs a blank behind it; the other arguments end with their quote. */
  predicate LineOk(items: seq<Item>, tail: Text) {
    && IsGap(tail)
    && forall k :: 0 <= k < |items| ==>
         && IsGap(items[k].gap) && Typable(items[k].arg)
         && (k > 0 && items[k - 1].arg.Word? ==> items[k].gap != [])
  }

  function LineText(items: seq<Item>, tail: Text, isPrint: byte -> bool): Text {
    if items == [] then tail
    else items[0].gap + (Typed(items[0].arg, isPrint) + LineText(items[1..], tail, isPrint))
  }

  /** What an argument says: a word or a double-quoted text as it resolves, a single-quoted one as it
      stands, an escaped one as it was before. */
  function Said(a: Argument): Text {
    match a
    case Word(w) => Resolved(w)
    case Single(z) => z
    case Quoted(raw) => Resolved(raw)
    case Double(z) => z
  }

  lemma {:induction false} GapIsSkipped(text: Text, h: nat, gap: Text, rest: Text)
    requires h <= |text| && text[h..] == gap + rest && IsGap(gap) && (rest != [] ==> !IsSpace(rest[0]))
    ensures h + |gap| <= |text| && SkipSpaces(text, h) == h + |gap| && text[h + |gap|..] == rest
    decreases |gap|
  {
    assert |text| - h == |gap + rest|;
    if gap == [] {
      assert gap + rest == rest;
      assert rest != [] ==> text[h] == text[h..][0] == rest[0];
    } else {
      assert text[h] == text[h..][0] == gap[0];
      assert text[h + 1..] == text[h..][1..] == gap[1..] + rest;
      GapIsSkipped(text, h + 1, gap[1..], rest);
    }
  }

  lemma {:induction false} WordEndsAt(text: Text, h: nat, w: Text, rest: Text)
    requires h <= |text| && text[h..] == w + rest
    requires forall k :: 0 <= k < |w| ==> !IsSpace(w[k])
    requires rest != [] ==> IsSpace(rest[0])
    ensures WordEnd(text, h) == h + |w|
    decreases |w|
  {
    assert |text| - h == |w + rest|;
    if w == [] {
      assert w + rest == rest;
      assert rest != [] ==> text[h] == text[h..][0] == rest[0];
    } else {
      assert text[h] == text[h..][0] == w[0];
      assert text[h + 1..] == text[h..][1..] == w[1..] + rest;
      WordEndsAt(text, h + 1, w[1..], rest);
    }
  }

  lemma {:induction false} SingleEndsAt(text: Text, h: nat, z: Text, rest: Text)
    requires h <= |text| && text[h..] == z + [39] + rest && forall k :: 0 <= k < |z| ==> z[k] != 39
    ensures QuotedEnd(text, h, 39) == h + |z| < |text|
    decreases |z|
  {
    assert |text| - h == |z + [39] + rest|;
    assert text[h] == text[h..][0];
    if z != [] {
      assert text[h + 1..] == text[h..][1..] == z[1..] + [39] + rest;
      SingleEndsAt(text, h + 1, z[1..], rest);
    }
  }

  /** A single quote that is never closed takes in the rest of the line. */
  lemma {:induction false} UnclosedSingleQuote(text: Text, h: nat)
    requires h < |text| && text[h] == 39 && forall k :: h < k < |text| ==> text[k] != 39
    ensures TokenAt(text, h) == (text[h + 1..], |text|)
  {
    NoQuoteAhead(text, h + 1);
    assert text[h + 1..|text|] == text[h + 1..];
  }

  lemma {:induction false} NoQuoteAhead(text: Text, h: nat)
    requires h <= |text| && forall k :: h <= k < |text| ==> text[k] != 39
    ensures QuotedEnd(text, h, 39) == |text|
    decreases |text| - h
  {
    if h < |text| {
      NoQuoteAhead(text, h + 1);
    }
  }

  lemma WordIsToken(text: Text, k: nat, w: Text, rest: Text)
    requires Typable(Word(w)) && k <= |text| && text[k..] == w + rest && (rest != [] ==> IsSpace(rest[0]))
    ensures k < |text| && !IsSpace(text[k]) && |text| == k + |w| + |rest|
    ensures TokenAt(text, k) == (Resolved(w), if |rest| > 0 then k + |w| + 1 else k + |w|)
  {
    hide *;
    WordAhead(text, k, w, rest);
    WordTokenOf(text, k, w);
  }

  lemma WordAhead(text: Text, k: nat, w: Text, rest: Text)
    requires Typable(Word(w)) && k <= |text| && text[k..] == w + rest && (rest != [] ==> IsSpace(rest[0]))
    ensures w != [] && !IsSpace(w[0]) && w[0] != 34 && w[0] != 39 && |text| == k + |w| + |rest|
    ensures text[k..k + |w|] == w && text[k] == w[0] && WordEnd(text, k) == k + |w|
  {
    hide *;
    WordHasNoSpace(w);
    Ahead(text, k, w, rest);
    WordEndsAt(text, k, w, rest);
  }

  lemma WordTokenOf(text: Text, k: nat, w: Text)
    requires w != [] && !IsSpace(w[0]) && w[0] != 34 && w[0] != 39
    requires k + |w| <= |text| && text[k..k + |w|] == w && text[k] == w[0] && WordEnd(text, k) == k + |w|
    ensures TokenAt(text, k) == (Resolved(w), if k + |w| < |text| then k + |w| + 1 else k + |w|)
  {
    hide Resolved, WordEnd, TokenAt, IsSpace;
    WordToken(text, k);
  }

  lemma WordHasNoSpace(w: Text)
    requires Typable(Word(w))
    ensures w != [] && w[0] != 34 && w[0] != 39 && forall k :: 0 <= k < |w| ==> !IsSpace(w[k])
  {
  }

  lemma Ahead(text: Text, k: nat, w: Text, rest: Text)
    requires k <= |text| && text[k..] == w + rest
    ensures k + |w| <= |text| && text[k..k + |w|] == w && (w != [] ==> text[k] == w[0])
    ensures |text| == k + |w| + |rest|
  {
    assert |text| - k == |w + rest|;
    assert text[k..k + |w|] == text[k..][..|w|] == w;
    if w != [] {
      assert text[k] == text[k..][0];
    }
  }

  lemma WordToken(text: Text, k: nat)
    requires k < |text| && !IsSpace(text[k]) && text[k] != 34 && text[k] != 39
    ensures TokenAt(text, k) == (Resolved(text[k..WordEnd(text, k)]), Past(text, WordEnd(text, k)))
  {
    hide Resolved, WordEnd, QuotedEnd;
  }

  lemma SingleIsToken(text: Text, k: nat, z: Text, rest: Text)
    requires Typable(Single(z)) && k <= |text| && text[k..] == [39] + z + [39] + rest
    ensures k < |text| && !IsSpace(text[k]) && TokenAt(text, k) == (z, k + |z| + 2) && k + |z| + 2 <= |text|
  {
    hide Resolved;
    assert |text| - k == |[39] + z + [39] + rest|;
    assert text[k] == text[k..][0] == 39;
    assert text[k + 1..] == text[k..][1..] == z + [39] + rest;
    SingleEndsAt(text, k + 1, z, rest);
    assert text[k + 1..k + 1 + |z|] == text[k + 1..][..|z|] == z;
  }

  lemma {:induction false} QuotedEndsAt(text: Text, h: nat, raw: Text, rest: Text)
    requires h <= |text| && text[h..] == raw + [34] + rest && Balanced(raw)
    ensures QuotedEnd(text, h, 34) == h + |raw| < |text|
    decreases |raw|
  {
    assert |text| - h == |raw + [34] + rest|;
    assert text[h] == text[h..][0];
    if raw != [] && raw[0] == 92 {
      assert text[h + 2..] == text[h..][2..] == raw[2..] + [34] + rest;
      QuotedEndsAt(text, h + 2, raw[2..], rest);
    } else if raw != [] {
      assert text[h + 1..] == text[h..][1..] == raw[1..] + [34] + rest;
      QuotedEndsAt(text, h + 1, raw[1..], rest);
    }
  }

  lemma QuotedToken(text: Text, k: nat)
    requires k < |text| && text[k] == 34
    ensures !IsSpace(text[k])
    ensures TokenAt(text, k) == (Resolved(text[k + 1..QuotedEnd(text, k + 1, 34)]),
                                 Past(text, QuotedEnd(text, k + 1, 34)))
  {
    hide Resolved, QuotedEnd, WordEnd;
  }

  lemma Regrouped(raw: Text, rest: Text)
    ensures [34] + raw + [34] + rest == [34] + (raw + [34] + rest) && raw + [34] + rest == raw + ([34] + rest)
  {
  }

  lemma QuotedAhead(text: Text, k: nat, raw: Text, rest: Text)
    requires Balanced(raw) && k <= |text| && text[k..] == [34] + raw + [34] + rest
    ensures k < |text| && text[k] == 34 && QuotedEnd(text, k + 1, 34) == k + 1 + |raw| < |text|
    ensures text[k + 1..k + 1 + |raw|] == raw
  {
    hide *;
    var more := raw + [34] + rest;
    Regrouped(raw, rest);
    Ahead(text, k, [34], more);
    Behind(text, k, [34], more);
    Ahead(text, k + 1, raw, [34] + rest);
    QuotedEndsAt(text, k + 1, raw, rest);
  }

  lemma QuotedIsToken(text: Text, k: nat, raw: Text, rest: Text)
    requires Balanced(raw) && k <= |text| && text[k..] == [34] + raw + [34] + rest
    ensures k < |text| && !IsSpace(text[k])
    ensures TokenAt(text, k) == (Resolved(raw), k + |raw| + 2) && k + |raw| + 2 <= |text|
  {
    hide *;
    QuotedAhead(text, k, raw, rest);
    QuotedToken(text, k);
    PastIs(text, k + 1 + |raw|);
  }

  lemma PastIs(text: Text, e: nat)
    requires e < |text|
    ensures Past(text, e) == e + 1
  {
  }

  /** No quote but behind a backslash; a backslash may be left over at the end. */
  predicate NeverClosed(raw: Text) {
    if raw == [] then true
    else if raw[0] == 92 then |raw| == 1 || NeverClosed(raw[2..])
    else raw[0] != 34 && NeverClosed(raw[1..])
  }

  /** A double quote that is never closed takes in the rest of the line. */
  lemma UnclosedDoubleQuote(text: Text, h: nat)
    requires h < |text| && text[h] == 34 && NeverClosed(text[h + 1..])
    ensures TokenAt(text, h).1 == |text| && SameButS(TokenAt(text, h).0, AsPromised(text[h + 1..]))
    ensures TokenAt(text, h).0 == AsPromised(text[h + 1..]) <==> !EscapesS(text[h + 1..])
  {
    hide Resolved, AsPromised, EscapesS, SameButS;
    NoQuoteFound(text, h + 1);
    assert text[h + 1..|text|] == text[h + 1..];
    TokenKeepsPromiseIff(text[h + 1..]);
    OnlySpacesAreLost(text[h + 1..]);
  }

  lemma {:induction false} NoQuoteFound(text: Text, h: nat)
    requires h <= |text| && NeverClosed(text[h..])
    ensures QuotedEnd(text, h, 34) == |text|
    decreases |text| - h
  {
    if h < |text| {
      assert text[h] == text[h..][0];
      if text[h] == 92 && h + 1 < |text| {
        assert text[h..][2..] == text[h + 2..];
        NoQuoteFound(text, h + 2);
      } else {
        assert text[h..][1..] == text[h + 1..];
        NoQuoteFound(text, h + 1);
      }
    }
  }

  lemma DoubleIsToken(text: Text, k: nat, z: Text, isPrint: byte -> bool, rest: Text)
    requires k <= |text| && text[k..] == QuotedText(z, isPrint) + rest
    ensures k < |text| && !IsSpace(text[k])
    ensures TokenAt(text, k) == (z, k + |QuotedText(z, isPrint)|) && k + |QuotedText(z, isPrint)| <= |text|
  {
    hide QuotedText, TokenAt;
    var t := QuotedText(z, isPrint);
    assert |text| - k == |t + rest|;
    QuotedIsNotEmpty(z, isPrint);
    assert text[k..k + |t|] == text[k..][..|t|] == t;
    QuotedTextIsOneToken(text, k, z, isPrint);
  }

  /** One argument is one token, and the tokenizer goes on behind it: behind its quote, or behind the
      blank that ends a word. */
  lemma ArgumentIsToken(text: Text, k: nat, a: Argument, isPrint: byte -> bool, rest: Text)
    requires Typable(a) && k <= |text| && text[k..] == Typed(a, isPrint) + rest
    requires a.Word? && rest != [] ==> IsSpace(rest[0])
    ensures k < |text| && !IsSpace(text[k]) && TokenAt(text, k).0 == Said(a)
    ensures var skip := if a.Word? && rest != [] then 1 else 0;
            TokenAt(text, k).1 == k + |Typed(a, isPrint)| + skip <= |text|
  {
    hide Resolved, QuotedText, TokenAt, IsSpace, Balanced;
    match a
    case Word(w) => WordIsToken(text, k, w, rest);
    case Single(z) => SingleIsToken(text, k, z, rest);
    case Quoted(raw) => QuotedIsToken(text, k, raw, rest);
    case Double(z) => DoubleIsToken(text, k, z, isPrint, rest);
  }

  /** What is said by a line whose blanks before the first argument are skipped. */
  function AfterGap(items: seq<Item>, tail: Text, isPrint: byte -> bool): Text {
    if items == [] then [] else Typed(items[0].arg, isPrint) + LineText(items[1..], tail, isPrint)
  }

  lemma TypedBegins(a: Argument, isPrint: byte -> bool)
    requires Typable(a)
    ensures Typed(a, isPrint) != [] && !IsSpace(Typed(a, isPrint)[0])
  {
    hide Escaped;
  }

  lemma LineBegins(items: seq<Item>, tail: Text, isPrint: byte -> bool)
    requires LineOk(items, tail)
    ensures var gap := if items == [] then tail else items[0].gap;
            && IsGap(gap) && LineText(items, tail, isPrint) == gap + AfterGap(items, tail, isPrint)
            && (AfterGap(items, tail, isPrint) != [] ==> !IsSpace(AfterGap(items, tail, isPrint)[0]))
  {
    hide Typed, IsSpace;
    if items != [] {
      TypedBegins(items[0].arg, isPrint);
    } else {
      assert tail + [] == tail;
    }
  }

  lemma BlankBegins(gap: Text, rest: Text)
    requires IsGap(gap) && gap != []
    ensures IsSpace((gap + rest)[0]) && IsGap(gap[1..]) && (gap + rest)[1..] == gap[1..] + rest
  {
  }

  /** Where the tokenizer goes on, the blanks left before the next argument are skipped. */
  lemma NextItem(text: Text, next: nat, word: bool, items: seq<Item>, tail: Text, isPrint: byte -> bool)
    requires LineOk(items, tail) && (word && items != [] ==> items[0].gap != [])
    requires next <= |text|
    requires text[next..] == if word && LineText(items, tail, isPrint) != [] then LineText(items, tail, isPrint)[1..]
                             else LineText(items, tail, isPrint)
    ensures text[SkipSpaces(text, next)..] == AfterGap(items, tail, isPrint)
  {
    hide IsSpace, Typed, LineText, AfterGap, IsGap, SkipSpaces;
    var line, after := LineText(items, tail, isPrint), AfterGap(items, tail, isPrint);
    var gap := if items == [] then tail else items[0].gap;
    LineBegins(items, tail, isPrint);
    if word && line != [] {
      WordLeavesGap(items, tail, isPrint);
      BlankBegins(gap, after);
      GapIsSkipped(text, next, gap[1..], after);
    } else {
      GapIsSkipped(text, next, gap, after);
    }
  }

  lemma WordLeavesGap(items: seq<Item>, tail: Text, isPrint: byte -> bool)
    requires LineText(items, tail, isPrint) != [] && (items != [] ==> items[0].gap != [])
    ensures (if items == [] then tail else items[0].gap) != []
  {
  }

  /** The first argument is the first token, and behind it the others come next. */
  lemma FirstItem(text: Text, k: nat, items: seq<Item>, tail: Text, isPrint: byte -> bool) returns (next: nat)
    requires LineOk(items, tail) && items != [] && k <= |text| && text[k..] == AfterGap(items, tail, isPrint)
    ensures k < |text| && !IsSpace(text[k]) && TokenAt(text, k) == (Said(items[0].arg), next) && next <= |text|
    ensures LineOk(items[1..], tail) && text[SkipSpaces(text, next)..] == AfterGap(items[1..], tail, isPrint)
  {
    hide Typed, Said, TokenAt, SkipSpaces, IsSpace, IsGap, Typable, LineText, LineOk;
    var a, others := items[0].arg, items[1..];
    var rest := LineText(others, tail, isPrint);
    OthersOk(items, tail);
    if a.Word? && rest != [] {
      BlankFollows(others, tail, isPrint);
    }
    ArgumentIsToken(text, k, a, isPrint, rest);
    next := TokenAt(text, k).1;
    Behind(text, k, Typed(a, isPrint), rest);
    NextItem(text, next, a.Word?, others, tail, isPrint);
  }

  lemma Behind(text: Text, k: nat, t: Text, rest: Text)
    requires k <= |text| && text[k..] == t + rest
    ensures k + |t| <= |text| && text[k + |t|..] == rest
    ensures rest != [] ==> text[k + |t| + 1..] == rest[1..]
  {
    assert |text| - k == |t + rest|;
    assert text[k + |t|..] == text[k..][|t|..];
    if rest != [] {
      assert text[k + |t| + 1..] == text[k..][|t| + 1..];
    }
  }

  lemma BlankFollows(items: seq<Item>, tail: Text, isPrint: byte -> bool)
    requires LineOk(items, tail) && LineText(items, tail, isPrint) != [] && (items != [] ==> items[0].gap != [])
    ensures IsSpace(LineText(items, tail, isPrint)[0])
  {
    hide Typed, LineText, AfterGap, IsSpace, IsGap;
    WordLeavesGap(items, tail, isPrint);
    LineBegins(items, tail, isPrint);
    BlankBegins(if items == [] then tail else items[0].gap, AfterGap(items, tail, isPrint));
  }

  lemma {:induction false} ItemsAreTokens(text: Text, h: nat, items: seq<Item>, tail: Text, isPrint: byte -> bool,
        room: nat)
    requires LineOk(items, tail) && h <= |text|
    requires text[SkipSpaces(text, h)..] == AfterGap(items, tail, isPrint)
    ensures |Tokens(text, h, room)| == if room <= |items| then room else |items|
    ensures forall k :: 0 <= k < |Tokens(text, h, room)| ==> Tokens(text, h, room)[k] == Said(items[k].arg)
    decreases |items|
  {
    hide Typed, Said, TokenAt, SkipSpaces, Tokens, IsSpace, LineText, LineOk, AfterGap;
    if items == [] {
      NothingAfterGap(tail, isPrint);
      OnlySpacesLeft(text, h, room);
    } else if room == 0 {
      NoTokensLeft(text, h, room);
    } else {
      var next := FirstItem(text, SkipSpaces(text, h), items, tail, isPrint);
      ItemsAreTokens(text, next, items[1..], tail, isPrint, room - 1);
      TokensStep(text, h, room);
    }
  }

  lemma NothingAfterGap(tail: Text, isPrint: byte -> bool)
    ensures AfterGap([], tail, isPrint) == []
  {
  }

  lemma OthersOk(items: seq<Item>, tail: Text)
    requires LineOk(items, tail) && items != []
    ensures LineOk(items[1..], tail) && Typable(items[0].arg)
    ensures items[0].arg.Word? && |items| > 1 ==> items[1..][0].gap != []
  {
    hide Typable, IsGap;
    var others := items[1..];
    assert forall k :: 0 <= k < |others| ==> others[k] == items[k + 1];
    assert forall k :: 0 < k < |others| ==> others[k - 1] == items[k];
  }

  /** The tokens of a line typed by hand, up to fifty, are one for one what its arguments say: bare
      words and double-quoted texts as documented but for the escapes of an `s`, single-quoted texts
      as they stand, and escaped ones as they were before. */
  lemma TypedLineIsTokenized(items: seq<Item>, tail: Text, isPrint: byte -> bool)
    requires LineOk(items, tail)
    ensures var tokens := Tokens([46] + LineText(items, tail, isPrint), 1, 50);
            && |tokens| == (if 50 <= |items| then 50 else |items|)
            && forall k :: 0 <= k < |tokens| ==>
                 var z := items[k].arg.text;
                 if items[k].arg.Single? || items[k].arg.Double? then tokens[k] == z
                 else SameButS(tokens[k], AsPromised(z)) && (tokens[k] == AsPromised(z) <==> !EscapesS(z))
  {
    hide Typed, Tokens, SkipSpaces, Typable, LineText, AfterGap, Resolved, AsPromised, EscapesS, SameButS;
    var text: Text := [46] + LineText(items, tail, isPrint);
    assert text[1..] == LineText(items, tail, isPrint);
    NextItem(text, 1, false, items, tail, isPrint);
    ItemsAreTokens(text, 1, items, tail, isPrint, 50);
    forall k | 0 <= k < |items| && (items[k].arg.Word? || items[k].arg.Quoted?)
      ensures var z := items[k].arg.text;
              SameButS(Said(items[k].arg), AsPromised(z)) && (Said(items[k].arg) == AsPromised(z) <==> !EscapesS(z))
    {
      TokenKeepsPromiseIff(items[k].arg.text);
      OnlySpacesAreLost(items[k].arg.text);
    }
  }

  // ------------------------------------------------------------------ what the escaper writes

  /** A byte is written as it is, as a backslash and a character, or as a backslash and three digits:
      as it is if it is printable and neither a quote nor a backslash, with a character if it is one
      of those, a tab or a line end, and with digits in all other cases. */
  lemma EscapeForms(b: byte, isPrint: byte -> bool)
    ensures |EscapedByte(b, isPrint)| == if b in {9, 10, 13, 34, 92} then 2 else if isPrint(b) then 1 else 4
    ensures |EscapedByte(b, isPrint)| == 1 ==> EscapedByte(b, isPrint) == [b]
    ensures |EscapedByte(b, isPrint)| > 1 ==>
              && EscapedByte(b, isPrint)[0] == 92
              && AsPromised(EscapedByte(b, isPrint)) == [b]
              && forall k :: 1 <= k < |EscapedByte(b, isPrint)| ==> 34 <= EscapedByte(b, isPrint)[k] <= 116
  {
    hide Resolved, AsPromised, EscapesS;
    var piece := EscapedByte(b, isPrint);
    assert piece + [] == piece;
    PieceResolves(b, isPrint, []);
    NothingResolved();
    if |piece| > 1 {
      PieceEscapesNoS(b, isPrint);
      TokenKeepsPromiseIff(piece);
    }
  }

  lemma PieceEscapesNoS(b: byte, isPrint: byte -> bool)
    requires |EscapedByte(b, isPrint)| > 1
    ensures !EscapesS(EscapedByte(b, isPrint))
  {
    hide PromisedAt, EscapeAt, Resolved, AsPromised;
    var piece := EscapedByte(b, isPrint);
    assert piece[1..][0] == piece[1];
    if |piece| == 2 {
      ShortEscape(piece);
    } else {
      DigitsAreRead(b, []);
      assert Octal(b)[1..] + [] == piece[1..];
      EscapeKeepsPromise(piece[1..]);
      assert piece[4..] == [];
    }
  }

  lemma ShortEscape(s: Text)
    requires |s| == 2 && s[0] == 92 && s[1] != 115
    ensures !EscapesS(s)
  {
    assert s[1..][0] == s[1];
    assert |s[1..]| == 1 && s[2..] == [];
  }
}

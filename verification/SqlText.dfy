/** How `database/databaseServer.c` writes its queries: pieces printed into one buffer at a cursor
    that moves by digit counts. A total is a whole number of cents. */
module SqlText {
  import opened Bytes
  import opened Orders
  import opened Decimal

  // ------------------------------------------------------- a buffer written at a cursor

  /** What one `sprintf` prints, and how far the cursor moves for it. */
  datatype Piece = Piece(text: seq<byte>, step: nat)

  /** `sprintf(buffer + index, ...)`: the text and a NUL. */
  function Written(buffer: seq<byte>, index: nat, text: seq<byte>): (r: seq<byte>)
    requires index + |text| < |buffer|
    ensures |r| == |buffer|
  {
    buffer[..index] + text + [0] + buffer[index + |text| + 1..]
  }

  predicate Fits(size: nat, index: nat, pieces: seq<Piece>)
    decreases |pieces|
  {
    if pieces == [] then index < size
    else index + |pieces[0].text| < size && Fits(size, index + pieces[0].step, pieces[1..])
  }

  /** The buffer after all pieces and the NUL that is stored at the cursor in the end. */
  function Finished(buffer: seq<byte>, index: nat, pieces: seq<Piece>): (r: seq<byte>)
    requires Fits(|buffer|, index, pieces)
    ensures |r| == |buffer|
    decreases |pieces|
  {
    if pieces == [] then buffer[index := 0]
    else Finished(Written(buffer, index, pieces[0].text), index + pieces[0].step, pieces[1..])
  }

  function Concatenated(pieces: seq<Piece>): seq<byte> {
    if pieces == [] then [] else pieces[0].text + Concatenated(pieces[1..])
  }

  /** The C string at the front of a buffer. */
  function TextOf(buffer: seq<byte>): (s: seq<byte>)
    ensures s <= buffer && CString(s) && (|s| < |buffer| ==> buffer[|s|] == 0)
  {
    if buffer == [] || buffer[0] == 0 then [] else [buffer[0]] + TextOf(buffer[1..])
  }

  lemma TextEndsAt(buffer: seq<byte>, n: nat)
    requires n < |buffer| && buffer[n] == 0
    ensures |TextOf(buffer)| <= n
    ensures CString(buffer[..n]) ==> TextOf(buffer) == buffer[..n]
  {
  }

  /** Every step is as long as its text; only the last may be longer. */
  predicate StepsRight(pieces: seq<Piece>) {
    forall k :: 0 <= k < |pieces| ==>
      if k < |pieces| - 1 then pieces[k].step == |pieces[k].text| else pieces[k].step >= |pieces[k].text|
  }

  predicate Printable(pieces: seq<Piece>) {
    forall k :: 0 <= k < |pieces| ==> pieces[k].text != [] && CString(pieces[k].text)
  }

  lemma {:induction false} RightStepsConcatenate(buffer: seq<byte>, index: nat, pieces: seq<Piece>)
    requires pieces != [] && StepsRight(pieces) && Printable(pieces) && Fits(|buffer|, index, pieces)
    requires CString(buffer[..index])
    ensures TextOf(Finished(buffer, index, pieces)) == buffer[..index] + Concatenated(pieces)
    decreases |pieces|
  {
    hide TextOf;
    var p, rest := pieces[0], pieces[1..];
    var end := index + |p.text|;
    var b := Written(buffer, index, p.text);
    assert b[..end] == buffer[..index] + p.text;
    if rest == [] {
      var done := Finished(b, index + p.step, rest);
      assert done[..end] == b[..end] && done[end] == 0;
      TextEndsAt(done, end);
      assert Concatenated(pieces) == p.text + [];
    } else {
      assert StepsRight(rest) by {
        assert forall k :: 0 <= k < |rest| ==> rest[k] == pieces[k + 1];
      }
      RightStepsConcatenate(b, end, rest);
      assert buffer[..index] + p.text + Concatenated(rest) == buffer[..index] + (p.text + Concatenated(rest));
    }
  }

  /** The cursor fell behind where the text should be, or a NUL stays behind it. */
  ghost predicate Lost(buffer: seq<byte>, index: nat, total: nat) {
    index < total || exists n :: 0 <= n < index && n < total && n < |buffer| && buffer[n] == 0
  }

  lemma {:induction false} LostStaysLost(buffer: seq<byte>, index: nat, total: nat, pieces: seq<Piece>)
    requires Lost(buffer, index, total) && Fits(|buffer|, index, pieces)
    ensures |TextOf(Finished(buffer, index, pieces))| < total + |Concatenated(pieces)|
    decreases |pieces|
  {
    hide TextOf;
    if pieces == [] {
      var done := Finished(buffer, index, pieces);
      if index < total {
        TextEndsAt(done, index);
      } else {
        var n :| 0 <= n < index && n < total && n < |buffer| && buffer[n] == 0;
        assert done[n] == 0;
        TextEndsAt(done, n);
      }
    } else {
      var p := pieces[0];
      var b, end := Written(buffer, index, p.text), index + |p.text|;
      assert b[end] == 0;
      if index >= total {
        var n :| 0 <= n < index && n < total && n < |buffer| && buffer[n] == 0;
        assert b[n] == 0;
      } else if index + p.step > end {
        assert end < total + |p.text|;
      }
      assert Lost(b, index + p.step, total + |p.text|);
      LostStaysLost(b, index + p.step, total + |p.text|, pieces[1..]);
    }
  }

  lemma {:induction false} WrongStepsLoseText(buffer: seq<byte>, index: nat, pieces: seq<Piece>)
    requires pieces != [] && !StepsRight(pieces) && Printable(pieces) && Fits(|buffer|, index, pieces)
    ensures |TextOf(Finished(buffer, index, pieces))| < index + |Concatenated(pieces)|
    decreases |pieces|
  {
    hide TextOf, Lost, StepsRight;
    var p, rest := pieces[0], pieces[1..];
    var end := index + |p.text|;
    var b := Written(buffer, index, p.text);
    WrongAfterFirst(pieces);
    if p.step < |p.text| {
      LostBehind(b, index + p.step, end);
      LostStaysLost(b, index + p.step, end, rest);
    } else if p.step == |p.text| {
      WrongStepsLoseText(b, end, rest);
    } else {
      StrandedNul(b, index + p.step, end, rest);
    }
  }

  lemma WrongAfterFirst(pieces: seq<Piece>)
    requires pieces != [] && !StepsRight(pieces)
    ensures pieces[0].step >= |pieces[0].text| ==> |pieces| > 1
    ensures pieces[0].step == |pieces[0].text| ==> !StepsRight(pieces[1..])
  {
  }

  lemma LostBehind(buffer: seq<byte>, index: nat, total: nat)
    requires index < total
    ensures Lost(buffer, index, total)
  {
  }

  lemma NulLeftBehind(buffer: seq<byte>, index: nat, total: nat, n: nat)
    requires n < index && n < total && n < |buffer| && buffer[n] == 0
    ensures Lost(buffer, index, total)
  {
  }

  /** A cursor past the NUL of its own text leaves it there. */
  lemma StrandedNul(buffer: seq<byte>, index: nat, end: nat, pieces: seq<Piece>)
    requires end < index && end < |buffer| && buffer[end] == 0
    requires pieces != [] && Printable(pieces) && Fits(|buffer|, index, pieces)
    ensures |TextOf(Finished(buffer, index, pieces))| < end + |Concatenated(pieces)|
  {
    hide TextOf, Lost, Finished;
    var p := pieces[0];
    var b := Written(buffer, index, p.text);
    assert pieces == [p] + pieces[1..];
    FinishedAfterFirst(buffer, index, p, pieces[1..]);
    NulLeftBehind(b, index + p.step, end + |p.text|, end);
    LostStaysLost(b, index + p.step, end + |p.text|, pieces[1..]);
  }

  /** The buffer holds the plain concatenation exactly when every step is right. */
  lemma TextIsWholeIffStepsRight(buffer: seq<byte>, pieces: seq<Piece>)
    requires pieces != [] && Printable(pieces) && Fits(|buffer|, 0, pieces)
    ensures TextOf(Finished(buffer, 0, pieces)) == Concatenated(pieces) <==> StepsRight(pieces)
  {
    hide StepsRight, TextOf, Finished;
    if StepsRight(pieces) {
      RightStepsConcatenate(buffer, 0, pieces);
      assert buffer[..0] + Concatenated(pieces) == Concatenated(pieces);
    } else {
      WrongStepsLoseText(buffer, 0, pieces);
    }
  }

  // ------------------------------------------------------------------ what is printed

  const COMMA: byte := 44
  const POINT: byte := 46
  const QUOTE: byte := 34
  const CLOSE: byte := 41

  function Ascii(s: string): (b: seq<byte>)
    ensures |b| == |s| && CString(b)
  {
    seq(|s|, k requires 0 <= k < |s| => if 0 < s[k] as int < 128 then s[k] as int else 63)
  }

  /** What `%.2f` prints for a whole number of cents. */
  function Money(cents: int): (s: seq<byte>)
    ensures CString(s)
  {
    var m := Magnitude(cents);
    (if cents < 0 then [MINUS] else []) + Digits(m / 100) + [POINT, ZERO + m / 10 % 10, ZERO + m % 10]
  }

  /** The conversion of an amount to `int`, toward zero. */
  function Whole(cents: int): int {
    if cents < 0 then -(-cents / 100) else cents / 100
  }

  /** A long passed where an `int` is expected. */
  function AsInt(n: int): (r: int)
    ensures FitsInt(r) && (FitsInt(n) ==> r == n)
  {
    (n + 0x8000_0000) % 0x1_0000_0000 - 0x8000_0000
  }

  /** The digits of the whole part, a point and two decimals: short by one exactly for amounts that
      are negative and above minus one, whose sign the whole part lacks. */
  lemma MoneyWidth(cents: int)
    ensures |Money(cents)| == |Printed(Whole(cents))| + 3 <==> !(-100 < cents < 0)
    ensures -100 < cents < 0 ==> |Money(cents)| == |Printed(Whole(cents))| + 4
  {
  }

  // ----------------------------------------------------------------------- the queries

  const INSERT_ORDER := "INSERT INTO orders (total, address, `time`) VALUES ("
  const INSERT_ENTRY := "INSERT INTO orderEntry (order_id, product_id, quantity) VALUES ("
  const SELECT_STOCK := "SELECT quantity FROM products WHERE id="

  function OrderPieces(cents: int, address: seq<byte>, timestamp: int): (pieces: seq<Piece>) {
    [Piece(Ascii(INSERT_ORDER), |INSERT_ORDER|),
     Piece(Money(cents) + [COMMA], |Printed(Whole(cents))| + 1 + 2 + 1),
     Piece([QUOTE] + address + [QUOTE, COMMA], 1 + |address| + 1 + 1),
     Piece(Printed(timestamp) + [CLOSE], |Printed(AsInt(timestamp))| + 1)]
  }

  function EntryPieces(orderId: int, productId: int32, quantity: int): (pieces: seq<Piece>) {
    [Piece(Ascii(INSERT_ENTRY), |INSERT_ENTRY|),
     Piece(Printed(orderId) + [COMMA], |Printed(AsInt(orderId))| + 1),
     Piece(Printed(productId) + [COMMA], |Printed(productId)| + 1),
     Piece(Printed(quantity) + [CLOSE], |Printed(quantity)| + 1)]
  }

  // ------------------------------------------------------------- what fits the buffer

  /** The size of the buffer both inserting queries are written into. */
  const QUERY_SIZE: nat := 1024

  function Wider(m: int, n: int): nat {
    if |Printed(m)| < |Printed(n)| then |Printed(n)| else |Printed(m)|
  }

  /** The room an order's query takes, its NUL left out. */
  function OrderQueryLength(cents: int, addressLen: nat, timestamp: int): nat {
    |INSERT_ORDER| + (|Printed(Whole(cents))| + 4) + (addressLen + 3) + (Wider(timestamp, AsInt(timestamp)) + 1)
  }

  lemma FourFit(size: nat, p: seq<Piece>)
    requires |p| == 4
    ensures var i, j, k := p[0].step, p[0].step + p[1].step, p[0].step + p[1].step + p[2].step;
            Fits(size, 0, p)
            <==> && |p[0].text| < size && i + |p[1].text| < size && j + |p[2].text| < size
                 && k + |p[3].text| < size && k + p[3].step < size
  {
    assert p[1..][1..] == p[2..] && p[2..][1..] == p[3..] && p[3..][1..] == [];
    var i, j, k := p[0].step, p[0].step + p[1].step, p[0].step + p[1].step + p[2].step;
    assert Fits(size, k, p[3..]) <==> k + |p[3].text| < size && k + p[3].step < size;
    assert Fits(size, j, p[2..]) <==> j + |p[2].text| < size && Fits(size, k, p[3..]);
    assert Fits(size, i, p[1..]) <==> i + |p[1].text| < size && Fits(size, j, p[2..]);
  }

  /** For every total, address and time: the query stays inside its buffer exactly when its
      length is below the buffer's size. */
  lemma OrderQueryFitsIff(size: nat, cents: int, address: seq<byte>, timestamp: int)
    ensures Fits(size, 0, OrderPieces(cents, address, timestamp))
       <==> OrderQueryLength(cents, |address|, timestamp) < size
  {
    hide Ascii, Printed, Fits, Money, Whole, AsInt;
    MoneyWidth(cents);
    FourFit(size, OrderPieces(cents, address, timestamp));
  }

  /** An address fits whatever the total and the time, as far as both are ints, exactly up to
      `ADDRESS_MAX` characters. */
  lemma AddressAlwaysFitsIffShort(n: nat)
    ensures (forall cents, timestamp :: FitsInt(Whole(cents)) && FitsInt(timestamp)
               ==> OrderQueryLength(cents, n, timestamp) < QUERY_SIZE)
       <==> n <= ADDRESS_MAX
  {
    hide Printed, Whole, AsInt;
    forall cents, timestamp | FitsInt(Whole(cents)) && FitsInt(timestamp)
      ensures OrderQueryLength(cents, n, timestamp) <= 52 + 15 + (n + 3) + 12
    {
      PrintedWidths(Whole(cents));
      PrintedWidths(timestamp);
      assert AsInt(timestamp) == timestamp;
    }
    LongestQuery(n);
  }

  lemma LongestQuery(n: nat)
    ensures FitsInt(Whole(-0x8000_0000 * 100)) && FitsInt(-0x8000_0000)
    ensures OrderQueryLength(-0x8000_0000 * 100, n, -0x8000_0000) == 52 + 15 + (n + 3) + 12
  {
    hide Printed;
    PrintedWidths(0);
    assert Whole(-0x8000_0000 * 100) == -0x8000_0000;
  }

  predicate FitsLong(n: int) {
    -0x8000_0000_0000_0000 <= n < 0x8000_0000_0000_0000
  }

  /** A line's query always fits, for every row id the engine can give an order. */
  lemma EntryQueryFits(orderId: int, productId: int32, quantity: int32)
    requires FitsLong(orderId)
    ensures Fits(QUERY_SIZE, 0, EntryPieces(orderId, productId, quantity))
  {
    hide Ascii, Printed, Fits, AsInt;
    PrintedWidths(orderId);
    PrintedWidths(AsInt(orderId));
    PrintedWidths(productId);
    PrintedWidths(quantity);
    FourFit(QUERY_SIZE, EntryPieces(orderId, productId, quantity));
  }

  // ------------------------------------------------------------------ what they should say

  function OrderText(cents: int, address: seq<byte>, timestamp: int): seq<byte> {
    Ascii(INSERT_ORDER) + (Money(cents) + [COMMA]) + ([QUOTE] + address + [QUOTE, COMMA])
    + (Printed(timestamp) + [CLOSE])
  }

  function EntryText(orderId: int, productId: int, quantity: int): seq<byte> {
    Ascii(INSERT_ENTRY) + (Printed(orderId) + [COMMA]) + (Printed(productId) + [COMMA]) + (Printed(quantity) + [CLOSE])
  }

  /** The text of an amount read back: a minus sign for a debt, and the digits before and after the
      point are those of the cents. */
  lemma MoneyReadsBack(cents: int) returns (whole: seq<byte>, tenths: byte, hundredths: byte)
    ensures Money(cents) == (if cents < 0 then [MINUS] else []) + whole + [POINT, tenths, hundredths]
    ensures whole != [] && forall k :: 0 <= k < |whole| ==> ZERO <= whole[k] <= ZERO + 9
    ensures ZERO <= tenths <= ZERO + 9 && ZERO <= hundredths <= ZERO + 9
    ensures DigitsValue(whole + [tenths] + [hundredths]) == if cents < 0 then -cents else cents
  {
    var m := Magnitude(cents);
    whole, tenths, hundredths := Digits(m / 100), ZERO + m / 10 % 10, ZERO + m % 10;
    DigitsRoundTrip(m / 100);
    OneMoreDigit(whole, tenths);
    OneMoreDigit(whole + [tenths], hundredths);
  }

  lemma OneMoreDigit(s: seq<byte>, d: byte)
    ensures DigitsValue(s + [d]) == 10 * DigitsValue(s) + (d - ZERO)
  {
    assert (s + [d])[..|s|] == s;
  }

  lemma MoneyIsInjective(m: int, n: int)
    requires Money(m) == Money(n)
    ensures m == n
  {
    hide Money, DigitsValue;
    var a, x, y := MoneyReadsBack(m);
    var b, z, w := MoneyReadsBack(n);
    var s, t := Money(m), Money(n);
    assert m < 0 <==> s[0] == MINUS;
    assert n < 0 <==> t[0] == MINUS;
    var k := if m < 0 then 1 else 0;
    assert a == s[k..|s| - 3] && b == t[k..|t| - 3];
    assert x == s[|s| - 2] && y == s[|s| - 1] && z == t[|t| - 2] && w == t[|t| - 1];
  }

  function UpTo(s: seq<byte>, mark: byte): seq<byte> {
    if s == [] || s[0] == mark then [] else [s[0]] + UpTo(s[1..], mark)
  }

  lemma {:induction false} UpToMark(x: seq<byte>, mark: byte, r: seq<byte>)
    requires mark !in x
    ensures UpTo(x + [mark] + r, mark) == x && (x + [mark] + r)[|x| + 1..] == r
    decreases |x|
  {
    if x != [] {
      assert (x + [mark] + r)[1..] == x[1..] + [mark] + r;
      UpToMark(x[1..], mark, r);
    }
  }

  /** Two texts with an end mark that neither holds are equal, mark and rest included, only together. */
  lemma SplitAtMark(x: seq<byte>, y: seq<byte>, mark: byte, r: seq<byte>, s: seq<byte>)
    requires x + [mark] + r == y + [mark] + s && mark !in x && mark !in y
    ensures x == y && r == s
  {
    UpToMark(x, mark, r);
    UpToMark(y, mark, s);
  }

  /** The query of a line names one row only. */
  lemma EntryTextNamesRow(a: int, b: int, c: int, x: int, y: int, z: int)
    requires EntryText(a, b, c) == EntryText(x, y, z)
    ensures a == x && b == y && c == z
  {
    hide Ascii, Printed;
    var head := Ascii(INSERT_ENTRY);
    var s, t := Printed(b) + [COMMA] + (Printed(c) + [CLOSE]), Printed(y) + [COMMA] + (Printed(z) + [CLOSE]);
    assert EntryText(a, b, c) == head + (Printed(a) + [COMMA] + s);
    assert EntryText(x, y, z) == head + (Printed(x) + [COMMA] + t);
    assert Printed(a) + [COMMA] + s == EntryText(a, b, c)[|head|..] == Printed(x) + [COMMA] + t;
    SplitAtMark(Printed(a), Printed(x), COMMA, s, t);
    SplitAtMark(Printed(b), Printed(y), COMMA, Printed(c) + [CLOSE], Printed(z) + [CLOSE]);
    assert Printed(c) + [CLOSE] + [] == Printed(c) + [CLOSE] && Printed(z) + [CLOSE] + [] == Printed(z) + [CLOSE];
    SplitAtMark(Printed(c), Printed(z), CLOSE, [], []);
    PrintedIsInjective(a, x);
    PrintedIsInjective(b, y);
    PrintedIsInjective(c, z);
  }

  /** And the query of an order names one total, one address and one time, as long as no address
      holds a quote. */
  lemma OrderTextNamesOrder(m: int, a: seq<byte>, p: int, n: int, b: seq<byte>, q: int)
    requires OrderText(m, a, p) == OrderText(n, b, q) && QUOTE !in a && QUOTE !in b
    ensures m == n && a == b && p == q
  {
    hide Ascii, Printed, Money;
    var head := Ascii(INSERT_ORDER);
    var x, y := [COMMA] + (Printed(p) + [CLOSE]), [COMMA] + (Printed(q) + [CLOSE]);
    var s, t := [QUOTE] + (a + [QUOTE] + x), [QUOTE] + (b + [QUOTE] + y);
    assert [QUOTE] + a + [QUOTE, COMMA] + (Printed(p) + [CLOSE]) == s;
    assert [QUOTE] + b + [QUOTE, COMMA] + (Printed(q) + [CLOSE]) == t;
    assert OrderText(m, a, p) == head + (Money(m) + [COMMA] + s);
    assert OrderText(n, b, q) == head + (Money(n) + [COMMA] + t);
    assert Money(m) + [COMMA] + s == OrderText(m, a, p)[|head|..] == Money(n) + [COMMA] + t;
    MoneyHasNoComma(m);
    MoneyHasNoComma(n);
    SplitAtMark(Money(m), Money(n), COMMA, s, t);
    assert s[1..] == a + [QUOTE] + x && t[1..] == b + [QUOTE] + y;
    SplitAtMark(a, b, QUOTE, x, y);
    assert x[1..] == Printed(p) + [CLOSE] + [] && y[1..] == Printed(q) + [CLOSE] + [];
    SplitAtMark(Printed(p), Printed(q), CLOSE, [], []);
    MoneyIsInjective(m, n);
    PrintedIsInjective(p, q);
  }

  lemma MoneyHasNoComma(cents: int)
    ensures COMMA !in Money(cents)
  {
    hide Money;
    var whole, x, y := MoneyReadsBack(cents);
  }

  lemma FinishedAfterFirst(buffer: seq<byte>, index: nat, p: Piece, rest: seq<Piece>)
    requires Fits(|buffer|, index, [p] + rest)
    ensures index + |p.text| < |buffer| && Fits(|buffer|, index + p.step, rest)
    ensures Finished(buffer, index, [p] + rest) == Finished(Written(buffer, index, p.text), index + p.step, rest)
  {
  }

  lemma FourConcatenated(p: Piece, q: Piece, r: Piece, s: Piece)
    ensures Concatenated([p, q, r, s]) == p.text + q.text + r.text + s.text
  {
    assert [p, q, r, s][1..] == [q, r, s] && [q, r, s][1..] == [r, s] && [r, s][1..] == [s] && [s][1..] == [];
    assert Concatenated([s]) == s.text + [] == s.text;
    assert Concatenated([r, s]) == r.text + s.text;
    assert Concatenated([q, r, s]) == q.text + (r.text + s.text);
    assert p.text + (q.text + (r.text + s.text)) == p.text + q.text + r.text + s.text;
  }

  /** Prints one of the pieces still to come at the cursor. */
  method PrintPiece(query: array<byte>, index: nat, text: seq<byte>, ghost step: nat, ghost rest: seq<Piece>)
    requires Fits(query.Length, index, [Piece(text, step)] + rest)
    modifies query
    ensures Fits(query.Length, index + step, rest)
    ensures Finished(query[..], index + step, rest) == Finished(old(query[..]), index, [Piece(text, step)] + rest)
  {
    FinishedAfterFirst(query[..], index, Piece(text, step), rest);
    hide Finished, Fits;
    Store(query, index, text);
    query[index + |text|] := 0;
    assert query[..] == Written(old(query[..]), index, text);
  }

  /** Stores the final NUL. */
  method CloseText(query: array<byte>, index: nat)
    requires Fits(query.Length, index, [])
    modifies query
    ensures query[..] == Finished(old(query[..]), index, [])
  {
    query[index] := 0;
  }

  /** The query that records an order, as the four `sprintf` calls leave it, is the plain
      concatenation exactly when the amount is not one of those whose sign has no digit and the time
      has no more digits than its conversion to `int`. */
  method OrderQuery(query: array<byte>, cents: int, address: seq<byte>, timestamp: int) returns (index: nat)
    requires FitsInt(Whole(cents)) && CString(address)
    requires OrderQueryLength(cents, |address|, timestamp) < query.Length
    modifies query
    ensures TextOf(query[..]) == OrderText(cents, address, timestamp)
       <==> !(-100 < cents < 0) && |Printed(timestamp)| <= |Printed(AsInt(timestamp))|
  {
    hide Ascii, Money, Printed, TextOf, Fits, Finished, OrderQueryLength;
    ghost var pieces, before := OrderPieces(cents, address, timestamp), query[..];
    OrderQueryFitsIff(query.Length, cents, address, timestamp);
    OrderQueryIsWhole(before, cents, address, timestamp);
    SplitFour(pieces);
    index := 0;
    PrintPiece(query, index, Ascii(INSERT_ORDER), |INSERT_ORDER|, pieces[1..]);
    index := index + |INSERT_ORDER|;
    var digits := CountDigits(Whole(cents));
    PrintPiece(query, index, Money(cents) + [COMMA], digits + 1 + 2 + 1, pieces[2..]);
    index := index + digits + 1 + 2 + 1;
    PrintPiece(query, index, [QUOTE] + address + [QUOTE, COMMA], 1 + |address| + 1 + 1, pieces[3..]);
    index := index + 1 + |address| + 1 + 1;
    digits := CountDigits(AsInt(timestamp));
    PrintPiece(query, index, Printed(timestamp) + [CLOSE], digits + 1, []);
    index := index + digits + 1;
    CloseText(query, index);
  }

  /** The query that records a line: whole exactly when the order's id prints as wide as its
      conversion to `int`; the product id and the quantity are ints and always right. */
  method EntryQuery(query: array<byte>, orderId: int, productId: int32, quantity: int32) returns (index: nat)
    requires query.Length == QUERY_SIZE && FitsLong(orderId)
    modifies query
    ensures TextOf(query[..]) == EntryText(orderId, productId, quantity)
       <==> |Printed(orderId)| == |Printed(AsInt(orderId))|
  {
    hide Ascii, Printed, TextOf, Fits, Finished;
    ghost var pieces, before := EntryPieces(orderId, productId, quantity), query[..];
    EntryQueryFits(orderId, productId, quantity);
    EntryQueryIsWhole(before, orderId, productId, quantity);
    SplitFour(pieces);
    index := 0;
    PrintPiece(query, index, Ascii(INSERT_ENTRY), |INSERT_ENTRY|, pieces[1..]);
    index := index + |INSERT_ENTRY|;
    var digits := CountDigits(AsInt(orderId));
    PrintPiece(query, index, Printed(orderId) + [COMMA], digits + 1, pieces[2..]);
    index := index + digits + 1;
    digits := CountDigits(productId);
    PrintPiece(query, index, Printed(productId) + [COMMA], digits + 1, pieces[3..]);
    index := index + digits + 1;
    digits := CountDigits(quantity);
    PrintPiece(query, index, Printed(quantity) + [CLOSE], digits + 1, []);
    index := index + digits + 1;
    CloseText(query, index);
  }

  /** `get_stock` sizes its buffer by the same count, and the query fills it to its NUL. */
  method StockQuery(productId: int32) returns (query: array<byte>)
    ensures fresh(query) && query.Length == |SELECT_STOCK| + |Printed(productId)| + 1
    ensures TextOf(query[..]) == Ascii(SELECT_STOCK) + Printed(productId)
  {
    hide Ascii, Printed, TextOf;
    var digits := CountDigits(productId);
    query := new byte[|SELECT_STOCK| + digits + 1];
    var text := Ascii(SELECT_STOCK) + Printed(productId);
    Store(query, 0, text);
    query[|text|] := 0;
    assert query[..|text|] == text;
    PrintedIsText(productId);
    TextEndsAt(query[..], |text|);
    assert query[..][..|text|] == query[..|text|];
  }

  lemma SplitFour(p: seq<Piece>)
    requires |p| == 4
    ensures p == [p[0]] + p[1..] && p[1..] == [p[1]] + p[2..] && p[2..] == [p[2]] + p[3..] && p[3..] == [p[3]] + []
  {
  }

  lemma PrintedIsText(n: int)
    ensures CString(Printed(n)) && Printed(n) != []
  {
  }

  lemma FourSteps(p: seq<Piece>)
    requires |p| == 4
    ensures StepsRight(p) <==> && p[0].step == |p[0].text| && p[1].step == |p[1].text| && p[2].step == |p[2].text|
                               && p[3].step >= |p[3].text|
    ensures Printable(p) <==> forall k :: 0 <= k < 4 ==> p[k].text != [] && CString(p[k].text)
  {
  }

  lemma OrderQueryIsWhole(buffer: seq<byte>, cents: int, address: seq<byte>, timestamp: int)
    requires FitsInt(Whole(cents)) && CString(address)
    requires Fits(|buffer|, 0, OrderPieces(cents, address, timestamp))
    ensures TextOf(Finished(buffer, 0, OrderPieces(cents, address, timestamp)))
         == OrderText(cents, address, timestamp)
       <==> !(-100 < cents < 0) && |Printed(timestamp)| <= |Printed(AsInt(timestamp))|
  {
    hide Ascii, Money, Printed, TextOf, Fits, Finished, StepsRight, Printable, Concatenated, AsInt, Whole;
    var p := OrderPieces(cents, address, timestamp);
    OrderPiecesConcatenated(cents, address, timestamp);
    PrintedIsText(timestamp);
    MoneyWidth(cents);
    FourSteps(p);
    TextIsWholeIffStepsRight(buffer, p);
  }

  lemma EntryQueryIsWhole(buffer: seq<byte>, orderId: int, productId: int32, quantity: int)
    requires Fits(|buffer|, 0, EntryPieces(orderId, productId, quantity))
    ensures TextOf(Finished(buffer, 0, EntryPieces(orderId, productId, quantity)))
         == EntryText(orderId, productId, quantity)
       <==> |Printed(orderId)| == |Printed(AsInt(orderId))|
  {
    hide Ascii, Printed, TextOf, Fits, Finished, StepsRight, Printable, Concatenated, AsInt;
    var p := EntryPieces(orderId, productId, quantity);
    EntryPiecesConcatenated(orderId, productId, quantity);
    PrintedIsText(orderId);
    PrintedIsText(productId);
    PrintedIsText(quantity);
    FourSteps(p);
    TextIsWholeIffStepsRight(buffer, p);
  }

  /** A time that is no int spoils the query of an order. */
  lemma LateTimeSpoilsQuery(address: seq<byte>, buffer: seq<byte>)
    requires CString(address) && |address| <= 900 && |buffer| == QUERY_SIZE
    ensures var p := OrderPieces(3050, address, 0x1_0000_0000);
            Fits(QUERY_SIZE, 0, p) && TextOf(Finished(buffer, 0, p)) != Concatenated(p)
  {
    hide Printed, Fits, TextOf, Finished, Concatenated, OrderPieces, AsInt;
    WideTime();
    PrintedWidths(Whole(3050));
    OrderQueryFitsIff(QUERY_SIZE, 3050, address, 0x1_0000_0000);
    OrderQueryIsWhole(buffer, 3050, address, 0x1_0000_0000);
    OrderPiecesConcatenated(3050, address, 0x1_0000_0000);
  }

  /** So does a total of minus five cents. */
  lemma SmallDebtSpoilsQuery(address: seq<byte>, buffer: seq<byte>)
    requires CString(address) && |address| <= 900 && |buffer| == QUERY_SIZE
    ensures var p := OrderPieces(-5, address, 1_500_000_000);
            Fits(QUERY_SIZE, 0, p) && TextOf(Finished(buffer, 0, p)) != Concatenated(p)
  {
    hide Printed, Fits, TextOf, Finished, Concatenated, OrderPieces;
    PrintedWidths(0);
    PrintedWidths(1_500_000_000);
    OrderQueryFitsIff(QUERY_SIZE, -5, address, 1_500_000_000);
    OrderQueryIsWhole(buffer, -5, address, 1_500_000_000);
    OrderPiecesConcatenated(-5, address, 1_500_000_000);
  }

  /** And an order id that is no int spoils the query of a line. */
  lemma LateOrderSpoilsQuery(buffer: seq<byte>)
    requires |buffer| == QUERY_SIZE
    ensures var p := EntryPieces(0x1_0000_0000, 1, 1);
            Fits(QUERY_SIZE, 0, p) && TextOf(Finished(buffer, 0, p)) != Concatenated(p)
  {
    hide Printed, Fits, TextOf, Finished, Concatenated, EntryPieces, AsInt;
    WideTime();
    EntryQueryFits(0x1_0000_0000, 1, 1);
    EntryQueryIsWhole(buffer, 0x1_0000_0000, 1, 1);
    EntryPiecesConcatenated(0x1_0000_0000, 1, 1);
  }

  lemma WideTime()
    ensures AsInt(0x1_0000_0000) == 0 && |Printed(0)| == 1 && |Printed(0x1_0000_0000)| == 10
  {
    hide Pow10;
    SomePowers();
    DigitsAtMost(0x1_0000_0000, 9);
    DigitsAtMost(0x1_0000_0000, 10);
  }

  lemma OrderPiecesConcatenated(cents: int, address: seq<byte>, timestamp: int)
    ensures Concatenated(OrderPieces(cents, address, timestamp))
         == OrderText(cents, address, timestamp)
  {
    hide Ascii, Money, Printed, Concatenated, AsInt, Whole;
    var p := OrderPieces(cents, address, timestamp);
    FourConcatenated(p[0], p[1], p[2], p[3]);
    assert p == [p[0], p[1], p[2], p[3]];
  }

  lemma EntryPiecesConcatenated(orderId: int, productId: int32, quantity: int)
    ensures Concatenated(EntryPieces(orderId, productId, quantity))
         == EntryText(orderId, productId, quantity)
  {
    hide Ascii, Printed, Concatenated, AsInt;
    var p := EntryPieces(orderId, productId, quantity);
    FourConcatenated(p[0], p[1], p[2], p[3]);
    assert p == [p[0], p[1], p[2], p[3]];
  }
}

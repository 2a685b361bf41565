/** `countDigits` of `common/lib.c` and what `%i` prints: the two agree on every int, which is
    what lets the program size buffers and move cursors by digit counts. */
module Decimal {
  import opened Bytes

  const MINUS: byte := 45
  const ZERO: byte := 48

  function Digits(n: nat): (s: seq<byte>)
    ensures s != []
    ensures forall k :: 0 <= k < |s| ==> ZERO <= s[k] <= ZERO + 9
  {
    if n < 10 then [ZERO + n] else Digits(n / 10) + [ZERO + n % 10]
  }

  /** What `printf("%i", n)` prints. */
  function Printed(n: int): (s: seq<byte>)
    ensures s != [] && forall k :: 0 <= k < |s| ==> s[k] == MINUS || ZERO <= s[k] <= ZERO + 9
  {
    if n < 0 then [MINUS] + Digits(-n) else Digits(n)
  }

  function DigitsValue(s: seq<byte>): int {
    if s == [] then 0 else 10 * DigitsValue(s[..|s| - 1]) + (s[|s| - 1] - ZERO)
  }

  lemma {:induction false} DigitsRoundTrip(n: nat)
    ensures DigitsValue(Digits(n)) == n
  {
    var s := Digits(n);
    if n >= 10 {
      DigitsRoundTrip(n / 10);
      assert s[..|s| - 1] == Digits(n / 10);
    } else {
      assert s[..|s| - 1] == [];
    }
  }

  /** Different ints print differently. */
  lemma PrintedIsInjective(m: int, n: int)
    requires Printed(m) == Printed(n)
    ensures m == n
  {
    var a, b := if m < 0 then -m else m, if n < 0 then -n else n;
    DigitsRoundTrip(a);
    DigitsRoundTrip(b);
    assert m < 0 <==> Printed(m)[0] == MINUS;
    assert n < 0 <==> Printed(n)[0] == MINUS;
    if m < 0 {
      assert Printed(m)[1..] == Digits(a) && Printed(n)[1..] == Digits(b);
    }
  }

  /** C's division truncates toward zero. */
  function TruncatedTenth(n: int): int {
    if n < 0 then -(-n / 10) else n / 10
  }

  function Magnitude(n: int): nat {
    if n < 0 then -n else n
  }

  /** The number of times a count can be divided by ten before it is zero. */
  function Divisions(n: nat): nat {
    if n == 0 then 0 else 1 + Divisions(n / 10)
  }

  lemma {:induction false} DigitsAreDivisions(n: nat)
    ensures |Digits(n)| == if n == 0 then 1 else Divisions(n)
  {
    if n >= 10 {
      DigitsAreDivisions(n / 10);
    } else if n > 0 {
      assert Divisions(n / 10) == 0;
    }
  }

  method CountDigits(number: int32) returns (i: nat)
    ensures i == |Printed(number)|
  {
    i := if number <= 0 then 1 else 0;
    ghost var start := i;
    var n: int := number;
    while n != 0
      invariant i + Divisions(Magnitude(n)) == start + Divisions(Magnitude(number))
      decreases Magnitude(n)
    {
      n := TruncatedTenth(n);
      i := i + 1;
    }
    DigitsAreDivisions(Magnitude(number));
  }

  function Pow10(k: nat): (p: nat)
    ensures p > 0
  {
    if k == 0 then 1 else 10 * Pow10(k - 1)
  }

  /** A number has at most k digits exactly when it is below the k-th power of ten. */
  lemma {:induction false} DigitsAtMost(n: nat, k: nat)
    requires k > 0
    ensures |Digits(n)| <= k <==> n < Pow10(k)
  {
    if k == 1 {
      assert Pow10(1) == 10 * Pow10(0);
    } else if n >= 10 {
      DigitsAtMost(n / 10, k - 1);
    } else {
      PowersGrow(k);
    }
  }

  lemma {:induction false} PowersGrow(k: nat)
    requires k > 0
    ensures Pow10(k) >= 10
  {
    if k > 1 {
      PowersGrow(k - 1);
    }
  }

  lemma SomePowers()
    ensures Pow10(9) == 1_000_000_000 && Pow10(10) == 10_000_000_000 && Pow10(19) == 10_000_000_000_000_000_000
  {
    assert Pow10(3) == 1000 && Pow10(6) == 1_000_000;
    assert Pow10(12) == 1_000_000_000_000 && Pow10(15) == 1_000_000_000_000_000;
    assert Pow10(18) == 1_000_000_000_000_000_000;
  }

  /** The widest int is the smallest one, and the widest 64-bit integer too. */
  lemma PrintedWidths(n: int)
    ensures -0x8000_0000 <= n < 0x8000_0000 ==> |Printed(n)| <= 11
    ensures -0x8000_0000_0000_0000 <= n < 0x8000_0000_0000_0000 ==> |Printed(n)| <= 20
    ensures |Printed(-0x8000_0000)| == 11
  {
    hide Digits, Pow10;
    SomePowers();
    var m := Magnitude(n);
    DigitsAtMost(m, 10);
    DigitsAtMost(m, 19);
    DigitsAtMost(0x8000_0000, 9);
    DigitsAtMost(0x8000_0000, 10);
  }
}

/** The CSV writer and reader of `database/SQLite/shell.c`: `output_csv` and the rows of
    `MODE_Csv` against `csv_read_one_field`. */
module Csv {
  import opened Bytes
  import Orders

  const QUOTE: int := 34
  const CR: int := 13
  const LF: int := 10
  const EOF: int := -1

  type Text = seq<byte>

  // ------------------------------------------------------------------- the writer

  /** The table `needCsvQuote`. */
  predicate NeedsQuote(b: byte) {
    b <= 32 || b == 34 || b == 39 || b >= 127
  }

  predicate Plain(z: Text, sep: byte) {
    z != [] && forall k :: 0 <= k < |z| ==> !NeedsQuote(z[k]) && z[k] != sep
  }

  function Doubled(z: Text): Text {
    if z == [] then [] else Doubled(z[..|z| - 1]) + (if z[|z| - 1] == QUOTE then [34, 34] else [z[|z| - 1]])
  }

  function FieldText(z: Text, sep: byte): Text {
    if Plain(z, sep) then z else [34] + Doubled(z) + [34]
  }

  function RowText(fields: seq<Text>, sep: byte): Text {
    if fields == [] then []
    else if |fields| == 1 then FieldText(fields[0], sep) + [13, 10]
    else FieldText(fields[0], sep) + [sep] + RowText(fields[1..], sep)
  }

  function TableText(rows: seq<seq<Text>>, sep: byte): Text {
    if rows == [] then [] else RowText(rows[0], sep) + TableText(rows[1..], sep)
  }

  /** The output stream of the shell, with its column separator of one character. */
  class Writer {
    var out: Text
    const sep: byte

    constructor (sep: byte)
      ensures out == [] && this.sep == sep
    {
      out := [];
      this.sep := sep;
    }

    method Putc(b: byte)
      modifies this`out
      ensures out == old(out) + [b]
    {
      out := out + [b];
    }

    method PutQuoted(z: Text)
      modifies this`out
      ensures out == old(out) + ([34] + Doubled(z) + [34])
    {
      Putc(34);
      var i := 0;
      while i < |z|
        invariant i <= |z|
        invariant out == old(out) + [34] + Doubled(z[..i])
      {
        assert z[..i + 1][..i] == z[..i];
        ghost var before := out;
        if z[i] == QUOTE {
          Putc(34);
        }
        Putc(z[i]);
        assert out == before + if z[i] == QUOTE then [34, 34] else [z[i]];
        i := i + 1;
      }
      assert z[..i] == z;
      Putc(34);
    }

    /** `output_csv` of a value that is not NULL. */
    method OutputCsv(z: Text, bSep: bool)
      requires Orders.CString(z)
      modifies this`out
      ensures out == old(out) + FieldText(z, sep) + if bSep then [sep] else []
    {
      hide Doubled, NeedsQuote;
      var i := 0;
      while i < |z|
        invariant i <= |z|
        invariant i == 0 ==> out == old(out)
        invariant forall k :: 0 <= k < i ==> !NeedsQuote(z[k]) && z[k] != sep
      {
        if NeedsQuote(z[i]) || z[i] == sep {
          assert !Plain(z, sep);
          i := 0;
          break;
        }
        i := i + 1;
      }
      if i == 0 {
        PutQuoted(z);
      } else {
        out := out + z;
      }
      if bSep {
        Putc(sep);
      }
    }

    /** One row of `MODE_Csv`. A row without columns prints nothing. */
    method OutputRow(fields: seq<Text>)
      requires forall k :: 0 <= k < |fields| ==> Orders.CString(fields[k])
      modifies this`out
      ensures out == old(out) + RowText(fields, sep)
    {
      hide FieldText;
      if |fields| > 0 {
        var i := 0;
        while i < |fields|
          invariant i <= |fields|
          invariant i < |fields| ==> old(out) + RowText(fields, sep) == out + RowText(fields[i..], sep)
          invariant i == |fields| ==> old(out) + RowText(fields, sep) == out + [13, 10]
        {
          ghost var before := out;
          assert fields[i..][1..] == fields[i + 1..];
          OutputCsv(fields[i], i < |fields| - 1);
          assert i < |fields| - 1 ==> before + RowText(fields[i..], sep) == out + RowText(fields[i + 1..], sep);
          i := i + 1;
        }
        out := out + [13, 10];
      }
    }
  }

  // ------------------------------------------------------------------- the reader

  datatype Field = EndOfInput | Field(text: Text, term: int, used: nat)

  /** The text before the last quote: where the backward scan stops. */
  function BeforeLastQuote(z: Text): Text {
    if z == [] then [] else if z[|z| - 1] == QUOTE then z[..|z| - 1] else BeforeLastQuote(z[..|z| - 1])
  }

  predicate EndsQuoted(c: int, pc: int, ppc: int, sep: int, row: int) {
    || (c == sep && pc == QUOTE)
    || (c == row && pc == QUOTE)
    || (c == row && pc == CR && ppc == QUOTE)
    || (c == EOF && pc == QUOTE)
  }

  function CharAt(s: Text, i: nat): int {
    if i < |s| then s[i] else EOF
  }

  function After(s: Text, i: nat): nat {
    if i < |s| then i + 1 else i
  }

  /** The rest of a quoted field, from the characters `pc` and `ppc` just before. */
  function QuotedScan(s: Text, i: nat, z: Text, pc: int, ppc: int, sep: int, row: int): (f: Field)
    ensures i <= |s| ==> f.Field? && i <= f.used <= |s|
    decreases |s| - i
  {
    var c := CharAt(s, i);
    if c == QUOTE && pc == QUOTE then QuotedScan(s, i + 1, z, 0, ppc, sep, row)
    else if EndsQuoted(c, pc, ppc, sep, row) then Field(BeforeLastQuote(z), c, After(s, i))
    else if c == EOF then Field(z, c, After(s, i))
    else QuotedScan(s, i + 1, z + [s[i]], c, pc, sep, row)
  }

  function PlainScan(s: Text, i: nat, z: Text, sep: int, row: int): (f: Field)
    ensures i <= |s| ==> f.Field? && i <= f.used <= |s| && (i < |s| ==> i < f.used)
    decreases |s| - i
  {
    var c := CharAt(s, i);
    if c == EOF || c == sep || c == row then
      Field(if c == row && z != [] && z[|z| - 1] == CR then z[..|z| - 1] else z, c, After(s, i))
    else PlainScan(s, i + 1, z + [s[i]], sep, row)
  }

  /** The field at the front of the input. */
  function FieldAt(s: Text, sep: int, row: int): (f: Field)
    ensures s != [] ==> f.Field? && 0 < f.used <= |s|
  {
    if s == [] then EndOfInput
    else if s[0] == QUOTE then QuotedScan(s, 1, [], 0, 0, sep, row)
    else PlainScan(s, 0, [], sep, row)
  }

  /** The field at the front allocates space: it has a text, or something after its opening quote. */
  predicate GivesText(s: Text, sep: int, row: int) {
    s != [] && (FieldAt(s, sep, row).text != [] || (s[0] == QUOTE && FieldAt(s, sep, row).used > 1))
  }

  function RowEnds(s: Text, row: int): nat {
    if s == [] then 0 else RowEnds(s[..|s| - 1], row) + if s[|s| - 1] == row then 1 else 0
  }

  /** Where the characters just before are quotes, the text has them. */
  predicate QuotesBehind(z: Text, pc: int, ppc: int) {
    && (pc == QUOTE ==> z != [] && z[|z| - 1] == QUOTE)
    && (pc == CR && ppc == QUOTE ==> |z| >= 2 && z[|z| - 2] == QUOTE)
  }

  class ImportCtx {
    const input: Text
    var pos: nat
    var z: Text
    var nAlloc: nat
    var nLine: nat
    var cTerm: int
    const cColSep: int
    const cRowSep: int

    /** The text and its terminator stay within the space allocated. */
    ghost predicate Valid()
      reads this
    {
      pos <= |input| && (|z| < nAlloc || nAlloc == 0 == |z|) && cRowSep != EOF
    }

    constructor (input: Text, cColSep: int, cRowSep: int)
      requires cRowSep != EOF
      ensures Valid() && pos == 0 && nLine == 1 && this.input == input
      ensures this.cColSep == cColSep && this.cRowSep == cRowSep
    {
      this.input := input;
      this.cColSep := cColSep;
      this.cRowSep := cRowSep;
      pos := 0;
      z := [];
      nAlloc := 0;
      nLine := 1;
      cTerm := 0;
    }

    method Fgetc() returns (c: int)
      requires Valid()
      modifies this`pos
      ensures Valid() && c == CharAt(input, old(pos)) && pos == After(input, old(pos))
    {
      if pos < |input| {
        c := input[pos];
        pos := pos + 1;
      } else {
        c := EOF;
      }
    }

    method AppendChar(c: byte)
      requires Valid()
      modifies this`z, this`nAlloc
      ensures Valid() && z == old(z) + [c] && nAlloc > 0
    {
      if |z| + 1 >= nAlloc {
        nAlloc := nAlloc + nAlloc + 100;
      }
      z := z + [c];
    }

    /** Drops the text from its last quote on. The scan finds one before it leaves the buffer. */
    method DropFromLastQuote(ghost k: nat)
      requires Valid() && k < |z| && z[k] == QUOTE
      modifies this`z
      ensures Valid() && z == BeforeLastQuote(old(z))
    {
      var n := |z| - 1;
      assert z[..n + 1] == z;
      while z[n] != 34
        invariant k <= n < |z| && z == old(z)
        invariant BeforeLastQuote(z) == BeforeLastQuote(z[..n + 1])
        decreases n
      {
        assert z[..n + 1][..n] == z[..n];
        n := n - 1;
      }
      assert z[..n + 1][..n] == z[..n];
      z := z[..n];
    }

    /** One character of a quoted field, from the characters `p` and `pp` just before. */
    method ReadQuotedChar(ghost start: nat, p: int, pp: int) returns (done: bool, pc: int, ppc: int)
      requires Valid() && start < pos && (pos > start + 1 ==> nAlloc > 0) && QuotesBehind(z, p, pp)
      modifies this`pos, this`z, this`nAlloc, this`nLine, this`cTerm
      ensures Valid() && start < old(pos) <= pos && (pos > start + 1 ==> nAlloc > 0)
      ensures var s, at := input[start..], old(pos) - start;
              QuotedScan(s, at, old(z), p, pp, cColSep, cRowSep)
              == if done then Field(z, cTerm, pos - start)
                 else QuotedScan(s, pos - start, z, pc, ppc, cColSep, cRowSep)
      ensures !done ==> old(pos) < pos && QuotesBehind(z, pc, ppc)
      ensures nLine - RowEnds(input[start + 1..pos], cRowSep)
           == old(nLine) - RowEnds(input[start + 1..old(pos)], cRowSep)
    {
      hide RowEnds, BeforeLastQuote, FieldAt, QuotedScan;
      assert CharAt(input[start..], pos - start) == CharAt(input, pos);
      RowEndsStep(input, start + 1, pos, cRowSep);
      QuotedTurn(input[start..], pos - start, z, p, pp, cColSep, cRowSep);
      done, pc, ppc := false, p, pp;
      var c := Fgetc();
      if c == cRowSep {
        nLine := nLine + 1;
      }
      if c == QUOTE && pc == QUOTE {
        pc := 0;
      } else if EndsQuoted(c, pc, ppc, cColSep, cRowSep) {
        DropFromLastQuote(if pc == QUOTE then |z| - 1 else |z| - 2);
        cTerm := c;
        done := true;
      } else if c == EOF {
        cTerm := c;
        done := true;
      } else {
        AppendChar(c);
        ppc := pc;
        pc := c;
      }
    }

    /** The quoted branch, after the opening quote. */
    method ReadQuoted(ghost start: nat)
      requires Valid() && z == [] && pos == start + 1 && input[start] == QUOTE
      modifies this`pos, this`z, this`nAlloc, this`nLine, this`cTerm
      ensures Valid() && start < pos && (pos > start + 1 ==> nAlloc > 0)
      ensures FieldAt(input[start..], cColSep, cRowSep) == Field(z, cTerm, pos - start)
      ensures nLine == old(nLine) + RowEnds(input[start + 1..pos], cRowSep)
    {
      ghost var s := input[start..];
      var pc, ppc := 0, 0;
      var done := false;
      assert RowEnds(input[start + 1..pos], cRowSep) == 0;
      assert FieldAt(s, cColSep, cRowSep) == QuotedScan(s, 1, z, 0, 0, cColSep, cRowSep);
      hide RowEnds, FieldAt, QuotedScan;
      while !done
        invariant Valid() && start < pos && (pos > start + 1 ==> nAlloc > 0)
        invariant FieldAt(s, cColSep, cRowSep)
               == if done then Field(z, cTerm, pos - start)
                  else QuotedScan(s, pos - start, z, pc, ppc, cColSep, cRowSep)
        invariant !done ==> QuotesBehind(z, pc, ppc)
        invariant nLine == old(nLine) + RowEnds(input[start + 1..pos], cRowSep)
        decreases !done, |input| - pos
      {
        done, pc, ppc := ReadQuotedChar(start, pc, ppc);
      }
    }

    /** The unquoted branch, on a first character that is not a quote. */
    method ReadPlain(first: int, ghost start: nat)
      requires Valid() && z == [] && pos == start + 1 && input[start] == first && first != QUOTE
      modifies this`pos, this`z, this`nAlloc, this`nLine, this`cTerm
      ensures Valid() && start < pos && (nAlloc == 0 ==> z == [])
      ensures FieldAt(input[start..], cColSep, cRowSep) == Field(z, cTerm, pos - start)
      ensures nLine == old(nLine) + RowEnds(input[start..pos], cRowSep)
    {
      ghost var s := input[start..];
      var c := first;
      ghost var at := start;
      assert input[start..at] == [];
      assert RowEnds(input[start..at], cRowSep) == 0;
      assert FieldAt(s, cColSep, cRowSep) == PlainScan(s, 0, z, cColSep, cRowSep);
      hide RowEnds, FieldAt;
      while c != EOF && c != cColSep && c != cRowSep
        invariant Valid() && start <= at <= |input| && pos == After(input, at) && c == CharAt(input, at)
        invariant FieldAt(s, cColSep, cRowSep) == PlainScan(s, at - start, z, cColSep, cRowSep)
        invariant nLine == old(nLine) + RowEnds(input[start..at], cRowSep)
        decreases |input| - at
      {
        assert CharAt(s, at - start) == CharAt(input, at);
        RowEndsStep(input, start, at, cRowSep);
        AppendChar(c);
        at := pos;
        c := Fgetc();
      }
      assert CharAt(s, at - start) == CharAt(input, at);
      RowEndsStep(input, start, at, cRowSep);
      if c == cRowSep {
        nLine := nLine + 1;
        if |z| > 0 && z[|z| - 1] == 13 {
          z := z[..|z| - 1];
        }
      }
      cTerm := c;
    }

    /** Reads one field. It returns the text, or nothing at the end of the input. A field that gives
        no text may come back as nothing too, as long as no space was allocated. Each row separator
        it passes, within quotes or not, counts as a line. */
    method ReadOneField() returns (field: Option<Text>)
      requires Valid() && cRowSep != QUOTE
      modifies this`pos, this`z, this`nAlloc, this`nLine, this`cTerm
      ensures Valid() && old(pos) <= pos
      ensures match FieldAt(input[old(pos)..], cColSep, cRowSep)
              case EndOfInput => field == None && cTerm == EOF && pos == old(pos)
              case Field(text, term, used) =>
                && z == text && field == (if nAlloc > 0 then Some(text) else None)
                && cTerm == term && pos == old(pos) + used
                && (GivesText(input[old(pos)..], cColSep, cRowSep) ==> field == Some(text))
      ensures nLine == old(nLine) + RowEnds(input[old(pos)..pos], cRowSep)
    {
      ghost var start := pos;
      z := [];
      var c := Fgetc();
      if c == EOF {
        cTerm := EOF;
        return None;
      }
      if c == QUOTE {
        ReadQuoted(start);
        SkipFirst(input, start, pos, cRowSep);
      } else {
        ReadPlain(c, start);
      }
      field := if nAlloc > 0 then Some(z) else None;
    }
  }

  /** What one character does to the scan of a quoted field. */
  lemma QuotedTurn(s: Text, i: nat, z: Text, pc: int, ppc: int, sep: int, row: int)
    ensures var c := CharAt(s, i);
            QuotedScan(s, i, z, pc, ppc, sep, row)
            == if c == QUOTE && pc == QUOTE then QuotedScan(s, i + 1, z, 0, ppc, sep, row)
               else if EndsQuoted(c, pc, ppc, sep, row) then Field(BeforeLastQuote(z), c, After(s, i))
               else if c == EOF then Field(z, c, After(s, i))
               else QuotedScan(s, i + 1, z + [s[i]], c, pc, sep, row)
  {
    hide EndsQuoted, BeforeLastQuote;
  }

  lemma RowEndsStep(s: Text, i: nat, j: nat, row: int)
    requires i <= j <= |s|
    ensures RowEnds(s[i..After(s, j)], row) == RowEnds(s[i..j], row) + if j < |s| && s[j] == row then 1 else 0
  {
    if j < |s| {
      assert s[i..j + 1][..j - i] == s[i..j];
    }
  }

  lemma {:induction false} SkipFirst(s: Text, i: nat, j: nat, row: int)
    requires i < j <= |s| && s[i] != row
    ensures RowEnds(s[i..j], row) == RowEnds(s[i + 1..j], row)
  {
    if j == i + 1 {
      assert s[i..j] == [s[i]] && [s[i]][..0] == [] && s[i + 1..j] == [];
    } else {
      SkipFirst(s, i, j - 1, row);
      assert s[i..j][..j - i - 1] == s[i..j - 1] && s[i + 1..j][..j - i - 2] == s[i + 1..j - 1];
    }
  }

  // --------------------------------------------------------------- the round trip

  /** A field as read: its text and the character that ended it. */
  datatype Mark = Mark(text: Text, term: int)

  function ReadAll(s: Text, sep: int, row: int): seq<Mark>
    decreases |s|
  {
    if s == [] then [] else
    var f := FieldAt(s, sep, row);
    [Mark(f.text, f.term)] + ReadAll(s[f.used..], sep, row)
  }

  /** No field of the input comes back as nothing. */
  predicate AllGiveText(s: Text, sep: int, row: int)
    decreases |s|
  {
    s == [] || (GivesText(s, sep, row) && AllGiveText(s[FieldAt(s, sep, row).used..], sep, row))
  }

  /** What a table is when read field by field: the column separator ends every field of a row
      but the last, which the row separator ends. */
  function RowMarks(fields: seq<Text>, sep: int): seq<Mark> {
    if fields == [] then []
    else if |fields| == 1 then [Mark(fields[0], LF)]
    else [Mark(fields[0], sep)] + RowMarks(fields[1..], sep)
  }

  function TableMarks(rows: seq<seq<Text>>, sep: int): seq<Mark> {
    if rows == [] then [] else RowMarks(rows[0], sep) + TableMarks(rows[1..], sep)
  }

  predicate Ordinary(sep: byte) {
    0 < sep < 128 && sep != QUOTE && sep != CR && sep != LF
  }

  /** Neither a closing quote nor a quote and a carriage return is just behind. */
  predicate Clear(pc: int, ppc: int) {
    pc != QUOTE && !(pc == CR && ppc == QUOTE)
  }

  /** The scan runs through the doubled text of a field and comes out clear. */
  lemma {:induction false} ScanDoubled(s: Text, i: nat, z: Text, pc: int, ppc: int, g: Text, sep: byte)
    returns (pc': int, ppc': int)
    requires Ordinary(sep) && Clear(pc, ppc)
    requires i + |Doubled(g)| <= |s| && s[i..i + |Doubled(g)|] == Doubled(g)
    ensures Clear(pc', ppc')
    ensures QuotedScan(s, i, z, pc, ppc, sep, LF) == QuotedScan(s, i + |Doubled(g)|, z + g, pc', ppc', sep, LF)
    decreases |g|
  {
    hide QuotedScan;
    if g == [] {
      assert z + g == z;
      return pc, ppc;
    }
    var n := |g| - 1;
    var head, x := g[..n], g[n];
    var piece: Text := if x == QUOTE then [34, 34] else [x];
    var m := i + |Doubled(head)|;
    SplitAt(s, i, Doubled(head), piece);
    var pc1, ppc1 := ScanDoubled(s, i, z, pc, ppc, head, sep);
    assert z + g == z + head + [x];
    QuotedStep(s, m, z + head, pc1, ppc1, sep, LF);
    if x == QUOTE {
      QuotedStep(s, m + 1, z + g, QUOTE, pc1, sep, LF);
      return 0, pc1;
    }
    return x, pc1;
  }

  lemma SplitAt(s: Text, i: nat, x: Text, y: Text)
    requires i + |x| + |y| <= |s| && s[i..i + |x| + |y|] == x + y
    ensures s[i..i + |x|] == x
    ensures forall k :: 0 <= k < |y| ==> s[i + |x| + k] == y[k]
  {
    var all := s[i..i + |x| + |y|];
    assert s[i..i + |x|] == all[..|x|] == x;
    forall k | 0 <= k < |y|
      ensures s[i + |x| + k] == y[k]
    {
      assert all[|x| + k] == s[i + |x| + k];
    }
  }

  // ------------------------------------------------- one field and what may follow it

  /** What ends a field: the column separator, a line feed with or without a carriage return, or the
      end of the input. */
  datatype Stop = AtSep | AtLf | AtCrLf | AtEnd

  function StopText(stop: Stop, sep: byte): Text {
    match stop
    case AtSep => [sep]
    case AtLf => [10]
    case AtCrLf => [13, 10]
    case AtEnd => []
  }

  function StopTerm(stop: Stop, sep: byte): int {
    match stop
    case AtSep => sep
    case AtEnd => EOF
    case _ => LF
  }

  /** The closing quote and what follows it end the field. */
  lemma ClosingQuoteEnds(s: Text, m: nat, z: Text, pc: int, ppc: int, sep: byte, stop: Stop)
    requires Ordinary(sep) && Clear(pc, ppc) && m < |s| && s[m] == 34
    requires StopText(stop, sep) <= s[m + 1..] && (stop.AtEnd? ==> m + 1 == |s|)
    ensures QuotedScan(s, m, z, pc, ppc, sep, LF) == Field(z, StopTerm(stop, sep), m + 1 + |StopText(stop, sep)|)
  {
    hide QuotedScan;
    var zq, stopText: Text := z + [34], StopText(stop, sep);
    assert forall k :: 0 <= k < |stopText| ==> stopText[k] == s[m + 1..][k] == s[m + 1 + k];
    QuotedStep(s, m, z, pc, ppc, sep, LF);
    LastQuote(z);
    match stop
    case AtSep => QuotedField(s, m + 1, zq, QUOTE, pc, sep, LF);
    case AtLf => QuotedField(s, m + 1, zq, QUOTE, pc, sep, LF);
    case AtEnd => QuotedAtEnd(s, zq, pc, sep, LF);
    case AtCrLf =>
      assert stopText[1] == 10;
      QuotedStep(s, m + 1, zq, QUOTE, pc, sep, LF);
      QuotedField(s, m + 2, zq + [13], CR, QUOTE, sep, LF);
  }

  lemma QuotedAtEnd(s: Text, z: Text, ppc: int, sep: int, row: int)
    ensures QuotedScan(s, |s|, z, QUOTE, ppc, sep, row) == Field(BeforeLastQuote(z), EOF, |s|)
  {
  }

  lemma LastQuote(z: Text)
    ensures BeforeLastQuote(z + [34]) == z && BeforeLastQuote(z + [34] + [13]) == z
  {
    assert (z + [34] + [13])[..|z| + 1] == z + [34];
  }

  lemma QuotedField(s: Text, i: nat, z: Text, pc: int, ppc: int, sep: int, row: int)
    requires i < |s| && s[i] != QUOTE && EndsQuoted(s[i], pc, ppc, sep, row)
    ensures QuotedScan(s, i, z, pc, ppc, sep, row) == Field(BeforeLastQuote(z), s[i], i + 1)
  {
  }

  lemma {:induction false} ScanPlain(s: Text, i: nat, z: Text, g: Text, sep: int, row: int)
    requires i + |g| <= |s| && s[i..i + |g|] == g
    requires forall k :: 0 <= k < |g| ==> g[k] != sep && g[k] != row
    ensures PlainScan(s, i, z, sep, row) == PlainScan(s, i + |g|, z + g, sep, row)
    decreases |g|
  {
    if g == [] {
      assert z + g == z;
    } else {
      assert s[i] == s[i..i + |g|][0] == g[0];
      assert s[i + 1..i + 1 + |g[1..]|] == s[i..i + |g|][1..] == g[1..];
      ScanPlain(s, i + 1, z + [g[0]], g[1..], sep, row);
      assert z + [g[0]] + g[1..] == z + g;
    }
  }

  function WithoutCr(z: Text): Text {
    if z != [] && z[|z| - 1] == CR then z[..|z| - 1] else z
  }

  /** An unquoted field runs to the first separator of either kind. */
  lemma UnquotedReads(g: Text, t: byte, rest: Text, sep: int, row: int)
    requires forall k :: 0 <= k < |g| ==> g[k] != sep && g[k] != row
    requires (g + [t])[0] != QUOTE && (t == sep || t == row)
    ensures FieldAt(g + [t] + rest, sep, row) == Field(if t == row then WithoutCr(g) else g, t, |g| + 1)
    ensures ReadAll(g + [t] + rest, sep, row)
         == [Mark(if t == row then WithoutCr(g) else g, t)] + ReadAll(rest, sep, row)
  {
    var s := g + [t] + rest;
    assert s[0] == (g + [t])[0];
    ScanPlain(s, 0, [], g, sep, row);
    assert [] + g == g;
    assert s[|g| + 1..] == rest;
  }

  // ----------------------------------------------------------------- files laid out by hand

  /** A field as a file may have it: bare, quoted with its quotes doubled, or quoted with a closing
      quote that something follows, which is then no closing quote. */
  datatype Cell = Bare(text: Text) | Quoted(text: Text) | Stray(head: Text, c: byte, tail: Text)

  function CellText(cell: Cell): Text {
    match cell
    case Bare(z) => z
    case Quoted(z) => [34] + Doubled(z) + [34]
    case Stray(head, c, tail) => [34] + Doubled(head) + [34] + [c] + Doubled(tail) + [34]
  }

  function CellValue(cell: Cell): Text {
    match cell
    case Bare(z) => z
    case Quoted(z) => z
    case Stray(head, c, tail) => head + [34] + [c] + tail
  }

  /** A bare field holds no separator, begins with no quote, and does not run into what ends it. */
  predicate CellOk(cell: Cell, sep: byte, stop: Stop) {
    match cell
    case Bare(z) =>
      && (forall k :: 0 <= k < |z| ==> z[k] != sep && z[k] != 10)
      && (z != [] ==> z[0] != 34)
      && (stop.AtLf? && z != [] ==> z[|z| - 1] != 13)
      && (stop.AtEnd? ==> z != [])
    case Quoted(_) => true
    case Stray(_, c, _) => c != 34 && c != sep && c != 10 && c != 13
  }

  lemma QuotedCellReads(z: Text, sep: byte, stop: Stop, rest: Text)
    requires Ordinary(sep) && (stop.AtEnd? ==> rest == [])
    ensures var t := [34] + Doubled(z) + [34] + StopText(stop, sep) + rest;
            FieldAt(t, sep, LF) == Field(z, StopTerm(stop, sep), |t| - |rest|)
  {
    hide QuotedScan, Doubled, StopText;
    var t := [34] + Doubled(z) + [34] + StopText(stop, sep) + rest;
    var m := 1 + |Doubled(z)|;
    assert t[1..m] == Doubled(z);
    var pc, ppc := ScanDoubled(t, 1, [], 0, 0, z, sep);
    assert [] + z == z;
    assert t[m + 1..] == StopText(stop, sep) + rest;
    NothingAtEnd(stop, sep);
    ClosingQuoteEnds(t, m, z, pc, ppc, sep, stop);
  }

  lemma NothingAtEnd(stop: Stop, sep: byte)
    ensures stop.AtEnd? ==> StopText(stop, sep) == []
  {
  }

  /** A quote followed by something else is part of the text, and the field goes on. */
  lemma StrayQuoteGoesOn(s: Text, m: nat, z: Text, pc: int, ppc: int, c: byte, sep: byte)
    requires Clear(pc, ppc) && m + 1 < |s| && s[m] == 34 && s[m + 1] == c && c !in {34, sep as int, 10, 13}
    requires Ordinary(sep)
    ensures QuotedScan(s, m, z, pc, ppc, sep, LF) == QuotedScan(s, m + 2, z + [34] + [c], c, QUOTE, sep, LF)
  {
    hide QuotedScan;
    QuotedStep(s, m, z, pc, ppc, sep, LF);
    QuotedStep(s, m + 1, z + [34], QUOTE, pc, sep, LF);
  }

  lemma StrayCellReads(head: Text, c: byte, tail: Text, sep: byte, stop: Stop, rest: Text)
    requires Ordinary(sep) && c !in {34, sep as int, 10, 13} && (stop.AtEnd? ==> rest == [])
    ensures var t := [34] + Doubled(head) + [34] + [c] + Doubled(tail) + [34] + StopText(stop, sep) + rest;
            FieldAt(t, sep, LF) == Field(head + [34] + [c] + tail, StopTerm(stop, sep), |t| - |rest|)
  {
    hide QuotedScan, Doubled, StopText;
    var t := [34] + Doubled(head) + [34] + [c] + Doubled(tail) + [34] + StopText(stop, sep) + rest;
    var m := 1 + |Doubled(head)|;
    var n := m + 2 + |Doubled(tail)|;
    assert t[1..m] == Doubled(head);
    assert t[m + 2..n] == Doubled(tail);
    assert t[n + 1..] == StopText(stop, sep) + rest;
    var pc, ppc := ScanDoubled(t, 1, [], 0, 0, head, sep);
    assert [] + head == head;
    StrayQuoteGoesOn(t, m, head, pc, ppc, c, sep);
    var z := head + [34] + [c];
    var pc1, ppc1 := ScanDoubled(t, m + 2, z, c, QUOTE, tail, sep);
    NothingAtEnd(stop, sep);
    ClosingQuoteEnds(t, n, z + tail, pc1, ppc1, sep, stop);
  }

  lemma BareCellReads(z: Text, sep: byte, stop: Stop, rest: Text)
    requires Ordinary(sep) && CellOk(Bare(z), sep, stop) && (stop.AtEnd? ==> rest == [])
    ensures var t := z + StopText(stop, sep) + rest;
            FieldAt(t, sep, LF) == Field(z, StopTerm(stop, sep), |t| - |rest|)
  {
    hide FieldAt, ReadAll;
    match stop
    case AtSep => UnquotedReads(z, sep, rest, sep, LF);
    case AtLf => UnquotedReads(z, 10, rest, sep, LF);
    case AtCrLf =>
      UnquotedReads(z + [13], 10, rest, sep, LF);
      assert z + [13] + [10] + rest == z + [13, 10] + rest;
      assert WithoutCr(z + [13]) == z;
    case AtEnd =>
      assert z + [] + [] == z;
      BareAtEnd(z, sep);
  }

  lemma BareAtEnd(z: Text, sep: byte)
    requires Ordinary(sep) && z != [] && z[0] != 34 && forall k :: 0 <= k < |z| ==> z[k] != sep && z[k] != 10
    ensures FieldAt(z, sep, LF) == Field(z, EOF, |z|)
  {
    ScanPlain(z, 0, [], z, sep, LF);
    assert [] + z == z;
  }

  /** A field and what ends it: the reader takes exactly both. */
  lemma CellReads(cell: Cell, sep: byte, stop: Stop, rest: Text)
    requires Ordinary(sep) && CellOk(cell, sep, stop) && (stop.AtEnd? ==> rest == [])
    ensures var t := CellText(cell) + StopText(stop, sep) + rest;
            && t != [] && FieldAt(t, sep, LF) == Field(CellValue(cell), StopTerm(stop, sep), |t| - |rest|)
            && ReadAll(t, sep, LF) == [Mark(CellValue(cell), StopTerm(stop, sep))] + ReadAll(rest, sep, LF)
  {
    hide FieldAt, Doubled;
    var t := CellText(cell) + StopText(stop, sep) + rest;
    match cell {
      case Bare(z) => BareCellReads(z, sep, stop, rest);
      case Quoted(z) => QuotedCellReads(z, sep, stop, rest);
      case Stray(head, c, tail) => StrayCellReads(head, c, tail, sep, stop, rest);
    }
    assert t[|t| - |rest|..] == rest;
  }

  function LaidRow(cells: seq<Cell>, sep: byte, stop: Stop): Text {
    if cells == [] then []
    else if |cells| == 1 then CellText(cells[0]) + StopText(stop, sep)
    else CellText(cells[0]) + [sep] + LaidRow(cells[1..], sep, stop)
  }

  function LaidMarks(cells: seq<Cell>, sep: byte, stop: Stop): seq<Mark> {
    if cells == [] then []
    else if |cells| == 1 then [Mark(CellValue(cells[0]), StopTerm(stop, sep))]
    else [Mark(CellValue(cells[0]), sep)] + LaidMarks(cells[1..], sep, stop)
  }

  /** A row of a file: its fields, and what ends the last of them. */
  datatype Laid = Laid(cells: seq<Cell>, stop: Stop)

  predicate LaidOk(row: Laid, sep: byte) {
    && row.cells != [] && !row.stop.AtSep?
    && forall k :: 0 <= k < |row.cells| ==>
         CellOk(row.cells[k], sep, if k == |row.cells| - 1 then row.stop else AtSep)
  }

  /** Only the last row may go without an end of its own. */
  predicate FileOk(rows: seq<Laid>, sep: byte) {
    forall k :: 0 <= k < |rows| ==> LaidOk(rows[k], sep) && (rows[k].stop.AtEnd? ==> k == |rows| - 1)
  }

  function FileText(rows: seq<Laid>, sep: byte): Text {
    if rows == [] then [] else LaidRow(rows[0].cells, sep, rows[0].stop) + FileText(rows[1..], sep)
  }

  function FileMarks(rows: seq<Laid>, sep: byte): seq<Mark> {
    if rows == [] then [] else LaidMarks(rows[0].cells, sep, rows[0].stop) + FileMarks(rows[1..], sep)
  }

  lemma {:induction false} LaidRowReads(cells: seq<Cell>, sep: byte, stop: Stop, rest: Text)
    requires Ordinary(sep) && LaidOk(Laid(cells, stop), sep) && (stop.AtEnd? ==> rest == [])
    ensures ReadAll(LaidRow(cells, sep, stop) + rest, sep, LF) == LaidMarks(cells, sep, stop) + ReadAll(rest, sep, LF)
    decreases |cells|
  {
    hide ReadAll, CellText, CellOk;
    var all := Laid(cells, stop);
    assert CellOk(all.cells[0], sep, if 0 == |cells| - 1 then stop else AtSep);
    if |cells| == 1 {
      CellReads(cells[0], sep, stop, rest);
    } else {
      var others := cells[1..];
      var more := LaidRow(others, sep, stop) + rest;
      CellReads(cells[0], sep, AtSep, more);
      assert forall k :: 0 <= k < |others| ==> others[k] == cells[k + 1];
      LaidRowReads(others, sep, stop, rest);
      assert LaidRow(cells, sep, stop) + rest == CellText(cells[0]) + [sep] + more;
      var first := [Mark(CellValue(cells[0]), sep)];
      assert first + (LaidMarks(others, sep, stop) + ReadAll(rest, sep, LF))
          == LaidMarks(cells, sep, stop) + ReadAll(rest, sep, LF);
    }
  }

  /** For every file laid out by hand, with fields bare or quoted, rows ended by a line feed or by a
      carriage return and a line feed, and the last end left out or not: reading field by field gives
      the fields, and the character that ended each tells the row ends and the end of the file. */
  lemma {:induction false} FileReads(rows: seq<Laid>, sep: byte)
    requires Ordinary(sep) && FileOk(rows, sep)
    ensures ReadAll(FileText(rows, sep), sep, LF) == FileMarks(rows, sep)
    decreases |rows|
  {
    hide ReadAll, LaidRow, LaidMarks, LaidOk;
    if rows == [] {
      NothingToRead(sep);
    } else {
      var others := rows[1..];
      assert forall k :: 0 <= k < |others| ==> others[k] == rows[k + 1];
      LaidRowReads(rows[0].cells, sep, rows[0].stop, FileText(others, sep));
      FileReads(others, sep);
    }
  }

  /** A quote that is never closed runs to the end of the file. */
  lemma UnclosedQuoteReads(z: Text, sep: byte)
    requires Ordinary(sep)
    ensures ReadAll([34] + Doubled(z), sep, LF) == [Mark(z, EOF)]
  {
    hide QuotedScan, Doubled;
    var t := [34] + Doubled(z);
    assert t[1..|t|] == Doubled(z);
    var pc, ppc := ScanDoubled(t, 1, [], 0, 0, z, sep);
    assert [] + z == z;
    ClearAtEnd(t, z, pc, ppc, sep, LF);
    assert t[|t|..] == [];
    NothingToRead(sep);
  }

  lemma ClearAtEnd(s: Text, z: Text, pc: int, ppc: int, sep: int, row: int)
    requires Clear(pc, ppc) && sep != EOF && row != EOF
    ensures QuotedScan(s, |s|, z, pc, ppc, sep, row) == Field(z, EOF, |s|)
  {
  }

  // --------------------------------------------------------------------- written tables

  /** A written field is one of a file: bare when it needs no quotes, and quoted otherwise. */
  function WrittenCell(z: Text, sep: byte): Cell {
    if Plain(z, sep) then Bare(z) else Quoted(z)
  }

  /** A field is printed bare exactly when it is not empty and every byte of it is printable ASCII
      other than the separator, the space and the two quotes; otherwise it is quoted. */
  lemma PrintedBareIff(z: Text, sep: byte)
    ensures FieldText(z, sep) == z
       <==> z != [] && forall k :: 0 <= k < |z| ==> 33 <= z[k] <= 126 && z[k] !in {34, 39, sep as int}
    ensures FieldText(z, sep) != z ==> FieldText(z, sep) == CellText(Quoted(z))
  {
    DoublingKeepsLength(z);
  }

  lemma {:induction false} DoublingKeepsLength(z: Text)
    ensures |Doubled(z)| >= |z|
  {
    if z != [] {
      DoublingKeepsLength(z[..|z| - 1]);
    }
  }

  lemma WrittenCellText(z: Text, sep: byte)
    ensures CellText(WrittenCell(z, sep)) == FieldText(z, sep)
  {
    hide Doubled, Plain;
  }

  /** A written row is one of a file that ends with a carriage return and a line feed. */
  lemma {:induction false} RowIsLaid(fields: seq<Text>, sep: byte)
    ensures RowText(fields, sep)
         == LaidRow(seq(|fields|, k requires 0 <= k < |fields| => WrittenCell(fields[k], sep)), sep, AtCrLf)
  {
    hide WrittenCell, CellText, FieldText;
    var cells := seq(|fields|, k requires 0 <= k < |fields| => WrittenCell(fields[k], sep));
    if fields != [] {
      WrittenCellText(fields[0], sep);
    }
    if |fields| > 1 {
      var others := fields[1..];
      RowIsLaid(others, sep);
      assert cells[1..] == seq(|others|, k requires 0 <= k < |others| => WrittenCell(others[k], sep));
    }
  }

  /** A field and what follows it in a row: the reader takes exactly both. */
  lemma FieldReads(z: Text, sep: byte, last: bool, rest: Text)
    requires Ordinary(sep)
    ensures var end: Text := if last then [13, 10] else [sep];
            && ReadAll(FieldText(z, sep) + end + rest, sep, LF)
               == [Mark(z, if last then LF else sep)] + ReadAll(rest, sep, LF)
            && AllGiveText(FieldText(z, sep) + end + rest, sep, LF) == AllGiveText(rest, sep, LF)
  {
    hide QuotedScan, PlainScan, FieldAt, Doubled, ReadAll;
    var cell, stop := WrittenCell(z, sep), if last then AtCrLf else AtSep;
    var t := CellText(cell) + StopText(stop, sep) + rest;
    PlainNeedsNoQuote(z, sep);
    CellReads(cell, sep, stop, rest);
    assert t[|t| - |rest|..] == rest;
  }

  lemma PlainNeedsNoQuote(z: Text, sep: byte)
    ensures CellOk(WrittenCell(z, sep), sep, AtCrLf) && CellOk(WrittenCell(z, sep), sep, AtSep)
  {
    if Plain(z, sep) {
      assert !NeedsQuote(z[0]);
    }
  }

  lemma {:induction false} RowReads(fields: seq<Text>, sep: byte, rest: Text)
    requires Ordinary(sep) && fields != []
    ensures ReadAll(RowText(fields, sep) + rest, sep, LF) == RowMarks(fields, sep) + ReadAll(rest, sep, LF)
    ensures AllGiveText(RowText(fields, sep) + rest, sep, LF) == AllGiveText(rest, sep, LF)
  {
    hide ReadAll, FieldText, AllGiveText;
    if |fields| == 1 {
      FieldReads(fields[0], sep, true, rest);
    } else {
      var more := RowText(fields[1..], sep) + rest;
      FieldReads(fields[0], sep, false, more);
      RowReads(fields[1..], sep, rest);
      assert RowText(fields, sep) + rest == FieldText(fields[0], sep) + [sep] + more;
      assert [Mark(fields[0], sep)] + (RowMarks(fields[1..], sep) + ReadAll(rest, sep, LF))
          == RowMarks(fields, sep) + ReadAll(rest, sep, LF);
    }
  }

  predicate HasColumns(rows: seq<seq<Text>>) {
    forall k :: 0 <= k < |rows| ==> rows[k] != []
  }

  /** Reading a written table field by field gives back every field, none of them as nothing, and
      the character that ended each field tells where the rows end. */
  lemma {:induction false} TableReads(rows: seq<seq<Text>>, sep: byte)
    requires Ordinary(sep) && HasColumns(rows)
    ensures ReadAll(TableText(rows, sep), sep, LF) == TableMarks(rows, sep)
    ensures AllGiveText(TableText(rows, sep), sep, LF)
  {
    hide ReadAll, RowText, RowMarks, AllGiveText;
    if rows == [] {
      NothingToRead(sep);
    } else {
      RowReads(rows[0], sep, TableText(rows[1..], sep));
      TableReads(rows[1..], sep);
    }
  }

  lemma NothingToRead(sep: int)
    ensures ReadAll([], sep, LF) == [] && AllGiveText([], sep, LF)
  {
  }

  /** Line counting counts row separators. */
  lemma {:induction false} RowEndsIsCount(s: Text, row: byte)
    ensures RowEnds(s, row) == multiset(s)[row]
  {
    if s != [] {
      var n := |s| - 1;
      RowEndsIsCount(s[..n], row);
      assert s == s[..n] + [s[n]];
    }
  }

  /** The rows of the fields read: a field not ended by the column separator ends its row. */
  function Regrouped(marks: seq<Mark>, sep: int, current: seq<Text>): seq<seq<Text>>
    decreases |marks|
  {
    if marks == [] then (if current == [] then [] else [current])
    else if marks[0].term == sep then Regrouped(marks[1..], sep, current + [marks[0].text])
    else [current + [marks[0].text]] + Regrouped(marks[1..], sep, [])
  }

  lemma {:induction false} RowRegroups(fields: seq<Text>, sep: byte, rest: seq<Mark>, current: seq<Text>)
    requires Ordinary(sep) && fields != []
    ensures Regrouped(RowMarks(fields, sep) + rest, sep, current)
         == [current + fields] + Regrouped(rest, sep, [])
    decreases |fields|
  {
    hide Regrouped;
    if |fields| == 1 {
      RegroupStep(Mark(fields[0], LF), rest, sep, current);
      assert current + [fields[0]] == current + fields;
    } else {
      var others := fields[1..];
      var first := [Mark(fields[0], sep)];
      assert first + RowMarks(others, sep) + rest == first + (RowMarks(others, sep) + rest);
      RegroupStep(Mark(fields[0], sep), RowMarks(others, sep) + rest, sep, current);
      RowRegroups(others, sep, rest, current + [fields[0]]);
      assert current + [fields[0]] + others == current + fields;
    }
  }

  lemma {:induction false} TableRegroups(rows: seq<seq<Text>>, sep: byte)
    requires Ordinary(sep) && HasColumns(rows)
    ensures Regrouped(TableMarks(rows, sep), sep, []) == rows
  {
    if rows != [] {
      RowRegroups(rows[0], sep, TableMarks(rows[1..], sep), []);
      TableRegroups(rows[1..], sep);
      assert [] + rows[0] == rows[0];
      assert [rows[0]] + rows[1..] == rows;
    }
  }

  /** The separator as the reader has it: a `char`, which is signed. */
  function ReaderSeparator(sep: byte): int {
    if sep < 128 then sep else sep - 256
  }

  /** A table written and read back. */
  function Reread(rows: seq<seq<Text>>, sep: byte): seq<seq<Text>> {
    var c := ReaderSeparator(sep);
    Regrouped(ReadAll(TableText(rows, sep), c, LF), c, [])
  }

  lemma OneRowText(fields: seq<Text>, sep: byte)
    requires |fields| == 2
    ensures TableText([fields], sep) == FieldText(fields[0], sep) + [sep] + FieldText(fields[1], sep) + [13, 10]
  {
    hide FieldText;
    assert [fields][1..] == [] && TableText([fields][1..], sep) == [];
    assert RowText(fields, sep) == FieldText(fields[0], sep) + [sep] + RowText(fields[1..], sep);
  }

  lemma OneColumnText(a: Text, b: Text, sep: byte)
    ensures TableText([[a], [b]], sep) == FieldText(a, sep) + [13, 10] + (FieldText(b, sep) + [13, 10])
  {
    hide FieldText;
    assert [[a], [b]][1..] == [[b]];
    assert TableText([[b]], sep) == RowText([b], sep) + TableText([], sep);
  }

  /** With any other separator some table does not come back: the two fields `a` and `b`; for the
      line feed, two rows of one field; for the quote, an empty field and `b`. */
  lemma OtherSeparatorsLoseTables(sep: byte) returns (rows: seq<seq<Text>>)
    requires sep != 0 && !Ordinary(sep)
    ensures HasColumns(rows) && Reread(rows, sep) != rows
  {
    var a: Text, b: Text := [97], [98];
    assert sep != 97 && sep != 98;
    if sep == QUOTE {
      rows := [[[], b]];
      OneRowText([[], b], sep);
      assert FieldText([], sep) == [34, 34] && FieldText(b, sep) == b by { assert Plain(b, sep); }
      assert TableText(rows, sep) == [34, 34, 34, 98, 13, 10];
      QuoteSeparator([34, 34, 34, 98, 13, 10]);
    } else if sep == LF {
      rows := [[a], [b]];
      OneColumnText(a, b, sep);
      assert Plain(a, sep) && Plain(b, sep);
      LineFeedSeparator(a, b);
    } else {
      rows := [[a, b]];
      OneRowText([a, b], sep);
      assert Plain(a, sep) && Plain(b, sep);
      assert TableText(rows, sep) == a + [sep] + b + [13, 10];
      if sep == CR {
        ReturnSeparator(a, b);
      } else {
        SignedSeparator(a, b, sep);
      }
    }
  }

  lemma QuotedStep(s: Text, i: nat, z: Text, pc: int, ppc: int, sep: int, row: int)
    requires i < |s| && !EndsQuoted(s[i], pc, ppc, sep, row)
    ensures s[i] == QUOTE && pc == QUOTE ==>
              QuotedScan(s, i, z, pc, ppc, sep, row) == QuotedScan(s, i + 1, z, 0, ppc, sep, row)
    ensures !(s[i] == QUOTE && pc == QUOTE) ==>
              QuotedScan(s, i, z, pc, ppc, sep, row) == QuotedScan(s, i + 1, z + [s[i]], s[i], pc, sep, row)
  {
  }

  lemma QuoteSeparator(s: Text)
    requires s == [34, 34, 34, 98, 13, 10]
    ensures Regrouped(ReadAll(s, QUOTE, LF), QUOTE, []) != [[[], [98]]]
  {
    hide QuotedScan;
    assert FieldAt(s, QUOTE, LF) == QuotedScan(s, 1, [], 0, 0, QUOTE, LF);
    QuotedStep(s, 1, [], 0, 0, QUOTE, LF);
    PairStep(s, 2, [] + [34], 0, QUOTE, LF);
    QuotedStep(s, 3, [] + [34], 0, 0, QUOTE, LF);
    QuotedStep(s, 4, [] + [34] + [98], 98, 0, QUOTE, LF);
    QuotedStep(s, 5, [] + [34] + [98] + [13], 13, 98, QUOTE, LF);
    QuotedEnd(s, [] + [34] + [98] + [13] + [10], 10, 13, QUOTE, LF);
    var z: Text := [] + [34] + [98] + [13] + [10];
    assert FieldAt(s, QUOTE, LF) == Field(z, EOF, 6);
    assert s[6..] == [];
    var marks := ReadAll(s, QUOTE, LF);
    NothingToRead(QUOTE);
    assert marks == [Mark(z, EOF)] + [];
    OneMark(z, EOF, QUOTE);
    assert |z| == 4;
  }

  lemma PairStep(s: Text, i: nat, z: Text, ppc: int, sep: int, row: int)
    requires i < |s| && s[i] == QUOTE
    ensures QuotedScan(s, i, z, QUOTE, ppc, sep, row) == QuotedScan(s, i + 1, z, 0, ppc, sep, row)
  {
  }

  lemma QuotedEnd(s: Text, z: Text, pc: int, ppc: int, sep: int, row: int)
    requires pc != QUOTE && pc != CR
    ensures QuotedScan(s, |s|, z, pc, ppc, sep, row) == Field(z, EOF, |s|)
  {
  }

  lemma RegroupStep(m: Mark, rest: seq<Mark>, sep: int, current: seq<Text>)
    ensures Regrouped([m] + rest, sep, current)
         == if m.term == sep then Regrouped(rest, sep, current + [m.text])
            else [current + [m.text]] + Regrouped(rest, sep, [])
    ensures Regrouped([], sep, current) == if current == [] then [] else [current]
  {
  }

  lemma OneMark(z: Text, term: int, sep: int)
    requires term != sep
    ensures Regrouped([Mark(z, term)] + [], sep, []) == [[z]]
  {
    hide Regrouped;
    RegroupStep(Mark(z, term), [], sep, []);
    assert [] + [z] == [z] && [[z]] + [] == [[z]];
  }

  /** Every field then ends at the column separator, and the rows run together. */
  lemma LineFeedSeparator(a: Text, b: Text)
    requires a == [97] && b == [98]
    ensures Regrouped(ReadAll(a + [13, 10] + (b + [13, 10]), LF, LF), LF, []) != [[a], [b]]
  {
    hide FieldAt, Regrouped;
    UnquotedReads(a + [13], 10, b + [13, 10], LF, LF);
    assert a + [13] + [10] + (b + [13, 10]) == a + [13, 10] + (b + [13, 10]);
    UnquotedReads(b + [13], 10, [], LF, LF);
    assert b + [13] + [10] + [] == b + [13, 10];
    NothingToRead(LF);
    assert WithoutCr(a + [13]) == a && WithoutCr(b + [13]) == b;
    ThreeMarks(a, LF, b, LF, [], LF);
  }

  /** The return before the line feed then ends a field of its own. */
  lemma ReturnSeparator(a: Text, b: Text)
    requires a == [97] && b == [98]
    ensures Regrouped(ReadAll(a + [13] + b + [13, 10], CR, LF), CR, []) != [[a, b]]
  {
    hide FieldAt, Regrouped;
    UnquotedReads(a, 13, b + [13, 10], CR, LF);
    assert a + [13] + (b + [13, 10]) == a + [13] + b + [13, 10];
    UnquotedReads(b, 13, [10], CR, LF);
    assert b + [13] + [10] == b + [13, 10];
    UnquotedReads([], 10, [], CR, LF);
    assert [] + [10] + [] == [10];
    NothingToRead(CR);
    ThreeMarks(a, CR, b, CR, [], CR);
  }

  /** Two or three fields that all end at the separator make one row of two or three. */
  lemma ThreeMarks(a: Text, ta: int, b: Text, tb: int, c: Text, sep: int)
    requires ta == tb == sep
    ensures Regrouped([Mark(a, ta)] + ([Mark(b, tb)] + []), sep, []) == [[a, b]]
    ensures sep != LF ==> Regrouped([Mark(a, ta)] + ([Mark(b, tb)] + ([Mark(c, LF)] + [])), sep, []) == [[a, b, c]]
  {
    hide Regrouped;
    var last: seq<Mark> := [Mark(c, LF)] + [];
    RegroupStep(Mark(a, ta), [Mark(b, tb)] + [], sep, []);
    RegroupStep(Mark(b, tb), [], sep, [] + [a]);
    assert [] + [a] + [b] == [a, b] && [a, b] + [c] == [a, b, c];
    RegroupStep(Mark(a, ta), [Mark(b, tb)] + last, sep, []);
    RegroupStep(Mark(b, tb), last, sep, [] + [a]);
    RegroupStep(Mark(c, LF), [], sep, [a, b]);
    RegroupStep(Mark(c, LF), [], sep, []);
    assert [[a, b, c]] + [] == [[a, b, c]];
  }

  /** The reader's separator is negative and never read: the row is one field. */
  lemma SignedSeparator(a: Text, b: Text, sep: byte)
    requires a == [97] && b == [98] && sep >= 128
    ensures Regrouped(ReadAll(a + [sep] + b + [13, 10], ReaderSeparator(sep), LF), ReaderSeparator(sep), []) != [[a, b]]
  {
    hide FieldAt;
    var c := ReaderSeparator(sep);
    var z := a + [sep] + b;
    UnquotedReads(z + [13], 10, [], c, LF);
    assert z + [13] + [10] + [] == z + [13, 10];
    NothingToRead(c);
    assert WithoutCr(z + [13]) == z;
    OneMark(z, LF, c);
    assert [Mark(z, LF)] + [] == [Mark(z, LF)];
  }

  /** Tables come back unchanged, all of them, exactly for the ASCII separators other than the
      quote, the carriage return and the line feed. */
  lemma RoundTripIffOrdinarySeparator(sep: byte)
    requires sep != 0
    ensures (forall rows: seq<seq<Text>> :: HasColumns(rows) ==> Reread(rows, sep) == rows) <==> Ordinary(sep)
  {
    hide ReadAll, TableText, Regrouped;
    if Ordinary(sep) {
      forall rows: seq<seq<Text>> | HasColumns(rows)
        ensures Reread(rows, sep) == rows
      {
        TableReads(rows, sep);
        TableRegroups(rows, sep);
      }
    } else {
      var rows := OtherSeparatorsLoseTables(sep);
    }
  }
}

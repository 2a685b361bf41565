/** The configuration reader of `common/config.c`: an automaton whose states are actions that call
    each other, against a declarative grammar of the file's lines. A character stands for a byte of
    the file; a `string` ends at its first NUL or, without one, at its end. */
module ConfigFile {
  // ------------------------------------------------------------------ characters and lines

  const NUL: char := '\0'
  const BLOCK: nat := 32

  /** End of file as a `char`, which the byte 255 compares equal to. */
  const END_OF_FILE: char := 255 as char

  predicate EndsLine(c: char) {
    c == '\n' || c == END_OF_FILE
  }

  predicate IsBlank(c: char) {
    c == ' ' || c == '\t'
  }

  predicate IsLetter(c: char) {
    'a' <= c <= 'z' || 'A' <= c <= 'Z'
  }

  predicate IsAlphanumeric(c: char) {
    IsLetter(c) || '0' <= c <= '9'
  }

  /** How far the characters that satisfy `p` reach from the front. */
  function Span(s: string, p: char -> bool): (n: nat)
    ensures n <= |s| && (n < |s| ==> !p(s[n]))
    ensures forall k :: 0 <= k < n ==> p(s[k])
  {
    if s == [] || !p(s[0]) then 0 else 1 + Span(s[1..], p)
  }

  lemma SpanIs(s: string, p: char -> bool, n: nat)
    requires n <= |s| && (n < |s| ==> !p(s[n]))
    requires forall k :: 0 <= k < n ==> p(s[k])
    ensures Span(s, p) == n
  {
  }

  function UpToNul(s: string): string {
    s[..Span(s, c => c != NUL)]
  }

  function Trimmed(s: string): string {
    s[Span(s, IsBlank)..]
  }

  function LineLength(s: string): (n: nat)
    ensures n <= |s|
  {
    Span(s, c => !EndsLine(c))
  }

  function Line(piece: string): string {
    Trimmed(UpToNul(piece))
  }

  /** The lines of a text, each trimmed; there is one more than there are line ends. */
  function Lines(s: string): (lines: seq<string>) {
    var n := LineLength(s);
    [Line(s[..n])] + if n == |s| then [] else Lines(s[n + 1..])
  }

  method LeadingTrim(str: string) returns (result: string)
    ensures result == Trimmed(UpToNul(str)) && NUL !in result
  {
    var i, j := 0, 0;
    while i < |str| && str[i] != NUL
      invariant i <= |str| && forall k :: 0 <= k < i ==> str[k] != NUL
    {
      i := i + 1;
    }
    SpanIs(str, c => c != NUL, i);
    while j < |str| && str[j] != NUL && (str[j] == ' ' || str[j] == '\t')
      invariant j <= i && forall k :: 0 <= k < j ==> IsBlank(str[k])
    {
      j := j + 1;
    }
    SpanIs(str[..i], IsBlank, j);
    result := str[j..i];
    assert result == str[..i][j..];
  }

  // ----------------------------------------------------------------------------- the file

  class File {
    const content: string
    var pos: nat
    var eof: bool

    constructor (content: string)
      ensures Valid() && fresh(this) && !eof && pos == 0 && this.content == content
    {
      this.content, pos, eof := content, 0, false;
    }

    ghost predicate Valid()
      reads this
    {
      pos <= |content| && (eof ==> pos == |content|)
    }

    ghost function Rest(): string
      requires Valid()
      reads this
    {
      content[pos..]
    }

    /** The lines a reader that stops at end of file still gets. */
    ghost function Ahead(): seq<string>
      requires Valid()
      reads this
    {
      if eof then [] else Lines(Rest())
    }

    ghost function Left(): nat
      requires Valid()
      reads this
    {
      if eof then 0 else |content| - pos + 1
    }

    method Getc() returns (c: char)
      requires Valid()
      modifies this
      ensures Valid()
      ensures old(pos) == |content| ==> pos == old(pos) && eof && c == END_OF_FILE
      ensures old(pos) < |content| ==> pos == old(pos) + 1 && eof == old(eof) && c == content[old(pos)]
    {
      if pos == |content| {
        eof := true;
        c := END_OF_FILE;
      } else {
        c := content[pos];
        pos := pos + 1;
      }
    }
  }

  /** The buffer grown to `size`, what it held kept. */
  method Resize(buffer: array<char>, size: nat) returns (bigger: array<char>)
    requires buffer.Length <= size
    ensures fresh(bigger) && bigger.Length == size && bigger[..buffer.Length] == buffer[..]
  {
    bigger := new char[size];
    var k := 0;
    while k < buffer.Length
      invariant k <= buffer.Length && bigger[..k] == buffer[..k]
    {
      bigger[k] := buffer[k];
      k := k + 1;
    }
  }

  /** A buffer of whole blocks, the last one in use, for `i` characters. */
  predicate Fits(i: nat, size: nat) {
    size % BLOCK == 0 && i <= size < i + BLOCK
  }

  /** Stores the `i`-th character, growing the buffer when a block is full. */
  method Put(buffer: array<char>, i: nat, c: char) returns (next: array<char>)
    requires Fits(i, buffer.Length)
    modifies buffer
    ensures next == buffer || fresh(next)
    ensures Fits(i + 1, next.Length) && next[..i + 1] == old(buffer[..i]) + [c]
  {
    next := buffer;
    if i % BLOCK == 0 {
      next := Resize(buffer, BLOCK + i);
    }
    next[i] := c;
  }

  /** Reads the next line into a growing buffer and trims it. */
  method ReadLine(fp: File) returns (line: string)
    requires fp.Valid() && !fp.eof
    modifies fp
    ensures fp.Valid() && fp.Left() < old(fp.Left()) && NUL !in line
    ensures old(fp.Ahead()) == [line] + fp.Ahead()
  {
    hide LineLength, Lines, UpToNul, Trimmed;
    ghost var rest, start := fp.Rest(), fp.pos;
    ghost var n := LineLength(rest);
    var buffer := new char[0];
    var i := 0;
    var flag := false;
    while !flag
      invariant fp.Valid() && fresh(buffer)
      invariant Fits(i, buffer.Length)
      invariant !flag ==> i <= n && fp.pos == start + i && !fp.eof && buffer[..i] == rest[..i]
      invariant flag ==> i == n + 1 && buffer[..i] == rest[..n] + [NUL]
      invariant flag ==> fp.pos == start + (if n < |rest| then n + 1 else n) && (fp.eof <==> n == |rest|)
      decreases !flag, n + 1 - i
    {
      var c := fp.Getc();
      flag := c == '\n' || c == END_OF_FILE;
      EndOfLine(rest, i, flag);
      buffer := Put(buffer, i, if flag then NUL else c);
      i := i + 1;
    }
    line := LeadingTrim(buffer[..i]);
    NulEndsLine(rest[..n]);
    assert rest[..|rest|] == rest;
    LinesStep(rest);
    assert fp.eof || fp.Rest() == rest[n + 1..];
  }

  lemma EndOfLine(rest: string, i: nat, flag: bool)
    requires i <= LineLength(rest) && (flag <==> i == |rest| || EndsLine(rest[i]))
    ensures flag <==> i == LineLength(rest)
  {
  }

  lemma NulEndsLine(s: string)
    ensures UpToNul(s + [NUL]) == UpToNul(s)
  {
    var n := Span(s, c => c != NUL);
    assert n < |s| ==> (s + [NUL])[n] == s[n];
    SpanIs(s + [NUL], c => c != NUL, n);
  }

  lemma LinesStep(s: string)
    ensures LineLength(s) == |s| ==> Lines(s) == [Line(s)]
    ensures LineLength(s) < |s| ==> Lines(s) == [Line(s[..LineLength(s)])] + Lines(s[LineLength(s) + 1..])
  {
    hide LineLength, Line;
    assert s[..|s|] == s;
  }

  // -------------------------------------------------------------- what a line can be

  /** `^\[[a-zA-Z][a-zA-Z0-9]*\]$` */
  predicate IsSectionTag(line: string) {
    && |line| >= 3 && line[0] == '[' && line[|line| - 1] == ']' && IsLetter(line[1])
    && forall k :: 2 <= k < |line| - 1 ==> IsAlphanumeric(line[k])
  }

  /** Where the first `=` stands. */
  function EqualsAt(line: string): nat {
    Span(line, c => c != '=')
  }

  /** `^[a-zA-Z][a-zA-Z0-9 ]*=[^\n\t=]*$` */
  predicate IsParam(line: string) {
    var e := EqualsAt(line);
    && 0 < e < |line| && IsLetter(line[0])
    && (forall k :: 1 <= k < e ==> IsAlphanumeric(line[k]) || line[k] == ' ')
    && (forall k :: e < k < |line| ==> line[k] !in {'\n', '\t', '='})
  }

  function Name(line: string): string
    requires IsParam(line)
  {
    line[..EqualsAt(line)]
  }

  function Value(line: string): string
    requires IsParam(line)
  {
    line[EqualsAt(line) + 1..]
  }

  method GetParam(line: string) returns (param: string)
    requires IsParam(line)
    ensures param == Name(line)
  {
    var i := 0;
    while line[i] != '='
      invariant i <= EqualsAt(line)
      decreases |line| - i
    {
      i := i + 1;
    }
    SpanIs(line, c => c != '=', i);
    param := line[..i];
  }

  method GetValue(line: string) returns (value: string)
    requires IsParam(line)
    ensures value == Value(line)
  {
    var i := 0;
    var c := line[i];
    i := i + 1;
    while c != '='
      invariant 0 < i <= EqualsAt(line) + 1 && c == line[i - 1]
      decreases |line| - i
    {
      c := line[i];
      i := i + 1;
    }
    SpanIs(line, c => c != '=', i - 1);
    value := line[i..];
  }

  // --------------------------------------------------------------- what a file sets

  const SECTION := "[addresses]"
  const SERVER := "server"
  const LISTENING_PORT := "listening port"
  const DATABASE := "database"
  const LOGGING := "logging"
  const END := "end"

  datatype Addresses = Addresses(server: string, listeningPort: string, database: string, logging: string)

  function Assigned(a: Addresses, name: string, value: string): Addresses {
    if name == SERVER then a.(server := value)
    else if name == LISTENING_PORT then a.(listeningPort := value)
    else if name == DATABASE then a.(database := value)
    else if name == LOGGING then a.(logging := value)
    else a
  }

  /** A parameter called `end` closes a section just as the line `end` does. */
  predicate Closes(line: string) {
    line == END || (IsParam(line) && Name(line) == END)
  }

  /** Reading lines one after the other, in a section or not: success, and the addresses left. */
  function Read(lines: seq<string>, inside: bool, a: Addresses): (bool, Addresses) {
    if lines == [] then (!inside, a)
    else if !inside then
      if lines[0] == SECTION then Read(lines[1..], true, a)
      else if lines[0] == "" then Read(lines[1..], false, a)
      else (false, a)
    else if Closes(lines[0]) then Read(lines[1..], false, a)
    else if IsParam(lines[0]) then
      Read(lines[1..], true, Assigned(a, Name(lines[0]), Trimmed(Value(lines[0]))))
    else if lines[0] == "" then Read(lines[1..], true, a)
    else (false, a)
  }

  // ------------------------------------------------------------------- the automaton

  datatype Arc = Arc(tag: string, next: nat)
  datatype State = State(name: string, arcs: seq<Arc>)

  const STATES: nat := 6

  function Table(): seq<State> {
    [State("q0", [Arc(SECTION, 1)]),
     State("q1", [Arc(SERVER, 2), Arc(LISTENING_PORT, 3), Arc(DATABASE, 4), Arc(LOGGING, 5), Arc(END, 0)]),
     State("q2", [Arc("", 1)]),
     State("q3", [Arc("", 1)]),
     State("q4", [Arc("", 1)]),
     State("q5", [Arc("", 1)])]
  }

  /** Which parameter the value of a state belongs to. */
  function Key(q: nat): string
    requires 2 <= q < STATES
  {
    if q == 2 then SERVER else if q == 3 then LISTENING_PORT else if q == 4 then DATABASE else LOGGING
  }

  lemma TableShape()
    ensures |Table()| == STATES && Table()[0].name == "q0" && Table()[1].name == "q1"
    ensures Table()[0].arcs == [Arc(SECTION, 1)]
    ensures |Table()[1].arcs| == 5 && Table()[1].arcs[4] == Arc(END, 0)
    ensures forall k :: 0 <= k < 4 ==> Table()[1].arcs[k] == Arc(Key(k + 2), k + 2)
    ensures forall q :: 2 <= q < STATES ==> Table()[q].arcs == [Arc("", 1)]
    ensures forall q, k :: 0 <= q < STATES && 0 <= k < |Table()[q].arcs| ==> Table()[q].arcs[k].next < STATES
  {
  }

  lemma NamesDiffer(p: nat, q: nat)
    requires p < STATES && q < STATES && Table()[p].name == Table()[q].name
    ensures p == q
  {
  }

  /** What is left to happen when the action of state `q` starts: `line` is its value in the states
      that store one. */
  function Due(q: nat, line: string, lines: seq<string>, a: Addresses): (bool, Addresses)
    requires q < STATES
  {
    if q < 2 then Read(lines, q == 1, a) else Read(lines, true, Assigned(a, Key(q), Trimmed(line)))
  }

  lemma EndOfFileDue(q: nat, a: Addresses)
    requires q < 2
    ensures Due(q, "", [], a) == (q == 0, a)
  {
  }

  lemma OutsideDue(line: string, rest: seq<string>, a: Addresses)
    ensures Due(0, "", [line] + rest, a)
         == if line == SECTION then Due(1, "", rest, a) else if line == "" then Due(0, "", rest, a) else (false, a)
  {
  }

  lemma InsideDue(line: string, rest: seq<string>, a: Addresses)
    requires NUL !in line
    ensures line == END ==> Due(1, "", [line] + rest, a) == Due(0, "", rest, a)
    ensures line == "" ==> Due(1, "", [line] + rest, a) == Due(1, "", rest, a)
    ensures line != END && line != "" && !IsParam(line) ==> Due(1, "", [line] + rest, a) == (false, a)
  {
  }

  /** The arc a parameter takes leads to the state that stores its value, or out of the section. */
  lemma ArcTaken(line: string, rest: seq<string>, a: Addresses, arc: nat)
    requires IsParam(line) && line != END && arc < 5 && Name(line) == Table()[1].arcs[arc].tag
    ensures Due(1, "", [line] + rest, a) == Due(Table()[1].arcs[arc].next, Value(line), rest, a)
  {
  }

  lemma KeysDiffer(q: nat)
    requires 2 <= q < STATES
    ensures Key(q) != END
    ensures forall p :: 2 <= p < STATES && Key(p) == Key(q) ==> p == q
  {
  }

  /** A parameter no arc carries is passed over. */
  lemma NoArcTaken(line: string, rest: seq<string>, a: Addresses)
    requires IsParam(line) && line != END && forall k :: 0 <= k < 5 ==> Name(line) != Table()[1].arcs[k].tag
    ensures Due(1, "", [line] + rest, a) == Due(1, "", rest, a)
  {
    hide Table;
    TableShape();
    assert ([line] + rest)[1..] == rest;
    assert Table()[1].arcs[0].tag == SERVER && Table()[1].arcs[1].tag == LISTENING_PORT;
    assert Table()[1].arcs[2].tag == DATABASE && Table()[1].arcs[3].tag == LOGGING;
  }

  class Config {
    var addresses: Addresses

    constructor (unset: Addresses)
      ensures addresses == unset
    {
      addresses := unset;
    }
  }

  class Parser {
    var states: seq<State>
    var actualState: nat
    var statesQuantity: nat

    ghost predicate Valid()
      reads this
    {
      states == Table() && statesQuantity == STATES && actualState < STATES
    }

    /** `createAutomaton`. */
    constructor ()
      ensures Valid() && actualState == 0
    {
      states := [State("q0", []), State("q1", []), State("q2", []), State("q3", []), State("q4", []), State("q5", [])];
      actualState, statesQuantity := 0, 6;
      new;
      AddArcs(0, [Arc(SECTION, 1)]);
      AddArcs(1, [Arc(SERVER, 2), Arc(LISTENING_PORT, 3), Arc(DATABASE, 4), Arc(LOGGING, 5), Arc(END, 0)]);
      AddArcs(2, [Arc("", 1)]);
      AddArcs(3, [Arc("", 1)]);
      AddArcs(4, [Arc("", 1)]);
      AddArcs(5, [Arc("", 1)]);
    }

    method AddArcs(q: nat, arcs: seq<Arc>)
      requires q < |states| && states[q].arcs == []
      modifies this`states
      ensures states == old(states)[q := State(old(states)[q].name, arcs)]
    {
      var i := 0;
      assert old(states)[q] == State(old(states)[q].name, arcs[..0]);
      while i < |arcs|
        invariant i <= |arcs|
        invariant states == old(states)[q := State(old(states)[q].name, arcs[..i])]
      {
        assert arcs[..i + 1] == arcs[..i] + [arcs[i]];
        states := states[q := State(states[q].name, states[q].arcs + [arcs[i]])];
        i := i + 1;
      }
      assert arcs[..|arcs|] == arcs;
    }

    /** Although the loop is bounded by the number of states, a state that has an arc to the one
        named is never read past its arcs. */
    method MoveTo(name: string, ghost target: nat, ghost arc: nat) returns (r: int)
      requires Valid() && target < STATES && name == Table()[target].name
      requires arc < |Table()[actualState].arcs| && Table()[actualState].arcs[arc].next == target
      requires |Table()[actualState].arcs| <= STATES
      modifies this`actualState
      ensures r == 0 && actualState == target
    {
      hide Table;
      TableShape();
      var i := 0;
      while i < statesQuantity
        invariant i <= arc && actualState == old(actualState)
      {
        var aux := states[actualState].arcs[i].next;
        i := i + 1;
        if name == states[aux].name {
          NamesDiffer(aux, target);
          actualState := aux;
          return 0;
        }
        assert i - 1 != arc;
      }
      assert false;
    }

    method Q0Action(fp: File, config: Config) returns (flag: int)
      requires Valid() && fp.Valid() && actualState == 0
      modifies this`actualState, fp, config
      ensures Valid() && fp.Valid()
      ensures (flag == 0, config.addresses) == old(Due(0, "", fp.Ahead(), config.addresses))
      decreases fp.Left(), 0, 0
    {
      hide Table, Due, IsSectionTag, Lines;
      TableShape();
      ghost var a := config.addresses;
      if fp.eof {
        EndOfFileDue(0, a);
        return 0;
      }
      var line := ReadLine(fp);
      OutsideDue(line, fp.Ahead(), a);
      SectionIsTag();
      if IsSectionTag(line) {
        var i := 0;
        while i < |states[actualState].arcs|
          invariant i <= |states[actualState].arcs|
          invariant i > 0 ==> line != SECTION
        {
          if line == states[actualState].arcs[i].tag {
            var _ := MoveTo(states[states[actualState].arcs[i].next].name, 1, i);
            flag := Act(fp, "", config);
            return;
          }
          i := i + 1;
        }
      } else if line == "" {
        flag := Act(fp, "", config);
        return;
      }
      return -1;
    }

    method Q1Action(fp: File, config: Config) returns (flag: int)
      requires Valid() && fp.Valid() && actualState == 1
      modifies this`actualState, fp, config
      ensures Valid() && fp.Valid()
      ensures (flag == 0, config.addresses) == old(Due(1, "", fp.Ahead(), config.addresses))
      decreases fp.Left(), 0, 0
    {
      hide Table, Due, IsParam, Lines;
      TableShape();
      ghost var a := config.addresses;
      if fp.eof {
        EndOfFileDue(1, a);
        return -1;
      }
      var line := ReadLine(fp);
      InsideDue(line, fp.Ahead(), a);
      if line == "end" {
        var _ := MoveTo("q0", 0, 4);
        flag := Act(fp, "", config);
        return;
      } else if IsParam(line) {
        var param := GetParam(line);
        var i := 0;
        while i < |states[actualState].arcs|
          invariant i <= 5 && forall k :: 0 <= k < i ==> param != states[1].arcs[k].tag
        {
          if param == states[actualState].arcs[i].tag {
            var value := GetValue(line);
            ArcTaken(line, fp.Ahead(), a, i);
            var _ := MoveTo(states[states[actualState].arcs[i].next].name, states[1].arcs[i].next, i);
            flag := Act(fp, value, config);
            return;
          }
          i := i + 1;
        }
        NoArcTaken(line, fp.Ahead(), a);
        flag := Act(fp, "", config);
        return;
      } else if line == "" {
        flag := Act(fp, "", config);
        return;
      }
      return -1;
    }

    method Q2Action(fp: File, value: string, config: Config) returns (flag: int)
      requires Valid() && fp.Valid() && actualState == 2 && NUL !in value
      modifies this`actualState, fp, config
      ensures Valid() && fp.Valid()
      ensures (flag == 0, config.addresses) == old(Due(2, value, fp.Ahead(), config.addresses))
      decreases fp.Left(), 1, 0
    {
      hide Table, Read, Lines;
      TableShape();
      TrimmedValue(value);
      KeysDiffer(2);
      var line := LeadingTrim(value);
      config.addresses := config.addresses.(server := line);
      var _ := MoveTo("q1", 1, 0);
      flag := Act(fp, "", config);
    }

    method Q3Action(fp: File, value: string, config: Config) returns (flag: int)
      requires Valid() && fp.Valid() && actualState == 3 && NUL !in value
      modifies this`actualState, fp, config
      ensures Valid() && fp.Valid()
      ensures (flag == 0, config.addresses) == old(Due(3, value, fp.Ahead(), config.addresses))
      decreases fp.Left(), 1, 0
    {
      hide Table, Read, Lines;
      TableShape();
      TrimmedValue(value);
      KeysDiffer(3);
      var line := LeadingTrim(value);
      config.addresses := config.addresses.(listeningPort := line);
      var _ := MoveTo("q1", 1, 0);
      flag := Act(fp, "", config);
    }

    method Q4Action(fp: File, value: string, config: Config) returns (flag: int)
      requires Valid() && fp.Valid() && actualState == 4 && NUL !in value
      modifies this`actualState, fp, config
      ensures Valid() && fp.Valid()
      ensures (flag == 0, config.addresses) == old(Due(4, value, fp.Ahead(), config.addresses))
      decreases fp.Left(), 1, 0
    {
      hide Table, Read, Lines;
      TableShape();
      TrimmedValue(value);
      KeysDiffer(4);
      var line := LeadingTrim(value);
      config.addresses := config.addresses.(database := line);
      var _ := MoveTo("q1", 1, 0);
      flag := Act(fp, "", config);
    }

    method Q5Action(fp: File, value: string, config: Config) returns (flag: int)
      requires Valid() && fp.Valid() && actualState == 5 && NUL !in value
      modifies this`actualState, fp, config
      ensures Valid() && fp.Valid()
      ensures (flag == 0, config.addresses) == old(Due(5, value, fp.Ahead(), config.addresses))
      decreases fp.Left(), 1, 0
    {
      hide Table, Read, Lines;
      TableShape();
      TrimmedValue(value);
      KeysDiffer(5);
      var line := LeadingTrim(value);
      config.addresses := config.addresses.(logging := line);
      var _ := MoveTo("q1", 1, 0);
      flag := Act(fp, "", config);
    }

    /** The action of the state the parser is in. */
    method Act(fp: File, line: string, config: Config) returns (flag: int)
      requires Valid() && fp.Valid() && NUL !in line
      modifies this`actualState, fp, config
      ensures Valid() && fp.Valid()
      ensures (flag == 0, config.addresses) == old(Due(actualState, line, fp.Ahead(), config.addresses))
      decreases fp.Left(), if actualState < 2 then 0 else 1, 1
    {
      hide Read;
      if actualState == 0 {
        flag := Q0Action(fp, config);
      } else if actualState == 1 {
        flag := Q1Action(fp, config);
      } else if actualState == 2 {
        flag := Q2Action(fp, line, config);
      } else if actualState == 3 {
        flag := Q3Action(fp, line, config);
      } else if actualState == 4 {
        flag := Q4Action(fp, line, config);
      } else {
        flag := Q5Action(fp, line, config);
      }
    }
  }

  lemma SectionIsTag()
    ensures IsSectionTag(SECTION) && !IsSectionTag("")
  {
  }

  lemma TrimmedValue(value: string)
    requires NUL !in value
    ensures UpToNul(value) == value
  {
  }

  /** `parse`, on an opened file. */
  method Parse(fp: File, config: Config) returns (flag: int)
    requires fp.Valid() && !fp.eof && fp.pos == 0
    modifies fp, config
    ensures flag == 0 <==> Grammatical(Lines(fp.content))
    ensures flag == 0 ==> config.addresses == LastValues(Lines(fp.content), old(config.addresses))
  {
    var parser := new Parser();
    assert fp.Rest() == fp.content;
    AcceptedIffGrammatical(Lines(fp.content), config.addresses);
    flag := parser.Act(fp, "", config);
    if flag == 0 {
      LastAssignmentWins(Lines(fp.content), false, old(config.addresses));
    }
  }

  /** `setup`: no configuration without a file that can be opened and parsed. What an unset address
      holds is what the allocation left there. */
  method Setup(fp: File?, unset: Addresses) returns (config: Config?)
    requires fp != null ==> fp.Valid() && !fp.eof && fp.pos == 0
    modifies fp
    ensures config != null <==> fp != null && Grammatical(Lines(fp.content))
    ensures config != null ==> fresh(config) && config.addresses == LastValues(Lines(fp.content), unset)
  {
    config := new Config(unset);
    if fp == null {
      return null;
    }
    var flag := Parse(fp, config);
    if flag != 0 {
      config := null;
    }
  }

  // ---------------------------------------------------------------------- the grammar

  predicate InBody(line: string) {
    line == "" || (IsParam(line) && Name(line) != END)
  }

  /** A file is a list of empty lines and sections. */
  datatype Block = Blank | Section(body: seq<string>, close: string)

  predicate WellFormed(b: Block) {
    b.Section? ==> Closes(b.close) && forall k :: 0 <= k < |b.body| ==> InBody(b.body[k])
  }

  predicate AllWellFormed(blocks: seq<Block>) {
    forall k :: 0 <= k < |blocks| ==> WellFormed(blocks[k])
  }

  function BlockLines(b: Block): seq<string> {
    match b
    case Blank => [""]
    case Section(body, close) => [SECTION] + body + [close]
  }

  function AllLines(blocks: seq<Block>): seq<string> {
    if blocks == [] then [] else BlockLines(blocks[0]) + AllLines(blocks[1..])
  }

  ghost predicate Grammatical(lines: seq<string>) {
    exists blocks :: AllWellFormed(blocks) && AllLines(blocks) == lines
  }

  /** The value of the last line that assigns a key. */
  function LastValue(lines: seq<string>, key: string, initial: string): string {
    if lines == [] then initial else
    var l := lines[|lines| - 1];
    if IsParam(l) && Name(l) == key then Trimmed(Value(l)) else LastValue(lines[..|lines| - 1], key, initial)
  }

  function LastValues(lines: seq<string>, a: Addresses): Addresses {
    Addresses(LastValue(lines, SERVER, a.server), LastValue(lines, LISTENING_PORT, a.listeningPort),
              LastValue(lines, DATABASE, a.database), LastValue(lines, LOGGING, a.logging))
  }

  lemma {:induction false} FirstLineCounts(l: string, rest: seq<string>, key: string, initial: string)
    ensures LastValue([l] + rest, key, initial)
         == LastValue(rest, key, if IsParam(l) && Name(l) == key then Trimmed(Value(l)) else initial)
  {
    hide IsParam;
    var all := [l] + rest;
    if rest == [] {
      assert all[..0] == [];
    } else {
      var n := |rest| - 1;
      assert all[..n + 1] == [l] + rest[..n];
      FirstLineCounts(l, rest[..n], key, initial);
    }
  }

  lemma FirstLineAssigns(l: string, rest: seq<string>, a: Addresses)
    ensures IsParam(l) ==> LastValues([l] + rest, a) == LastValues(rest, Assigned(a, Name(l), Trimmed(Value(l))))
    ensures !IsParam(l) || Name(l) == END ==> LastValues([l] + rest, a) == LastValues(rest, a)
  {
    hide IsParam, LastValue, Name, Value, Trimmed;
    FirstLineCounts(l, rest, SERVER, a.server);
    FirstLineCounts(l, rest, LISTENING_PORT, a.listeningPort);
    FirstLineCounts(l, rest, DATABASE, a.database);
    FirstLineCounts(l, rest, LOGGING, a.logging);
    KeysAreFour();
  }

  lemma KeysAreFour()
    ensures END !in {SERVER, LISTENING_PORT, DATABASE, LOGGING}
    ensures SERVER !in {LISTENING_PORT, DATABASE, LOGGING}
    ensures LISTENING_PORT !in {DATABASE, LOGGING} && DATABASE != LOGGING
  {
  }

  lemma TagsAreNotParams()
    ensures !IsParam(SECTION) && !IsParam("") && !IsParam(END) && !Closes("")
  {
    hide Span, Name;
    assert SECTION[0] == '[';
    NoEqualsNoParam("");
    assert END[0] == 'e' && END[1] == 'n' && END[2] == 'd';
    NoEqualsNoParam(END);
  }

  lemma NoEqualsNoParam(line: string)
    requires forall k :: 0 <= k < |line| ==> line[k] != '='
    ensures !IsParam(line)
  {
    hide Span;
  }

  /** A file that is read to its end leaves each address at its last assignment, or as it was. */
  lemma {:induction false} LastAssignmentWins(lines: seq<string>, inside: bool, a: Addresses)
    requires Read(lines, inside, a).0
    ensures Read(lines, inside, a).1 == LastValues(lines, a)
  {
    hide IsParam, LastValues, Assigned;
    if lines == [] {
      NothingAssigned(a);
    } else {
      var l, rest := lines[0], lines[1..];
      assert lines == [l] + rest;
      FirstLineAssigns(l, rest, a);
      TagsAreNotParams();
      var next := if inside && IsParam(l) && !Closes(l) then Assigned(a, Name(l), Trimmed(Value(l))) else a;
      LastAssignmentWins(rest, if inside then !Closes(l) else l == SECTION, next);
    }
  }

  lemma NothingAssigned(a: Addresses)
    ensures LastValues([], a) == a
  {
  }

  /** The body and the closing line of a section that is read to the end of the file. */
  lemma {:induction false} SplitSection(lines: seq<string>, a: Addresses)
    returns (body: seq<string>, close: string, rest: seq<string>, b: Addresses)
    requires Read(lines, true, a).0
    ensures lines == body + [close] + rest && WellFormed(Section(body, close))
    ensures Read(rest, false, b) == Read(lines, true, a)
  {
    hide IsParam, Assigned, Trimmed;
    var l := lines[0];
    if Closes(l) {
      body, close, rest, b := [], l, lines[1..], a;
    } else {
      var next := if IsParam(l) then Assigned(a, Name(l), Trimmed(Value(l))) else a;
      body, close, rest, b := SplitSection(lines[1..], next);
      body := [l] + body;
      assert lines == [l] + lines[1..];
    }
  }

  lemma BlockPrepended(b: Block, blocks: seq<Block>)
    requires WellFormed(b) && AllWellFormed(blocks)
    ensures AllWellFormed([b] + blocks) && AllLines([b] + blocks) == BlockLines(b) + AllLines(blocks)
  {
    hide WellFormed, BlockLines;
    assert ([b] + blocks)[1..] == blocks;
  }

  lemma {:induction false} AcceptedIsGrammatical(lines: seq<string>, a: Addresses) returns (blocks: seq<Block>)
    requires Read(lines, false, a).0
    ensures AllWellFormed(blocks) && AllLines(blocks) == lines
    decreases |lines|
  {
    hide Read, AllLines, AllWellFormed;
    if lines == [] {
      blocks := [];
      NoBlocks();
    } else {
      var l, rest := lines[0], lines[1..];
      assert lines == [l] + rest;
      OutsideDue(l, rest, a);
      if l == SECTION {
        var body, close, after, b := SplitSection(rest, a);
        var others := AcceptedIsGrammatical(after, b);
        BlockPrepended(Section(body, close), others);
        blocks := [Section(body, close)] + others;
        assert [SECTION] + (body + [close] + after) == [SECTION] + body + [close] + after;
      } else {
        var others := AcceptedIsGrammatical(rest, a);
        BlockPrepended(Blank, others);
        blocks := [Blank] + others;
      }
    }
  }

  lemma NoBlocks()
    ensures AllWellFormed([]) && AllLines([]) == []
  {
  }

  lemma {:induction false} SectionIsRead(body: seq<string>, close: string, rest: seq<string>, a: Addresses)
    returns (b: Addresses)
    requires WellFormed(Section(body, close))
    ensures Read(body + [close] + rest, true, a) == Read(rest, false, b)
    decreases |body|
  {
    hide IsParam, Assigned, Trimmed;
    var lines := body + [close] + rest;
    TagsAreNotParams();
    if body == [] {
      assert lines[1..] == rest;
      b := a;
    } else {
      var l := body[0];
      assert InBody(l) && !Closes(l);
      assert lines[1..] == body[1..] + [close] + rest;
      b := SectionIsRead(body[1..], close, rest, if IsParam(l) then Assigned(a, Name(l), Trimmed(Value(l))) else a);
    }
  }

  lemma {:induction false} GrammaticalIsAccepted(blocks: seq<Block>, a: Addresses)
    requires AllWellFormed(blocks)
    ensures Read(AllLines(blocks), false, a).0
    decreases |blocks|
  {
    hide Read, AllLines, WellFormed;
    if blocks == [] {
      NoBlocks();
      EndOfFileDue(0, a);
    } else {
      var b, others := blocks[0], blocks[1..];
      var rest := AllLines(others);
      assert WellFormed(b) && AllWellFormed(others);
      BlockPrepended(b, others);
      assert blocks == [b] + others;
      match b
      case Blank =>
        OutsideDue("", rest, a);
        GrammaticalIsAccepted(others, a);
      case Section(body, close) =>
        assert [SECTION] + body + [close] + rest == [SECTION] + (body + [close] + rest);
        OutsideDue(SECTION, body + [close] + rest, a);
        var next := SectionIsRead(body, close, rest, a);
        GrammaticalIsAccepted(others, next);
    }
  }

  /** The automaton accepts exactly the files of the grammar. */
  lemma AcceptedIffGrammatical(lines: seq<string>, a: Addresses)
    ensures Read(lines, false, a).0 <==> Grammatical(lines)
  {
    if Read(lines, false, a).0 {
      var blocks := AcceptedIsGrammatical(lines, a);
    }
    if Grammatical(lines) {
      var blocks :| AllWellFormed(blocks) && AllLines(blocks) == lines;
      GrammaticalIsAccepted(blocks, a);
    }
  }

  // ----------------------------------------------------------- writing lines to a file

  /** A line that a text file can hold and that trimming leaves alone. */
  predicate Plain(line: string) {
    NUL !in line && (forall k :: 0 <= k < |line| ==> !EndsLine(line[k])) && (line != "" ==> !IsBlank(line[0]))
  }

  function Joined(lines: seq<string>): string
    requires lines != []
  {
    if |lines| == 1 then lines[0] else lines[0] + "\n" + Joined(lines[1..])
  }

  /** Lines written with newlines between them are the lines the reader gets. */
  lemma {:induction false} JoinedLinesAreRead(lines: seq<string>)
    requires lines != [] && forall k :: 0 <= k < |lines| ==> Plain(lines[k])
    ensures Lines(Joined(lines)) == lines
    decreases |lines|
  {
    hide LineLength, Line, Plain, Lines;
    var l, s := lines[0], Joined(lines);
    var n := |l|;
    PlainLine(l, s);
    LinesStep(s);
    assert s[..n] == l;
    if |lines| > 1 {
      assert s[n + 1..] == Joined(lines[1..]);
      JoinedLinesAreRead(lines[1..]);
    } else {
      assert lines == [l];
    }
  }

  lemma PlainLine(l: string, s: string)
    requires Plain(l) && l <= s && (|s| > |l| ==> EndsLine(s[|l|]))
    ensures LineLength(s) == |l| && Line(l) == l
  {
  }

  // -------------------------------------------------- what a parameter and a file look like

  /** A letter, then letters, digits and spaces. */
  predicate ParamName(name: string) {
    && name != "" && ('a' <= name[0] <= 'z' || 'A' <= name[0] <= 'Z')
    && forall k :: 0 < k < |name| ==>
         'a' <= name[k] <= 'z' || 'A' <= name[k] <= 'Z' || '0' <= name[k] <= '9' || name[k] == ' '
  }

  predicate ParamValue(value: string) {
    forall k :: 0 <= k < |value| ==> value[k] !in {'\n', '\t', '='}
  }

  /** A name, an equals sign and a value make a parameter with that name and that value. */
  lemma NameAndValue(name: string, value: string)
    requires ParamName(name) && ParamValue(value)
    ensures IsParam(name + "=" + value)
    ensures Name(name + "=" + value) == name && Value(name + "=" + value) == value
  {
    var line := name + "=" + value;
    SpanIs(line, c => c != '=', |name|);
    assert line[|name| + 1..] == value;
  }

  /** And nothing else does. */
  lemma ParamIff(line: string)
    ensures IsParam(line) <==> exists name, value :: ParamName(name) && ParamValue(value) && line == name + "=" + value
  {
    if IsParam(line) {
      var name, value := Name(line), Value(line);
      assert ParamName(name) && ParamValue(value) && line == name + "=" + value;
    }
    if exists name, value :: ParamName(name) && ParamValue(value) && line == name + "=" + value {
      var name, value :| ParamName(name) && ParamValue(value) && line == name + "=" + value;
      NameAndValue(name, value);
    }
  }

  /** The lines of a section: it is closed by the word `end` or a parameter of that name, and holds empty
      lines and the other parameters. */
  lemma LinesOfSection(line: string)
    ensures Closes(line) <==> line == "end" || exists value :: ParamValue(value) && line == "end" + "=" + value
    ensures InBody(line) <==> line == "" || exists name, value ::
              ParamName(name) && name != "end" && ParamValue(value) && line == name + "=" + value
  {
    hide IsParam, Name, Value;
    ParamIff(line);
    if IsParam(line) {
      var name, value :| ParamName(name) && ParamValue(value) && line == name + "=" + value;
      NameAndValue(name, value);
    }
    forall name, value | ParamName(name) && ParamValue(value) && line == name + "=" + value
      ensures IsParam(line) && Name(line) == name
    {
      NameAndValue(name, value);
    }
  }

  /** A value as it may stand in a file: spaces, and then what counts. */
  predicate WrittenValue(spaces: string, value: string) {
    && (forall k :: 0 <= k < |spaces| ==> spaces[k] == ' ')
    && ParamValue(value) && (value != "" ==> value[0] != ' ')
    && forall k :: 0 <= k < |value| ==> value[k] != '\0' && value[k] != 255 as char
  }

  lemma ValueIsTrimmed(spaces: string, value: string)
    requires WrittenValue(spaces, value)
    ensures Trimmed(spaces + value) == value && ParamValue(spaces + value)
  {
    SpanIs(spaces + value, IsBlank, |spaces|);
    assert (spaces + value)[|spaces|..] == value;
  }

  /** The lines of a file with one section that assigns the four keys. */
  function FourKeys(server: string, port: string, database: string, logging: string): seq<string> {
    ["[addresses]", "server=" + server, "listening port=" + port, "database=" + database, "logging=" + logging, "end"]
  }

  lemma LineAssigns(name: string, spaces: string, value: string)
    requires ParamName(name) && WrittenValue(spaces, value) && forall k :: 0 <= k < |name| ==> name[k] != '\0'
    ensures var line := name + "=" + (spaces + value);
            IsParam(line) && Name(line) == name && Trimmed(Value(line)) == value && Plain(line)
  {
    hide Trimmed, IsParam, Name, Value;
    ValueIsTrimmed(spaces, value);
    NameAndValue(name, spaces + value);
  }

  lemma FourNames()
    ensures ParamName("server") && ParamName("listening port") && ParamName("database") && ParamName("logging")
  {
    assert "server" == ['s', 'e', 'r', 'v', 'e', 'r'];
    assert "listening port" == ['l', 'i', 's', 't', 'e', 'n', 'i', 'n', 'g', ' ', 'p', 'o', 'r', 't'];
    assert "database" == ['d', 'a', 't', 'a', 'b', 'a', 's', 'e'];
    assert "logging" == ['l', 'o', 'g', 'g', 'i', 'n', 'g'];
  }

  /** A line as it may stand in a file: blanks, a text, a NUL and anything after it, and its end. */
  datatype Written = Written(indent: string, text: string, junk: string, end: char)

  predicate WrittenOk(w: Written) {
    && (forall k :: 0 <= k < |w.indent| ==> w.indent[k] == ' ' || w.indent[k] == '\t')
    && (forall k :: 0 <= k < |w.text| ==> w.text[k] != '\0' && w.text[k] != '\n' && w.text[k] != 255 as char)
    && (w.text != "" ==> w.text[0] != ' ' && w.text[0] != '\t')
    && (w.junk != "" ==> w.junk[0] == '\0')
    && (forall k :: 0 <= k < |w.junk| ==> w.junk[k] != '\n' && w.junk[k] != 255 as char)
    && (w.end == '\n' || w.end == 255 as char)
  }

  function WrittenLine(w: Written): string {
    w.indent + w.text + w.junk
  }

  /** A file of such lines; the last goes without its end. */
  function FileOf(ws: seq<Written>): string
    requires ws != []
  {
    if |ws| == 1 then WrittenLine(ws[0]) else WrittenLine(ws[0]) + [ws[0].end] + FileOf(ws[1..])
  }

  function Texts(ws: seq<Written>): seq<string> {
    if ws == [] then [] else [ws[0].text] + Texts(ws[1..])
  }

  lemma WrittenLineIsRead(w: Written, s: string)
    requires WrittenOk(w) && WrittenLine(w) <= s
    requires |s| > |WrittenLine(w)| ==> s[|WrittenLine(w)|] == '\n' || s[|WrittenLine(w)|] == 255 as char
    ensures LineLength(s) == |WrittenLine(w)| && Line(WrittenLine(w)) == w.text
  {
    var l := WrittenLine(w);
    SpanIs(s, c => !EndsLine(c), |l|);
    SpanIs(l, c => c != NUL, |w.indent| + |w.text|);
    var visible := l[..|w.indent| + |w.text|];
    assert visible == w.indent + w.text;
    SpanIs(visible, IsBlank, |w.indent|);
  }

  /** Whatever its lines are indented with, followed by and ended with, the reader gets their texts. */
  lemma {:induction false} WrittenLinesAreRead(ws: seq<Written>)
    requires ws != [] && forall k :: 0 <= k < |ws| ==> WrittenOk(ws[k])
    ensures Lines(FileOf(ws)) == Texts(ws)
    decreases |ws|
  {
    hide LineLength, Line, WrittenOk, Lines, WrittenLine;
    var l, s := WrittenLine(ws[0]), FileOf(ws);
    WrittenLineIsRead(ws[0], s) by { EndOfWritten(ws[0]); }
    LinesStep(s);
    assert s[..|l|] == l;
    if |ws| > 1 {
      assert s[|l| + 1..] == FileOf(ws[1..]);
      WrittenLinesAreRead(ws[1..]);
    } else {
      assert Texts(ws[1..]) == [];
    }
  }

  lemma EndOfWritten(w: Written)
    requires WrittenOk(w)
    ensures w.end == '\n' || w.end == 255 as char
  {
  }

  // --------------------------------------------------------------------- a file that sets all

  lemma ReadParam(line: string, rest: seq<string>, a: Addresses)
    requires IsParam(line) && Name(line) != END
    ensures Read([line] + rest, true, a) == Read(rest, true, Assigned(a, Name(line), Trimmed(Value(line))))
  {
    hide IsParam, Assigned, Trimmed;
    TagsAreNotParams();
    assert ([line] + rest)[1..] == rest;
  }

  lemma {:induction false} ReadBlanks(n: nat, a: Addresses)
    ensures Read(seq(n, _ => ""), false, a) == (true, a)
  {
    if n > 0 {
      ReadBlanks(n - 1, a);
      assert seq(n, _ => "")[1..] == seq(n - 1, _ => "");
      assert SECTION != "";
    }
  }

  /** One section that assigns the four keys, whatever stands there already: each address becomes
      the value after its leading spaces. */
  lemma FourKeysAreRead(spaces: seq<string>, values: seq<string>, n: nat, a: Addresses)
    requires |spaces| == |values| == 4 && forall k :: 0 <= k < 4 ==> WrittenValue(spaces[k], values[k])
    ensures var lines := FourKeys(spaces[0] + values[0], spaces[1] + values[1], spaces[2] + values[2],
                                  spaces[3] + values[3]) + seq(n, _ => "");
            Read(lines, false, a) == (true, Addresses(values[0], values[1], values[2], values[3]))
  {
    hide IsParam, Name, Value, Trimmed, Read, ParamName, WrittenValue;
    var rest := seq(n, _ => "");
    FourNames();
    var l1, l2 := "server=" + (spaces[0] + values[0]), "listening port=" + (spaces[1] + values[1]);
    var l3, l4 := "database=" + (spaces[2] + values[2]), "logging=" + (spaces[3] + values[3]);
    KeyLines(spaces, values);
    KeysAreFour();
    var r5 := ["end"] + rest;
    var r4, r3 := [l4] + r5, [l3] + ([l4] + r5);
    var r2 := [l2] + r3;
    var r1 := [l1] + r2;
    OutsideIsEntered(r1, a);
    ReadParam(l1, r2, a);
    var a1 := Assigned(a, SERVER, values[0]);
    ReadParam(l2, r3, a1);
    var a2 := Assigned(a1, LISTENING_PORT, values[1]);
    ReadParam(l3, r4, a2);
    var a3 := Assigned(a2, DATABASE, values[2]);
    ReadParam(l4, r5, a3);
    var a4 := Assigned(a3, LOGGING, values[3]);
    EndIsRead(rest, a4);
    ReadBlanks(n, a4);
    assert FourKeys(spaces[0] + values[0], spaces[1] + values[1], spaces[2] + values[2], spaces[3] + values[3]) + rest
        == ["[addresses]"] + r1;
  }

  lemma OutsideIsEntered(rest: seq<string>, a: Addresses)
    ensures Read(["[addresses]"] + rest, false, a) == Read(rest, true, a)
  {
    assert (["[addresses]"] + rest)[1..] == rest;
  }

  lemma EndIsRead(rest: seq<string>, a: Addresses)
    ensures Read(["end"] + rest, true, a) == Read(rest, false, a)
  {
    hide IsParam;
    assert (["end"] + rest)[1..] == rest;
  }

  lemma KeyLines(spaces: seq<string>, values: seq<string>)
    requires |spaces| == |values| == 4 && forall k :: 0 <= k < 4 ==> WrittenValue(spaces[k], values[k])
    ensures KeyLine("server=" + (spaces[0] + values[0]), "server", values[0])
    ensures KeyLine("listening port=" + (spaces[1] + values[1]), "listening port", values[1])
    ensures KeyLine("database=" + (spaces[2] + values[2]), "database", values[2])
    ensures KeyLine("logging=" + (spaces[3] + values[3]), "logging", values[3])
  {
    hide IsParam, Name, Value, Trimmed, ParamName, WrittenValue, Plain;
    FourNames();
    assert "server" + "=" == "server=" && "listening port" + "=" == "listening port=";
    assert "database" + "=" == "database=" && "logging" + "=" == "logging=";
    LineAssigns("server", spaces[0], values[0]);
    LineAssigns("listening port", spaces[1], values[1]);
    LineAssigns("database", spaces[2], values[2]);
    LineAssigns("logging", spaces[3], values[3]);
  }

  predicate KeyLine(line: string, name: string, value: string) {
    IsParam(line) && Name(line) == name && Trimmed(Value(line)) == value
  }

  /** So every file with one section that assigns the four keys is accepted and leaves exactly the four
      values without their leading spaces, however its lines are indented and ended. */
  lemma FourKeysAreKept(ws: seq<Written>, spaces: seq<string>, values: seq<string>, n: nat, a: Addresses)
    requires |spaces| == |values| == 4 && forall k :: 0 <= k < 4 ==> WrittenValue(spaces[k], values[k])
    requires ws != [] && forall k :: 0 <= k < |ws| ==> WrittenOk(ws[k])
    requires Texts(ws) == FourKeys(spaces[0] + values[0], spaces[1] + values[1], spaces[2] + values[2],
                                   spaces[3] + values[3]) + seq(n, _ => "")
    ensures Grammatical(Lines(FileOf(ws)))
    ensures LastValues(Lines(FileOf(ws)), a) == Addresses(values[0], values[1], values[2], values[3])
  {
    hide Read, Grammatical, LastValues, WrittenOk, WrittenValue, FileOf, Lines, FourKeys;
    WrittenLinesAreRead(ws);
    FourKeysAreRead(spaces, values, n, a);
    AcceptedIffGrammatical(Lines(FileOf(ws)), a);
    LastAssignmentWins(Lines(FileOf(ws)), false, a);
  }
}

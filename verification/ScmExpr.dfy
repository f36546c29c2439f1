/**
  * The parser for the S-expressions of .defs files. It goes through each line by position, with
  * a stack of the lists that are open. Whether a symbol is a number, which is what int() and
  * float() decide, is a parameter.
  */
module ScmExpr {
  import opened Wrappers

  /** What Python values come out: strings, the number that a literal denotes, and tuples. */
  datatype Value = Text(s: string) | Number(literal: string) | Tuple(items: seq<Value>)

  datatype Error =
    | CloseWithoutOpen(line: nat)
    | StringOutside(line: nat)
    | IdentifierOutside(line: nat)
    | UnclosedString(line: nat)
    | UnclosedParens(openLines: seq<nat>, line: nat)

  predicate IsSpace(c: char) {
    c == ' ' || c == '\t' || c == '\n' || c == '\r' || c == '\U{b}' || c == '\U{c}'
  }

  predicate IsNonSymbol(c: char) {
    IsSpace(c) || c == '(' || c == ')' || c == ';' || c == '\'' || c == '"'
  }

  // ---- The state of the parser -----------------------------------------------------------

  /** The open lists with what is in them, the lines that they were opened on, and what was yielded. */
  datatype State = State(stack: seq<seq<Value>>, openLines: seq<nat>, yielded: seq<Value>) {
    function Open(line: nat): State {
      State(stack + [[]], openLines + [line], yielded)
    }

    function Append(v: Value): State
      requires stack != []
    {
      var top := |stack| - 1;
      this.(stack := stack[..top] + [stack[top] + [v]])
    }

    /** A finished value goes into the list around it, or is yielded if there is none. */
    function Add(v: Value): State {
      if stack == [] then this.(yielded := yielded + [v]) else Append(v)
    }

    function Close(): State
      requires stack != [] && |openLines| == |stack|
    {
      var top := |stack| - 1;
      State(stack[..top], openLines[..top], yielded).Add(Tuple(stack[top]))
    }

    predicate Valid() {
      |openLines| == |stack|
    }
  }

  /** The state that is reached, and the error that ended the scan if there was one. */
  datatype Scan = Scan(state: State, error: Option<Error>)

  const INITIAL := State([], [], [])

  // ---- Scanning a line -------------------------------------------------------------------

  /** How many characters there are up to the quote that closes the string, or the end. */
  function QuotedLength(s: string): (n: nat)
    ensures n <= |s|
  {
    if s == "" then 0
    else if |s| >= 2 && s[0] == '\\' then 2 + QuotedLength(s[2..])
    else if s[0] == '"' then 0
    else 1 + QuotedLength(s[1..])
  }

  function Escape(c: char): string {
    if c == 'n' then "\n" else if c == 'r' then "\r" else if c == 't' then "\t" else ['\\', c]
  }

  /** The characters of the string, up to the quote that closes it or the end. */
  function QuotedChars(s: string): string {
    if s == "" then ""
    else if |s| >= 2 && s[0] == '\\' then Escape(s[1]) + QuotedChars(s[2..])
    else if s[0] == '"' then ""
    else [s[0]] + QuotedChars(s[1..])
  }

  /** The characters that these stand for. */
  function Unescape(s: string): string {
    if s == "" then ""
    else if |s| >= 2 && s[0] == '\\' then Escape(s[1]) + Unescape(s[2..])
    else [s[0]] + Unescape(s[1..])
  }

  function SymbolLength(s: string): (n: nat)
    ensures n <= |s|
  {
    if s == "" || IsNonSymbol(s[0]) then 0 else 1 + SymbolLength(s[1..])
  }

  function ReadSymbol(text: string, numeric: string -> bool): Value {
    if numeric(text) then Number(text) else Text(text)
  }

  /** What happens at one position of a line: the scan ends, or goes on so many characters later. */
  datatype Move = Stop(scan: Scan) | Go(state: State, skip: nat)

  function Step(s: State, rest: string, line: nat, numeric: string -> bool): (m: Move)
    requires s.Valid() && rest != ""
    ensures match m case Stop(scan) => scan.state.Valid() case Go(s', n) => s'.Valid() && 1 <= n <= |rest|
  {
    if IsSpace(rest[0]) then Go(s, 1)
    else if rest[0] == ';' then Stop(Scan(s, None))
    else if "'(" <= rest then Go(s, 1)
    else if rest[0] == '(' then Go(s.Open(line), 1)
    else if rest[0] == ')' then
      if s.stack == [] then Stop(Scan(s, Some(CloseWithoutOpen(line)))) else Go(s.Close(), 1)
    else if rest[0] == '"' then
      var n := QuotedLength(rest[1..]);
      if s.stack == [] then Stop(Scan(s, Some(StringOutside(line))))
      else if 1 + n >= |rest| then Stop(Scan(s, Some(UnclosedString(line))))
      else Go(s.Append(Text(QuotedChars(rest[1..]))), n + 2)
    else
      var n := SymbolLength(rest);
      if s.stack == [] then Stop(Scan(s, Some(IdentifierOutside(line))))
      else Go(s.Append(ReadSymbol(rest[..n], numeric)), if n == 0 then 1 else n)
  }

  /** The rest of a line. */
  function ScanLine(s: State, rest: string, line: nat, numeric: string -> bool): (r: Scan)
    requires s.Valid()
    ensures r.state.Valid()
    decreases |rest|
  {
    if rest == "" then Scan(s, None)
    else match Step(s, rest, line, numeric)
      case Stop(scan) => scan
      case Go(s', n) => ScanLine(s', rest[n..], line, numeric)
  }

  function ScanLines(s: State, lines: seq<string>, before: nat, numeric: string -> bool): (r: Scan)
    requires s.Valid()
    ensures r.state.Valid()
    decreases |lines|
  {
    if lines == [] then Scan(s, None)
    else
      var first := ScanLine(s, lines[0], before + 1, numeric);
      if first.error.Some? then first else ScanLines(first.state, lines[1..], before + 1, numeric)
  }

  /** parse(): what is yielded, and the error that is raised then if there is one. */
  datatype Outcome = Outcome(yielded: seq<Value>, error: Option<Error>)

  function Result(scan: Scan, line: nat): Outcome {
    Outcome(scan.state.yielded,
            if scan.error.None? && scan.state.stack != [] then Some(UnclosedParens(scan.state.openLines, line))
            else scan.error)
  }

  function Parsed(lines: seq<string>, numeric: string -> bool): Outcome {
    Result(ScanLines(INITIAL, lines, 0, numeric), |lines|)
  }

  // ---- The code --------------------------------------------------------------------------

  /** The loop over the characters of a quoted string, from behind its opening quote. */
  method FindQuote(line: string, start: nat) returns (endpos: nat, chars: string)
    requires start <= |line|
    ensures endpos == start + QuotedLength(line[start..])
    ensures chars == QuotedChars(line[start..])
  {
    endpos, chars := start, "";
    InStringStart(line, start);
    while endpos < |line|
      invariant start <= endpos <= |line| && InString(line, start, endpos, chars)
    {
      if endpos + 1 < |line| && line[endpos] == '\\' {
        InStringStep(line, start, endpos, chars);
        endpos := endpos + 1;
        chars := chars + Escape(line[endpos]);
      } else if line[endpos] == '"' {
        break;
      } else {
        InStringStep(line, start, endpos, chars);
        chars := chars + [line[endpos]];
      }
      endpos := endpos + 1;
    }
    InStringEnd(line, start, endpos, chars);
  }

  /** Up to this position, the string gives these characters. */
  ghost predicate InString(line: string, start: nat, at: nat, chars: string)
    requires start <= at <= |line|
  {
    && QuotedLength(line[start..]) == at - start + QuotedLength(line[at..])
    && QuotedChars(line[start..]) == chars + QuotedChars(line[at..])
  }

  lemma {:induction false} InStringStart(line: string, start: nat)
    requires start <= |line|
    ensures InString(line, start, start, "")
  {
    assert "" + QuotedChars(line[start..]) == QuotedChars(line[start..]);
  }

  lemma {:induction false} InStringStep(line: string, start: nat, at: nat, chars: string)
    requires start <= at < |line| && line[at] != '"' && InString(line, start, at, chars)
    ensures if at + 1 < |line| && line[at] == '\\'
            then InString(line, start, at + 2, chars + Escape(line[at + 1]))
            else InString(line, start, at + 1, chars + [line[at]])
  {
    var rest := line[at..];
    var k := if |rest| >= 2 && rest[0] == '\\' then 2 else 1;
    assert rest[k..] == line[at + k..];
    Regroup(chars, if k == 2 then Escape(rest[1]) else [rest[0]], QuotedChars(rest[k..]));
  }

  lemma {:induction false} InStringEnd(line: string, start: nat, at: nat, chars: string)
    requires start <= at <= |line| && InString(line, start, at, chars) && (at == |line| || line[at] == '"')
    ensures at == start + QuotedLength(line[start..]) && chars == QuotedChars(line[start..])
  {
    assert QuotedChars(line[at..]) == "" && QuotedLength(line[at..]) == 0;
  }

  lemma {:induction false} Regroup(a: string, b: string, c: string)
    ensures a + (b + c) == a + b + c
  {
  }

  /** The loop over the characters of a symbol. */
  method FindSymbolEnd(line: string, pos: nat) returns (endpos: nat)
    requires pos <= |line|
    ensures endpos == pos + SymbolLength(line[pos..])
  {
    endpos := pos;
    while endpos < |line| && !IsNonSymbol(line[endpos])
      invariant pos <= endpos <= |line|
      invariant SymbolLength(line[pos..]) == endpos - pos + SymbolLength(line[endpos..])
    {
      assert line[endpos..][1..] == line[endpos + 1..];
      endpos := endpos + 1;
    }
  }

  /** The branch for a quoted string, up to its closing quote. */
  method ParseString(s: State, line: string, pos: nat, lineno: nat, ghost numeric: string -> bool)
      returns (s': State, endpos: nat, error: Option<Error>)
    requires s.Valid() && pos < |line| && line[pos] == '"'
    ensures s'.Valid() && (error.None? ==> pos <= endpos < |line|)
    ensures Step(s, line[pos..], lineno, numeric)
        == if error.Some? then Stop(Scan(s', error)) else Go(s', endpos + 1 - pos)
  {
    if s.stack == [] { return s, pos, Some(StringOutside(lineno)); }
    var chars;
    endpos, chars := FindQuote(line, pos + 1);
    assert line[pos..][1..] == line[pos + 1..];
    if endpos >= |line| { return s, endpos, Some(UnclosedString(lineno)); }
    return s.Append(Text(chars)), endpos, None;
  }

  /** The branch for a symbol or number, up to its last character. */
  method ParseSymbol(s: State, line: string, pos: nat, lineno: nat, numeric: string -> bool)
      returns (s': State, last: nat, error: Option<Error>)
    requires s.Valid() && pos < |line| && !IsSpace(line[pos]) && line[pos] !in ";()\"" && !("'(" <= line[pos..])
    ensures s'.Valid() && pos <= last < |line|
    ensures Step(s, line[pos..], lineno, numeric)
        == if error.Some? then Stop(Scan(s', error)) else Go(s', last + 1 - pos)
  {
    if s.stack == [] { return s, pos, Some(IdentifierOutside(lineno)); }
    var endpos := FindSymbolEnd(line, pos);
    assert line[pos..endpos] == line[pos..][..endpos - pos];
    var symbol := line[pos..endpos];
    return s.Append(ReadSymbol(symbol, numeric)), if endpos == pos then pos else endpos - 1, None;
  }

  /** The scan comes to a scan from this position in this state. */
  ghost predicate ScannedTo(scan: Scan, line: string, lineno: nat, numeric: string -> bool, s: State, pos: nat)
    requires s.Valid() && pos <= |line|
  {
    scan == ScanLine(s, line[pos..], lineno, numeric)
  }

  lemma {:induction false} ScanStep(scan: Scan, line: string, lineno: nat, numeric: string -> bool, s: State, pos: nat)
    requires s.Valid() && pos < |line| && ScannedTo(scan, line, lineno, numeric, s, pos)
    ensures match Step(s, line[pos..], lineno, numeric)
            case Stop(ended) => scan == ended
            case Go(s', n) => ScannedTo(scan, line, lineno, numeric, s', pos + n)
  {
    var m := Step(s, line[pos..], lineno, numeric);
    assert m.Go? ==> line[pos..][m.skip..] == line[pos + m.skip..];
  }

  /** One round: what is at this position, up to its last character, unless the line ends here. */
  method ParseAt(s: State, line: string, pos: nat, lineno: nat, numeric: string -> bool)
      returns (s': State, last: nat, ends: bool, error: Option<Error>)
    requires s.Valid() && pos < |line|
    ensures s'.Valid() && (!ends ==> error.None? && pos <= last < |line|)
    ensures Step(s, line[pos..], lineno, numeric) == if ends then Stop(Scan(s', error)) else Go(s', last + 1 - pos)
  {
    s', last, ends, error := s, pos, false, None;
    ghost var rest := line[pos..];
    if IsSpace(line[pos]) {
    } else if line[pos] == ';' {
      ends := true;
    } else if line[pos] == '\'' && pos + 1 < |line| && line[pos + 1] == '(' {
      // the open parenthesis is handled in the next round
      assert "'(" <= rest;
    } else if line[pos] == '(' {
      s' := s.Open(lineno);
    } else if line[pos] == ')' {
      if s.stack == [] {
        ends, error := true, Some(CloseWithoutOpen(lineno));
      } else {
        s' := s.Close();
      }
    } else if line[pos] == '"' {
      s', last, error := ParseString(s, line, pos, lineno, numeric);
      ends := error.Some?;
    } else {
      s', last, error := ParseSymbol(s, line, pos, lineno, numeric);
      ends := error.Some?;
    }
  }

  /** One round of the loop: the scan has ended, or goes on behind the last character dealt with. */
  method ParseRound(s: State, line: string, pos: nat, lineno: nat, numeric: string -> bool, ghost scan: Scan)
      returns (s': State, last: nat, ends: bool, error: Option<Error>)
    requires s.Valid() && pos < |line| && ScannedTo(scan, line, lineno, numeric, s, pos)
    ensures s'.Valid() && (ends ==> scan == Scan(s', error))
    ensures !ends ==> error.None? && pos <= last < |line| && ScannedTo(scan, line, lineno, numeric, s', last + 1)
  {
    ScanStep(scan, line, lineno, numeric, s, pos);
    s', last, ends, error := ParseAt(s, line, pos, lineno, numeric);
  }

  /** The loop over the positions of a line. */
  method ParseLine(start: State, line: string, lineno: nat, numeric: string -> bool)
    returns (s: State, error: Option<Error>)
    requires start.Valid()
    ensures s.Valid() && Scan(s, error) == ScanLine(start, line, lineno, numeric)
  {
    s, error := start, None;
    var pos: nat := 0;
    assert line[0..] == line;
    ghost var scan := ScanLine(start, line, lineno, numeric);
    while pos < |line|
      invariant pos <= |line| && s.Valid() && error == None && ScannedTo(scan, line, lineno, numeric, s, pos)
      decreases |line| - pos
    {
      var last, ends;
      s, last, ends, error := ParseRound(s, line, pos, lineno, numeric, scan);
      if ends { return; }
      pos := last + 1;
    }
  }

  /** parse() */
  method Parse(lines: seq<string>, numeric: string -> bool) returns (out: Outcome)
    ensures out == Parsed(lines, numeric)
  {
    var s := INITIAL;
    for i := 0 to |lines|
      invariant s.Valid() && ScanLines(INITIAL, lines, 0, numeric) == ScanLines(s, lines[i..], i, numeric)
    {
      var error;
      s, error := ParseLine(s, lines[i], i + 1, numeric);
      if error.Some? {
        return Outcome(s.yielded, error);
      }
      assert lines[i..][1..] == lines[i + 1..];
    }
    if |s.stack| != 0 {
      return Outcome(s.yielded, Some(UnclosedParens(s.openLines, |lines|)));
    }
    out := Outcome(s.yielded, None);
  }
}

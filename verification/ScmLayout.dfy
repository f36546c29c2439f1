/**
  * Printed S-expressions: tokens with any white space and comments between them. Scanning a
  * printed line comes to taking its tokens one by one.
  */
module ScmLayout {
  import opened Wrappers
  import opened ScmExpr

  datatype Token = Open | QuoteOpen | LoneQuote | Close | Symbol(text: string) | Quoted(raw: string)

  function TokenText(t: Token): string {
    match t
    case Open => "("
    case QuoteOpen => "'("
    case LoneQuote => "'"
    case Close => ")"
    case Symbol(text) => text
    case Quoted(raw) => "\"" + raw + "\""
  }

  /** A symbol has no character that would end it, and the quote of a string is its end. */
  predicate GoodToken(t: Token) {
    match t
    case Symbol(text) => IsSymbol(text)
    case Quoted(raw) => IsClosed(raw)
    case _ => true
  }

  predicate IsSymbol(text: string) {
    text != "" && SymbolLength(text) == |text|
  }

  predicate IsClosed(raw: string) {
    QuotedLength(raw + "\"") == |raw|
  }

  // ---- Strings and symbols as they are read ----------------------------------------------

  /** Written as it is between quotes, the string is read as it is. */
  predicate ReadsAsItIs(s: string) {
    IsClosed(s) && Unescape(s) == s
  }

  /**
    * No quote, and no backslash before n, r or t or at the end; other than that a backslash
    * makes the character after it an ordinary one.
    */
  predicate Plain(s: string) {
    s == "" ||
    if s[0] == '\\' then |s| >= 2 && s[1] != 'n' && s[1] != 'r' && s[1] != 't' && Plain(s[2..])
    else s[0] != '"' && Plain(s[1..])
  }

  lemma {:induction false} ClosedStep(s: string, k: nat)
    requires s != "" && k == (if |s| >= 2 && s[0] == '\\' then 2 else 1)
    requires |s| >= 2 || s[0] != '\\'
    ensures s[0] != '"' ==> (IsClosed(s) <==> IsClosed(s[k..]))
    ensures Unescape(s) == (if k == 2 then Escape(s[1]) else [s[0]]) + Unescape(s[k..])
  {
    assert (s + "\"")[k..] == s[k..] + "\"";
  }

  /** Exactly these strings are read as they are. */
  lemma {:induction false} PlainReadsAsItIs(s: string)
    ensures Plain(s) <==> ReadsAsItIs(s)
  {
    if s == "" {
    } else if s[0] == '\\' && |s| == 1 {
      assert (s + "\"")[2..] == "";
    } else if s[0] != '"' {
      var k := if s[0] == '\\' then 2 else 1;
      ClosedStep(s, k);
      PlainReadsAsItIs(s[k..]);
      if k == 2 {
        assert s == [s[0], s[1]] + s[2..];
      } else {
        assert s == [s[0]] + s[1..];
      }
    }
  }

  /** With neither quotes nor backslashes, they are. */
  lemma {:induction false} OrdinaryIsPlain(s: string)
    requires '"' !in s && '\\' !in s
    ensures Plain(s)
  {
    if s != "" {
      OrdinaryIsPlain(s[1..]);
    }
  }

  /** A closed string is read up to its quote, whatever comes then. */
  lemma {:induction false} QuotedIsRead(raw: string, rest: string)
    requires IsClosed(raw)
    ensures QuotedLength(raw + "\"" + rest) == |raw| && QuotedChars(raw + "\"" + rest) == Unescape(raw)
    decreases |raw|
  {
    var all := raw + "\"" + rest;
    if raw == "" {
      assert all[0] == '"';
    } else if |raw| >= 2 && raw[0] == '\\' {
      assert (raw + "\"")[2..] == raw[2..] + "\"";
      assert all[2..] == raw[2..] + "\"" + rest;
      QuotedIsRead(raw[2..], rest);
    } else {
      assert (raw + "\"")[1..] == raw[1..] + "\"";
      assert all[1..] == raw[1..] + "\"" + rest;
      QuotedIsRead(raw[1..], rest);
    }
  }

  /** A symbol is read up to the first character that cannot be part of one. */
  lemma {:induction false} SymbolIsRead(text: string, rest: string)
    requires SymbolLength(text) == |text| && (rest != "" ==> IsNonSymbol(rest[0]))
    ensures SymbolLength(text + rest) == |text|
  {
    if text == "" {
      assert text + rest == rest;
    } else {
      assert (text + rest)[1..] == text[1..] + rest;
      SymbolIsRead(text[1..], rest);
    }
  }

  // ---- Taking tokens ---------------------------------------------------------------------

  /** A token on a line with this number. */
  datatype Placed = Placed(token: Token, line: nat)

  function Take(s: State, p: Placed, numeric: string -> bool): (r: Scan)
    requires s.Valid()
    ensures r.state.Valid()
  {
    match p.token
    case Open => Scan(s.Open(p.line), None)
    case QuoteOpen => Scan(s.Open(p.line), None)
    case Close => if s.stack == [] then Scan(s, Some(CloseWithoutOpen(p.line))) else Scan(s.Close(), None)
    case LoneQuote =>
      // a symbol without characters
      if s.stack == [] then Scan(s, Some(IdentifierOutside(p.line)))
      else Scan(s.Append(ReadSymbol("", numeric)), None)
    case Symbol(text) =>
      if s.stack == [] then Scan(s, Some(IdentifierOutside(p.line)))
      else Scan(s.Append(ReadSymbol(text, numeric)), None)
    case Quoted(raw) =>
      if s.stack == [] then Scan(s, Some(StringOutside(p.line))) else Scan(s.Append(Text(Unescape(raw))), None)
  }

  function TakeAll(s: State, ps: seq<Placed>, numeric: string -> bool): (r: Scan)
    requires s.Valid()
    ensures r.state.Valid()
    decreases |ps|
  {
    if ps == [] then Scan(s, None)
    else
      var first := Take(s, ps[0], numeric);
      if first.error.Some? then first else TakeAll(first.state, ps[1..], numeric)
  }

  lemma {:induction false} TakeConcat(s: State, ps: seq<Placed>, qs: seq<Placed>, numeric: string -> bool)
    requires s.Valid()
    ensures var first := TakeAll(s, ps, numeric);
            TakeAll(s, ps + qs, numeric) == if first.error.Some? then first else TakeAll(first.state, qs, numeric)
    decreases |ps|
  {
    if ps == [] {
      assert ps + qs == qs;
    } else {
      var first := Take(s, ps[0], numeric);
      assert (ps + qs)[1..] == ps[1..] + qs;
      if first.error.None? {
        TakeConcat(first.state, ps[1..], qs, numeric);
      }
    }
  }

  // ---- Printed lines ---------------------------------------------------------------------

  /** White space, and then a token. */
  datatype Item = Item(gap: string, token: Token)

  /** The tokens of a line, white space, and perhaps a comment. */
  datatype Line = Line(items: seq<Item>, trail: string, comment: Option<string>)

  function ItemsText(items: seq<Item>): string {
    if items == [] then "" else items[0].gap + TokenText(items[0].token) + ItemsText(items[1..])
  }

  function EndText(l: Line): string {
    l.trail + if l.comment.Some? then ";" + l.comment.value else ""
  }

  function LineText(l: Line): string {
    ItemsText(l.items) + EndText(l)
  }

  predicate AllSpace(s: string) {
    forall c :: c in s ==> IsSpace(c)
  }

  /** The two tokens would run together to another one. */
  predicate RunTogether(a: Token, b: Token) {
    (a.Symbol? && b.Symbol?) || (a.LoneQuote? && b.Open?)
  }

  /** There is white space where tokens would run together otherwise. */
  predicate GoodItems(items: seq<Item>) {
    items == [] ||
    (&& AllSpace(items[0].gap) && GoodToken(items[0].token)
     && (|items| > 1 && RunTogether(items[0].token, items[1].token) ==> items[1].gap != "")
     && GoodItems(items[1..]))
  }

  predicate GoodLine(l: Line) {
    GoodItems(l.items) && AllSpace(l.trail)
  }

  function Place(items: seq<Item>, line: nat): seq<Placed> {
    if items == [] then [] else [Placed(items[0].token, line)] + Place(items[1..], line)
  }

  function PlaceLines(lines: seq<Line>, before: nat): seq<Placed> {
    if lines == [] then [] else Place(lines[0].items, before + 1) + PlaceLines(lines[1..], before + 1)
  }

  function Texts(lines: seq<Line>): seq<string> {
    if lines == [] then [] else [LineText(lines[0])] + Texts(lines[1..])
  }

  // ---- Scanning what was printed ---------------------------------------------------------

  lemma {:induction false} SkipSpace(s: State, gap: string, rest: string, line: nat, numeric: string -> bool)
    requires s.Valid() && AllSpace(gap)
    ensures ScanLine(s, gap + rest, line, numeric) == ScanLine(s, rest, line, numeric)
    decreases |gap|
  {
    if gap == "" {
      assert gap + rest == rest;
    } else {
      assert IsSpace(gap[0]);
      assert (gap + rest)[1..] == gap[1..] + rest;
      SkipSpace(s, gap[1..], rest, line, numeric);
    }
  }

  /** What follows a symbol has to end it, and a quote by itself is not followed by an open parenthesis. */
  predicate CanFollow(t: Token, rest: string) {
    && (t.Symbol? && rest != "" ==> IsNonSymbol(rest[0]))
    && (t.LoneQuote? && rest != "" ==> rest[0] != '(')
  }

  /** Scanning a token comes to taking it. */
  ghost predicate ScansAs(s: State, t: Token, rest: string, line: nat, numeric: string -> bool)
    requires s.Valid()
  {
    var taken := Take(s, Placed(t, line), numeric);
    ScanLine(s, TokenText(t) + rest, line, numeric)
      == if taken.error.Some? then taken else ScanLine(taken.state, rest, line, numeric)
  }

  lemma {:induction false} ScanParen(s: State, t: Token, rest: string, line: nat, numeric: string -> bool)
    requires s.Valid() && (t.Open? || t.Close? || t.QuoteOpen?)
    ensures ScansAs(s, t, rest, line, numeric)
  {
    var all := TokenText(t) + rest;
    if t.QuoteOpen? {
      assert "'(" <= all;
      assert all[1..] == "(" + rest;
      assert ("(" + rest)[1..] == rest;
    } else {
      assert all[1..] == rest;
    }
  }

  lemma {:induction false} ScanSymbol(s: State, text: string, rest: string, line: nat, numeric: string -> bool)
    requires s.Valid() && IsSymbol(text) && CanFollow(Symbol(text), rest)
    ensures ScansAs(s, Symbol(text), rest, line, numeric)
  {
    SymbolIsRead(text, rest);
    var all := text + rest;
    assert !IsNonSymbol(all[0]);
    assert all[..|text|] == text && all[|text|..] == rest;
  }

  lemma {:induction false} ScanQuote(s: State, rest: string, line: nat, numeric: string -> bool)
    requires s.Valid() && CanFollow(LoneQuote, rest)
    ensures ScansAs(s, LoneQuote, rest, line, numeric)
  {
    var all := "'" + rest;
    assert all[0] == '\'' && all[..0] == "" && all[1..] == rest;
    assert |all| >= 2 ==> all[1] == rest[0] != '(';
  }

  lemma {:induction false} ScanQuoted(s: State, raw: string, rest: string, line: nat, numeric: string -> bool)
    requires s.Valid() && IsClosed(raw)
    ensures ScansAs(s, Quoted(raw), rest, line, numeric)
  {
    QuotedIsRead(raw, rest);
    QuotedParts(raw, rest);
    var all := TokenText(Quoted(raw)) + rest;
    assert all[0] == '"';
    NotAQuote(all);
  }

  lemma {:induction false} QuotedParts(raw: string, rest: string)
    ensures var all := TokenText(Quoted(raw)) + rest; all[1..] == raw + "\"" + rest && all[|raw| + 2..] == rest
  {
  }

  lemma {:induction false} ScanToken(s: State, t: Token, rest: string, line: nat, numeric: string -> bool)
    requires s.Valid() && GoodToken(t) && CanFollow(t, rest)
    ensures ScansAs(s, t, rest, line, numeric)
  {
    match t
    case Symbol(text) => ScanSymbol(s, text, rest, line, numeric);
    case LoneQuote => ScanQuote(s, rest, line, numeric);
    case Quoted(raw) => ScanQuoted(s, raw, rest, line, numeric);
    case _ => ScanParen(s, t, rest, line, numeric);
  }

  /** White space or a comment comes behind the tokens. */
  predicate EndsLine(end: string) {
    end != "" ==> IsSpace(end[0]) || end[0] == ';'
  }

  lemma {:induction false} EndIsSkipped(s: State, l: Line, line: nat, numeric: string -> bool)
    requires s.Valid() && AllSpace(l.trail)
    ensures ScanLine(s, EndText(l), line, numeric) == Scan(s, None)
    ensures EndsLine(EndText(l))
  {
    var comment := if l.comment.Some? then ";" + l.comment.value else "";
    SkipSpace(s, l.trail, comment, line, numeric);
    if l.trail != "" {
      assert IsSpace(l.trail[0]);
    }
  }

  /** What follows a token in a good line can follow it. */
  lemma {:induction false} NextCanFollow(items: seq<Item>, end: string)
    requires GoodItems(items) && items != [] && EndsLine(end)
    ensures CanFollow(items[0].token, ItemsText(items[1..]) + end)
  {
    var rest := items[1..];
    if rest != [] {
      var next := rest[0];
      if next.gap != "" {
        assert IsSpace(next.gap[0]);
        assert (ItemsText(rest) + end)[0] == next.gap[0];
      } else if TokenText(next.token) != "" {
        assert (ItemsText(rest) + end)[0] == TokenText(next.token)[0];
      }
    }
  }

  lemma {:induction false} ScanItems(s: State, items: seq<Item>, end: string, line: nat, numeric: string -> bool)
    requires s.Valid() && GoodItems(items) && EndsLine(end)
    ensures var taken := TakeAll(s, Place(items, line), numeric);
            ScanLine(s, ItemsText(items) + end, line, numeric)
              == if taken.error.Some? then taken else ScanLine(taken.state, end, line, numeric)
    decreases |items|
  {
    if items == [] {
      assert ItemsText(items) + end == end;
    } else {
      var t, rest := items[0].token, ItemsText(items[1..]) + end;
      assert ItemsText(items) + end == items[0].gap + (TokenText(t) + rest);
      SkipSpace(s, items[0].gap, TokenText(t) + rest, line, numeric);
      NextCanFollow(items, end);
      ScanToken(s, t, rest, line, numeric);
      var taken := Take(s, Placed(t, line), numeric);
      assert Place(items, line)[1..] == Place(items[1..], line);
      if taken.error.None? {
        ScanItems(taken.state, items[1..], end, line, numeric);
      }
    }
  }

  /** Scanning a good line comes to taking its tokens. */
  lemma {:induction false} ScanGoodLine(s: State, l: Line, line: nat, numeric: string -> bool)
    requires s.Valid() && GoodLine(l)
    ensures ScanLine(s, LineText(l), line, numeric) == TakeAll(s, Place(l.items, line), numeric)
  {
    var taken := TakeAll(s, Place(l.items, line), numeric);
    EndIsSkipped(s, l, line, numeric);
    EndIsSkipped(taken.state, l, line, numeric);
    ScanItems(s, l.items, EndText(l), line, numeric);
  }

  lemma {:induction false} ScanGoodLines(s: State, lines: seq<Line>, before: nat, numeric: string -> bool)
    requires s.Valid() && forall l :: l in lines ==> GoodLine(l)
    ensures ScanLines(s, Texts(lines), before, numeric) == TakeAll(s, PlaceLines(lines, before), numeric)
    decreases |lines|
  {
    if lines != [] {
      assert Texts(lines)[1..] == Texts(lines[1..]);
      ScanGoodLine(s, lines[0], before + 1, numeric);
      var first := ScanLine(s, LineText(lines[0]), before + 1, numeric);
      if first.error.None? {
        ScanGoodLines(first.state, lines[1..], before + 1, numeric);
      }
      TakeConcat(s, Place(lines[0].items, before + 1), PlaceLines(lines[1..], before + 1), numeric);
    }
  }

  // ---- A file as lines -------------------------------------------------------------------

  /** The lines that a file is iterated by, each with the newline that ends it. */
  function SplitLines(text: string): seq<string> {
    if text == "" then []
    else
      var n := FirstLine(text);
      [text[..n]] + SplitLines(text[n..])
  }

  function FirstLine(text: string): (n: nat)
    requires text != ""
    ensures 1 <= n <= |text|
  {
    if text[0] == '\n' || |text| == 1 then 1 else 1 + FirstLine(text[1..])
  }

  function Joined(lines: seq<string>): string {
    if lines == [] then "" else lines[0] + Joined(lines[1..])
  }

  /** A newline at the end, and nowhere else. */
  predicate OneLine(t: string) {
    t != "" && t[|t| - 1] == '\n' && '\n' !in t[..|t| - 1]
  }

  lemma {:induction false} FirstIsLine(t: string, rest: string)
    requires OneLine(t)
    ensures FirstLine(t + rest) == |t|
  {
    if |t| > 1 {
      assert t[0] == t[..|t| - 1][0];
      assert OneLine(t[1..]) by {
        assert forall i :: 0 <= i < |t| - 2 ==> t[1..][i] == t[..|t| - 1][i + 1];
      }
      assert (t + rest)[1..] == t[1..] + rest;
      FirstIsLine(t[1..], rest);
    }
  }

  lemma {:induction false} SplitJoined(lines: seq<string>)
    requires forall t :: t in lines ==> OneLine(t)
    ensures SplitLines(Joined(lines)) == lines
  {
    if lines != [] {
      var t, rest := lines[0], Joined(lines[1..]);
      FirstIsLine(t, rest);
      assert (t + rest)[..|t|] == t && (t + rest)[|t|..] == rest;
      SplitJoined(lines[1..]);
    }
  }

  // ---- A file in text mode ---------------------------------------------------------------

  /** What open() in text mode makes of the characters of a file: \r and \r\n become \n. */
  function Universal(text: string): string
    decreases |text|
  {
    if text == "" then ""
    else if text[0] == '\r' then "\n" + Universal(if |text| > 1 && text[1] == '\n' then text[2..] else text[1..])
    else [text[0]] + Universal(text[1..])
  }

  /** The lines that such a file is iterated by. */
  function FileLines(text: string): seq<string> {
    SplitLines(Universal(text))
  }

  lemma {:induction false} HeadAndTail(a: string, b: string)
    requires a != ""
    ensures a + b != "" && (a + b)[0] == a[0] && (a + b)[1..] == a[1..] + b
    ensures [a[0]] + (a[1..] + b) == a + b
  {
  }

  lemma {:induction false} UniversalKeeps(a: string, b: string)
    requires '\r' !in a
    ensures Universal(a + b) == a + Universal(b)
  {
    if a == "" {
      assert a + b == b;
    } else {
      HeadAndTail(a, b);
      UniversalKeeps(a[1..], b);
      HeadAndTail(a, Universal(b));
    }
  }

  /** The characters before the first \r. */
  function BeforeReturn(text: string): (s: string)
    ensures '\r' !in s && |s| <= |text|
  {
    if text == "" || text[0] == '\r' then "" else [text[0]] + BeforeReturn(text[1..])
  }

  lemma {:induction false} BeforeReturnIsPrefix(text: string)
    ensures text[..|BeforeReturn(text)|] == BeforeReturn(text)
    ensures '\r' in text <==> |BeforeReturn(text)| < |text|
    ensures '\r' in text ==> text[|BeforeReturn(text)|] == '\r'
  {
    if text != "" && text[0] != '\r' {
      BeforeReturnIsPrefix(text[1..]);
      var n := |BeforeReturn(text[1..])|;
      assert text[..n + 1] == [text[0]] + text[1..][..n];
      assert text == [text[0]] + text[1..];
    }
  }

  lemma {:induction false} BeforeReturnOf(a: string, b: string)
    ensures BeforeReturn(a + b) == if '\r' in a then BeforeReturn(a) else a + BeforeReturn(b)
  {
    if a == "" {
      assert a + b == b;
    } else if a[0] != '\r' {
      HeadAndTail(a, b);
      BeforeReturnOf(a[1..], b);
      InTail(a, '\r');
      HeadAndTail(a, BeforeReturn(b));
    }
  }

  lemma {:induction false} InTail(a: string, c: char)
    requires a != ""
    ensures c in a <==> a[0] == c || c in a[1..]
  {
    assert a == [a[0]] + a[1..];
  }

  lemma {:induction false} SplitAt(t: string, n: nat, rest: string)
    requires n < |t|
    ensures t + rest == t[..n] + (t[n..] + rest)
    ensures (t[n..] + rest)[0] == t[n]
  {
  }

  lemma {:induction false} UniversalAtReturn(t: string, rest: string) returns (after: string)
    requires '\r' in t
    ensures Universal(t + rest) == BeforeReturn(t) + "\n" + after
  {
    var x := BeforeReturn(t);
    BeforeReturnIsPrefix(t);
    var more := t[|x|..] + rest;
    SplitAt(t, |x|, rest);
    UniversalKeeps(x, more);
    after := AfterReturn(more);
    Rejoin(x, "\n", after);
  }

  lemma {:induction false} AfterReturn(text: string) returns (after: string)
    requires text != "" && text[0] == '\r'
    ensures Universal(text) == "\n" + after
  {
    after := Universal(if |text| > 1 && text[1] == '\n' then text[2..] else text[1..]);
  }

  lemma {:induction false} Rejoin(a: string, b: string, c: string)
    ensures a + (b + c) == a + b + c
  {
  }

  lemma {:induction false} CutIsOneLine(t: string)
    requires OneLine(t) && '\r' in t
    ensures OneLine(BeforeReturn(t) + "\n")
  {
    var x := BeforeReturn(t);
    BeforeReturnIsPrefix(t);
    assert forall i :: 0 <= i < |x| ==> x[i] == t[..|x|][i] == t[..|t| - 1][i];
    assert (x + "\n")[..|x|] == x;
  }

  /** Text mode ends a line at the first \r in it. */
  lemma {:induction false} CutLine(t: string, rest: string)
    requires OneLine(t) && '\r' in t
    ensures FileLines(t + rest) != [] && FileLines(t + rest)[0] == BeforeReturn(t) + "\n"
  {
    var after := UniversalAtReturn(t, rest);
    CutIsOneLine(t);
    var cut := BeforeReturn(t) + "\n";
    FirstIsLine(cut, after);
    assert (cut + after)[..|cut|] == cut;
  }

  /** Text mode leaves a line without \r alone. */
  lemma {:induction false} KeptLine(t: string, rest: string)
    requires OneLine(t) && '\r' !in t
    ensures FileLines(t + rest) == [t] + FileLines(rest)
  {
    UniversalKeeps(t, rest);
    FirstIsLine(t, Universal(rest));
    assert (t + Universal(rest))[..|t|] == t && (t + Universal(rest))[|t|..] == Universal(rest);
  }

  lemma {:induction false} FileLinesOf(lines: seq<string>)
    requires forall t :: t in lines ==> OneLine(t) && '\r' !in t
    ensures FileLines(Joined(lines)) == lines
  {
    if lines != [] {
      KeptLine(lines[0], Joined(lines[1..]));
      FileLinesOf(lines[1..]);
    }
  }

  /** The lines are separated by \n only, and \r is at most within strings. */
  predicate ReturnsInStrings(items: seq<Item>) {
    forall item :: item in items ==>
      '\r' !in item.gap && (item.token.Quoted? ==> Plain(item.token.raw))
  }

  predicate ReturnsInStringsOnly(l: Line) {
    ReturnsInStrings(l.items) && '\r' !in EndText(l)
  }

  /** A good line with one newline at its end, and carriage returns at most within its strings. */
  predicate FileLine(l: Line) {
    GoodLine(l) && OneLine(LineText(l)) && ReturnsInStringsOnly(l)
  }

  /** A string that is cut has no quote at its end. */
  lemma {:induction false} CutStringIsOpen(raw: string, n: nat)
    requires Plain(raw) && n <= |raw|
    ensures QuotedLength(raw[..n] + "\n") == n + 1
    decreases n
  {
    var cut := raw[..n] + "\n";
    if n == 0 {
      assert cut[1..] == "";
    } else if raw[0] == '\\' {
      if n == 1 {
        assert cut == ['\\', '\n'] && cut[2..] == "";
      } else {
        assert raw[2..][..n - 2] == raw[..n][2..];
        assert cut[2..] == raw[2..][..n - 2] + "\n";
        CutStringIsOpen(raw[2..], n - 2);
      }
    } else {
      assert raw[1..][..n - 1] == raw[..n][1..];
      assert cut[1..] == raw[1..][..n - 1] + "\n";
      CutStringIsOpen(raw[1..], n - 1);
    }
  }

  /** Scanning what is left of a line that was cut within a string gives an error. */
  lemma {:induction false} CutStringFails(s: State, raw: string, line: nat, numeric: string -> bool)
    requires s.Valid() && Plain(raw)
    ensures ScanLine(s, "\"" + BeforeReturn(raw) + "\n", line, numeric).error.Some?
  {
    var x := BeforeReturn(raw);
    BeforeReturnIsPrefix(raw);
    CutStringIsOpen(raw, |x|);
    var rest := "\"" + x + "\n";
    assert rest[1..] == x + "\n" && rest[0] == '"';
    NotAQuote(rest);
  }

  lemma {:induction false} NotAQuote(rest: string)
    requires rest != "" && rest[0] == '"'
    ensures !("'(" <= rest) && !IsSpace(rest[0])
  {
  }

  lemma {:induction false} CutItemsFail(s: State, items: seq<Item>, line: nat, numeric: string -> bool)
    requires s.Valid() && GoodItems(items) && ReturnsInStrings(items) && '\r' in ItemsText(items)
    ensures ScanLine(s, BeforeReturn(ItemsText(items)) + "\n", line, numeric).error.Some?
    decreases |items|
  {
    var t, rest := items[0].token, ItemsText(items[1..]);
    assert items[0] in items;
    if '\r' in TokenText(t) {
      TokenReturn(t);
      CutInFirst(items);
      var cut := "\"" + BeforeReturn(t.raw) + "\n";
      SkipSpace(s, items[0].gap, cut, line, numeric);
      CutStringFails(s, t.raw, line, numeric);
    } else {
      CutBehindFirst(items);
      var cut := BeforeReturn(rest) + "\n";
      SkipSpace(s, items[0].gap, TokenText(t) + cut, line, numeric);
      CutCanFollow(items);
      ScanToken(s, t, cut, line, numeric);
      var taken := Take(s, Placed(t, line), numeric);
      if taken.error.None? {
        CutItemsFail(taken.state, items[1..], line, numeric);
      }
    }
  }

  lemma {:induction false} CutInFirst(items: seq<Item>)
    requires items != [] && '\r' !in items[0].gap && '\r' in TokenText(items[0].token)
    requires items[0].token.Quoted?
    requires BeforeReturn(TokenText(items[0].token)) == "\"" + BeforeReturn(items[0].token.raw)
    ensures BeforeReturn(ItemsText(items)) + "\n" == items[0].gap + ("\"" + BeforeReturn(items[0].token.raw) + "\n")
  {
    var gap, t, rest := items[0].gap, items[0].token, ItemsText(items[1..]);
    assert ItemsText(items) == gap + (TokenText(t) + rest);
    BeforeReturnOf(gap, TokenText(t) + rest);
    BeforeReturnOf(TokenText(t), rest);
  }

  lemma {:induction false} CutBehindFirst(items: seq<Item>)
    requires items != [] && '\r' !in items[0].gap && '\r' !in TokenText(items[0].token) && '\r' in ItemsText(items)
    ensures var t, rest := items[0].token, ItemsText(items[1..]);
            && '\r' in rest
            && BeforeReturn(ItemsText(items)) + "\n" == items[0].gap + (TokenText(t) + (BeforeReturn(rest) + "\n"))
  {
    BehindTwo(items[0].gap, TokenText(items[0].token), ItemsText(items[1..]));
  }

  lemma {:induction false} BehindTwo(a: string, b: string, c: string)
    requires '\r' !in a && '\r' !in b && '\r' in a + b + c
    ensures '\r' in c && BeforeReturn(a + b + c) + "\n" == a + (b + (BeforeReturn(c) + "\n"))
  {
    BeforeReturnOf(a + b, c);
    Associate(a, b, BeforeReturn(c), "\n");
  }

  lemma {:induction false} Associate(a: string, b: string, c: string, d: string)
    ensures a + b + c + d == a + (b + (c + d))
  {
  }

  lemma {:induction false} TokenReturn(t: Token)
    requires GoodToken(t) && '\r' in TokenText(t)
    ensures t.Quoted? && BeforeReturn(TokenText(t)) == "\"" + BeforeReturn(t.raw)
  {
    match t
    case Symbol(text) => NoSpaceInSymbol(text);
    case Quoted(raw) =>
      assert TokenText(t) == "\"" + (raw + "\"");
      BeforeReturnOf("\"", raw + "\"");
      BeforeReturnOf(raw, "\"");
    case _ =>
  }

  lemma {:induction false} NoSpaceInSymbol(text: string)
    requires SymbolLength(text) == |text|
    ensures '\r' !in text
  {
    if text != "" {
      NoSpaceInSymbol(text[1..]);
      assert text == [text[0]] + text[1..];
    }
  }

  lemma {:induction false} CutCanFollow(items: seq<Item>)
    requires GoodItems(items) && items != []
    ensures CanFollow(items[0].token, BeforeReturn(ItemsText(items[1..])) + "\n")
  {
    NextCanFollow(items, "");
    var rest := ItemsText(items[1..]);
    assert rest + "" == rest;
    BeforeReturnIsPrefix(rest);
    var x := BeforeReturn(rest);
    assert x != "" ==> x[0] == rest[0] && (x + "\n")[0] == x[0];
  }

  /** A file of good lines with a \r in one of them is not parsed without an error. */
  lemma {:induction false} CutLinesFail(s: State, lines: seq<Line>, before: nat, numeric: string -> bool)
    requires s.Valid() && '\r' in Joined(Texts(lines))
    requires forall l :: l in lines ==> FileLine(l)
    ensures ScanLines(s, FileLines(Joined(Texts(lines))), before, numeric).error.Some?
    decreases |lines|
  {
    var l, t, rest := lines[0], LineText(lines[0]), Joined(Texts(lines[1..]));
    assert FileLine(l);
    assert Texts(lines)[0] == t && Texts(lines)[1..] == Texts(lines[1..]);
    assert Joined(Texts(lines)) == t + rest;
    if '\r' in t {
      CutLine(t, rest);
      BeforeReturnOf(ItemsText(l.items), EndText(l));
      CutItemsFail(s, l.items, before + 1, numeric);
    } else {
      KeptLine(t, rest);
      var first := ScanLine(s, t, before + 1, numeric);
      assert FileLines(t + rest)[1..] == FileLines(rest);
      if first.error.None? {
        CutLinesFail(first.state, lines[1..], before + 1, numeric);
      }
    }
  }
}

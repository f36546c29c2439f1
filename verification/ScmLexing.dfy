/**
  * Which texts the parser accepts, whatever they are: every line that is scanned without an error
  * is tokens with white space and perhaps a comment, so that the text is nested lists printed.
  */
module ScmLexing {
  import opened Wrappers
  import opened ScmExpr
  import opened ScmLayout
  import opened ScmForest

  // ---- Tokens of a line ------------------------------------------------------------------

  /** A string ends at its closing quote, wherever it is read from. */
  lemma {:induction false} ReadIsClosed(t: string)
    requires QuotedLength(t) < |t|
    ensures t[QuotedLength(t)] == '"' && IsClosed(t[..QuotedLength(t)])
    decreases |t|
  {
    var n := QuotedLength(t);
    if n > 0 {
      var k := if |t| >= 2 && t[0] == '\\' then 2 else 1;
      ReadIsClosed(t[k..]);
      assert t[..n][k..] == t[k..][..n - k];
      assert (t[..n] + "\"")[k..] == t[k..][..n - k] + "\"";
    }
  }

  lemma {:induction false} ReadIsSymbol(t: string)
    ensures var n := SymbolLength(t); SymbolLength(t[..n]) == n && (n < |t| ==> IsNonSymbol(t[n]))
  {
    var n := SymbolLength(t);
    if n > 0 {
      ReadIsSymbol(t[1..]);
      assert t[..n][1..] == t[1..][..n - 1];
    }
  }

  /** A token in front of a line that the scan goes on with. */
  function Before(t: Token, l: Line): Line {
    l.(items := [Item("", t)] + l.items)
  }

  /** A character of white space in front of a line. */
  function Spaced(c: char, l: Line): Line {
    if l.items == [] then l.(trail := [c] + l.trail)
    else l.(items := [Item([c] + l.items[0].gap, l.items[0].token)] + l.items[1..])
  }

  lemma {:induction false} SpacedIsGood(c: char, l: Line)
    requires GoodLine(l) && IsSpace(c)
    ensures GoodLine(Spaced(c, l)) && LineText(Spaced(c, l)) == [c] + LineText(l)
  {
    if l.items != [] {
      var first := Item([c] + l.items[0].gap, l.items[0].token);
      assert Spaced(c, l).items[1..] == l.items[1..];
      var rest := ItemsText(l.items[1..]);
      assert [c] + l.items[0].gap + TokenText(first.token) + rest
          == [c] + (l.items[0].gap + TokenText(first.token) + rest);
      Rejoin([c], ItemsText(l.items), EndText(l));
    } else {
      assert EndText(Spaced(c, l)) == [c] + EndText(l);
    }
  }

  /** A token can come before a line whose text can follow it. */
  lemma {:induction false} BeforeIsGood(t: Token, l: Line)
    requires GoodLine(l) && GoodToken(t) && CanFollow(t, LineText(l))
    ensures GoodLine(Before(t, l)) && LineText(Before(t, l)) == TokenText(t) + LineText(l)
  {
    assert Before(t, l).items[1..] == l.items;
    assert "" + TokenText(t) + ItemsText(l.items) == TokenText(t) + ItemsText(l.items);
    Rejoin(TokenText(t), ItemsText(l.items), EndText(l));
    if l.items != [] && RunTogether(t, l.items[0].token) && l.items[0].gap == "" {
      FirstOf(l);
    }
  }

  lemma {:induction false} FirstOf(l: Line)
    requires GoodLine(l) && l.items != [] && l.items[0].gap == ""
    requires l.items[0].token.Symbol? || l.items[0].token.Open?
    ensures LineText(l) != "" && LineText(l)[0] == TokenText(l.items[0].token)[0]
    ensures l.items[0].token.Symbol? ==> !IsNonSymbol(LineText(l)[0])
  {
    var t := TokenText(l.items[0].token);
    assert t != "" && ItemsText(l.items) == t + ItemsText(l.items[1..]);
    assert LineText(l)[0] == t[0];
  }

  // ---- Every line ------------------------------------------------------------------------

  /** The line is these tokens, and its scan comes to taking them. */
  ghost predicate Lexes(rest: string, l: Line) {
    GoodLine(l) && LineText(l) == rest
  }

  /** The token at the beginning of what is left of a line, if it is neither white space nor a comment. */
  function FirstToken(rest: string): Token
    requires rest != ""
  {
    if "'(" <= rest then QuoteOpen
    else if rest[0] == '(' then Open
    else if rest[0] == ')' then Close
    else if rest[0] == '"' then
      var n := QuotedLength(rest[1..]);
      Quoted(rest[1..][..n])
    else
      var n := SymbolLength(rest);
      if n == 0 then LoneQuote else Symbol(rest[..n])
  }

  lemma {:induction false} FirstTokenIsRead(rest: string)
    requires rest != "" && !IsSpace(rest[0]) && rest[0] != ';'
    requires rest[0] == '"' ==> QuotedLength(rest[1..]) < |rest| - 1
    ensures var t := FirstToken(rest); var k := |TokenText(t)|;
            GoodToken(t) && 1 <= k <= |rest| && rest[..k] == TokenText(t) && CanFollow(t, rest[k..])
  {
    if !("'(" <= rest) {
      if rest[0] == '"' {
        ReadIsClosed(rest[1..]);
        var n := QuotedLength(rest[1..]);
        assert rest[..n + 2] == "\"" + rest[1..][..n] + "\"";
      } else if rest[0] != '(' && rest[0] != ')' {
        ReadIsSymbol(rest);
        assert rest[0] == '\'' && |rest| >= 2 ==> rest[1] != '(';
      }
    }
  }

  lemma {:induction false} OpenStringFails(s: State, rest: string, line: nat, numeric: string -> bool)
    requires s.Valid() && rest != "" && rest[0] == '"' && QuotedLength(rest[1..]) >= |rest| - 1
    ensures ScanLine(s, rest, line, numeric).error.Some?
  {
    NotAQuote(rest);
  }

  /** Every line that is scanned without an error can be printed. */
  lemma {:induction false} Lex(s: State, rest: string, line: nat, numeric: string -> bool) returns (l: Line)
    requires s.Valid() && ScanLine(s, rest, line, numeric).error.None?
    ensures Lexes(rest, l)
    decreases |rest|
  {
    if rest == "" {
      l := Line([], "", None);
    } else if IsSpace(rest[0]) {
      var next := Lex(s, rest[1..], line, numeric);
      l := Spaced(rest[0], next);
      SpacedIsGood(rest[0], next);
      assert rest == [rest[0]] + rest[1..];
    } else if rest[0] == ';' {
      l := Line([], "", Some(rest[1..]));
      assert rest == ";" + rest[1..];
    } else {
      l := LexToken(s, rest, line, numeric);
    }
  }

  lemma {:induction false} LexToken(s: State, rest: string, line: nat, numeric: string -> bool) returns (l: Line)
    requires s.Valid() && ScanLine(s, rest, line, numeric).error.None?
    requires rest != "" && !IsSpace(rest[0]) && rest[0] != ';'
    ensures Lexes(rest, l)
    decreases |rest|, 0
  {
    if rest[0] == '"' && QuotedLength(rest[1..]) >= |rest| - 1 {
      OpenStringFails(s, rest, line, numeric);
      assert false;
    } else {
      FirstTokenIsRead(rest);
      var t := FirstToken(rest);
      var k := |TokenText(t)|;
      assert rest == TokenText(t) + rest[k..];
      ScanToken(s, t, rest[k..], line, numeric);
      var next := Lex(Take(s, Placed(t, line), numeric).state, rest[k..], line, numeric);
      l := Before(t, next);
      BeforeIsGood(t, next);
    }
  }

  /** The texts are these lines of tokens. */
  ghost predicate AllLex(texts: seq<string>, lines: seq<Line>) {
    Texts(lines) == texts && forall l :: l in lines ==> GoodLine(l)
  }

  lemma {:induction false} LexLines(s: State, texts: seq<string>, before: nat, numeric: string -> bool)
      returns (lines: seq<Line>)
    requires s.Valid() && ScanLines(s, texts, before, numeric).error.None?
    ensures AllLex(texts, lines)
    decreases |texts|
  {
    if texts == [] {
      lines := [];
    } else {
      var l := Lex(s, texts[0], before + 1, numeric);
      var rest := LexLines(ScanLine(s, texts[0], before + 1, numeric).state, texts[1..], before + 1, numeric);
      lines := [l] + rest;
      assert lines[1..] == rest && texts == [texts[0]] + texts[1..];
    }
  }

  // ---- What is accepted ------------------------------------------------------------------

  /** The texts are these nested lists, printed over these lines. */
  ghost predicate Prints(texts: seq<string>, lines: seq<Line>, nodes: seq<Node>) {
    AllLex(texts, lines) && (forall n :: n in nodes ==> n.Nest?) && Tokens(nodes) == Erase(PlaceLines(lines, 0))
  }

  /**
    * Any lines at all are parsed without an error exactly if they are nested lists printed, with any
    * white space, line breaks and comments between tokens; and then what they stand for is yielded.
    */
  lemma {:induction false} AcceptsExactly(texts: seq<string>, numeric: string -> bool)
    ensures Parsed(texts, numeric).error.None? <==> exists lines, nodes :: Prints(texts, lines, nodes)
    ensures forall lines, nodes :: Prints(texts, lines, nodes) ==>
              Parsed(texts, numeric) == Outcome(Values(nodes, numeric), None)
  {
    forall lines, nodes | Prints(texts, lines, nodes)
      ensures Parsed(texts, numeric) == Outcome(Values(nodes, numeric), None)
    {
      PrintedIsParsed(nodes, lines, numeric);
    }
    if Parsed(texts, numeric).error.None? {
      var lines := LexLines(INITIAL, texts, 0, numeric);
      AcceptsExactlyPrinted(lines, numeric);
      var nodes: seq<Node> :| (forall n :: n in nodes ==> n.Nest?) && Tokens(nodes) == Erase(PlaceLines(lines, 0));
      assert Prints(texts, lines, nodes);
    }
  }
}

/**
  * The text of a written definition as printed lines, and as the printing of one nested list.
  */
module DefinitionsLayout {
  import opened Wrappers
  import opened ScmExpr
  import opened ScmLayout
  import opened ScmForest
  import opened Definitions

  // ---- The lines of a definition ---------------------------------------------------------

  function HeadLine(kind: string, name: string): Line {
    Line([Item("", Open), Item("", Symbol("define-" + kind)), Item(" ", Symbol(name))], "\n", None)
  }

  function ClauseLine(key: string, value: string): Line {
    Line([Item("  ", Open), Item("", Symbol(key)), Item(" ", Quoted(value)), Item("", Close)], "\n", None)
  }

  function ListHeadLine(key: string): Line {
    Line([Item("  ", Open), Item("", Symbol(key))], "\n", None)
  }

  function PairLine(p: Pair): Line {
    Line([Item("    ", QuoteOpen), Item("", Quoted(p.0)), Item(" ", Quoted(p.1)), Item("", Close)], "\n", None)
  }

  const LIST_END_LINE := Line([Item("  ", Close)], "\n", None)
  const END_LINE := Line([Item("", Close)], "\n", None)
  const BLANK_LINE := Line([], "\n", None)

  function ClauseLines(clauses: seq<Pair>): seq<Line> {
    if clauses == [] then [] else [ClauseLine(clauses[0].0, clauses[0].1)] + ClauseLines(clauses[1..])
  }

  function PairLines(pairs: seq<Pair>): seq<Line> {
    if pairs == [] then [] else [PairLine(pairs[0])] + PairLines(pairs[1..])
  }

  function ListLines(key: string, pairs: seq<Pair>): seq<Line> {
    if pairs == [] then [] else [ListHeadLine(key)] + PairLines(pairs) + [LIST_END_LINE]
  }

  function SheetLines(sheet: Sheet): seq<Line> {
    [HeadLine(sheet.kind, sheet.name)] + ClauseLines(sheet.clauses) + ListLines(sheet.key, sheet.pairs)
      + [END_LINE, BLANK_LINE]
  }

  // ---- They are the text that is written -------------------------------------------------

  function ItemText(item: Item): string {
    item.gap + TokenText(item.token)
  }

  lemma {:induction false} ItemsCons(item: Item, rest: seq<Item>)
    ensures ItemsText([item] + rest) == ItemText(item) + ItemsText(rest)
  {
    assert ([item] + rest)[1..] == rest;
  }

  lemma {:induction false} ThreeItems(a: Item, b: Item, c: Item)
    ensures ItemsText([a, b, c]) == ItemText(a) + ItemText(b) + ItemText(c)
  {
    assert [a, b, c] == [a] + ([b] + ([c] + []));
    ItemsCons(a, [b] + ([c] + []));
    ItemsCons(b, [c] + []);
    ItemsCons(c, []);
  }

  lemma {:induction false} FourItems(a: Item, b: Item, c: Item, d: Item)
    ensures ItemsText([a, b, c, d]) == ItemText(a) + ItemText(b) + ItemText(c) + ItemText(d)
  {
    assert [a, b, c, d] == [a] + [b, c, d];
    ItemsCons(a, [b, c, d]);
    ThreeItems(b, c, d);
  }

  lemma {:induction false} HeadLineText(kind: string, name: string)
    ensures LineText(HeadLine(kind, name)) == HeadText(kind, name)
  {
    var l := HeadLine(kind, name);
    ThreeItems(l.items[0], l.items[1], l.items[2]);
    assert "(define-" == "(" + "define-";
    HeadPieces("(", "define-", kind, " ", name, "\n");
  }

  lemma {:induction false} HeadPieces(a: string, b: string, kind: string, c: string, name: string, n: string)
    ensures ("" + a) + ("" + (b + kind)) + (c + name) + (n + "") == (a + b) + kind + c + name + n
  {
  }

  lemma {:induction false} ClauseLineText(key: string, value: string)
    ensures LineText(ClauseLine(key, value)) == ClauseText(key, value)
  {
    var l := ClauseLine(key, value);
    FourItems(l.items[0], l.items[1], l.items[2], l.items[3]);
    assert "  (" == "  " + "(" && " \"" == " " + "\"" && "\")\n" == "\"" + ")" + "\n";
    ClausePieces("  ", "(", key, " ", "\"", value, ")", "\n");
  }

  lemma {:induction false} ClausePieces(a: string, b: string, key: string, c: string, q: string, value: string,
                                        d: string, n: string)
    ensures (a + b) + ("" + key) + (c + (q + value + q)) + ("" + d) + (n + "")
        == (a + b) + key + (c + q) + value + (q + d + n)
  {
  }

  lemma {:induction false} PairLineText(p: Pair)
    ensures LineText(PairLine(p)) == PairText(p)
  {
    var l := PairLine(p);
    FourItems(l.items[0], l.items[1], l.items[2], l.items[3]);
    assert "    '(\"" == "    " + "'(" + "\"" && "\" \"" == "\"" + " " + "\"" && "\")\n" == "\"" + ")" + "\n";
    PairPieces("    ", "'(", "\"", p.0, " ", p.1, ")", "\n");
  }

  lemma {:induction false} PairPieces(a: string, b: string, q: string, v: string, c: string, w: string, d: string,
                                      n: string)
    ensures (a + b) + ("" + (q + v + q)) + (c + (q + w + q)) + ("" + d) + (n + "")
         == (a + b + q) + v + (q + c + q) + w + (q + d + n)
  {
  }

  lemma {:induction false} ListHeadLineText(key: string)
    ensures LineText(ListHeadLine(key)) == ListHeadText(key)
  {
    var l := ListHeadLine(key);
    ItemsCons(l.items[0], [l.items[1]]);
    ItemsCons(l.items[1], []);
    assert l.items == [l.items[0]] + [l.items[1]] && [l.items[1]] + [] == [l.items[1]];
    assert "  (" == "  " + "(";
    ListHeadPieces("  (", key, "\n");
  }

  lemma {:induction false} ListHeadPieces(a: string, key: string, n: string)
    ensures a + ("" + key + "") + (n + "") == a + key + n
  {
  }

  lemma {:induction false} EndLineTexts()
    ensures LineText(LIST_END_LINE) == LIST_END
    ensures LineText(END_LINE) + LineText(BLANK_LINE) == SHEET_END
  {
  }

  lemma {:induction false} TextsConcat(a: seq<Line>, b: seq<Line>)
    ensures Texts(a + b) == Texts(a) + Texts(b)
  {
    if a == [] {
      assert a + b == b;
    } else {
      assert (a + b)[1..] == a[1..] + b;
      TextsConcat(a[1..], b);
    }
  }

  lemma {:induction false} JoinedConcat(a: seq<string>, b: seq<string>)
    ensures Joined(a + b) == Joined(a) + Joined(b)
  {
    if a == [] {
      assert a + b == b;
    } else {
      assert (a + b)[1..] == a[1..] + b;
      JoinedConcat(a[1..], b);
      assert a[0] + (Joined(a[1..]) + Joined(b)) == a[0] + Joined(a[1..]) + Joined(b);
    }
  }

  lemma {:induction false} ClauseLinesText(clauses: seq<Pair>)
    ensures Texts(ClauseLines(clauses)) == ClausesWritten(clauses)
  {
    if clauses != [] {
      ClauseLineText(clauses[0].0, clauses[0].1);
      ClauseLinesText(clauses[1..]);
      assert ClauseLines(clauses)[1..] == ClauseLines(clauses[1..]);
    }
  }

  lemma {:induction false} PairLinesText(pairs: seq<Pair>)
    ensures Texts(PairLines(pairs)) == PairsWritten(pairs)
  {
    if pairs != [] {
      PairLineText(pairs[0]);
      PairLinesText(pairs[1..]);
      assert PairLines(pairs)[1..] == PairLines(pairs[1..]);
    }
  }

  lemma {:induction false} OneText(l: Line)
    ensures Texts([l]) == [LineText(l)]
  {
    assert [l][1..] == [];
  }

  lemma {:induction false} ListLinesText(key: string, pairs: seq<Pair>)
    ensures Texts(ListLines(key, pairs)) == ListWritten(key, pairs)
  {
    if pairs != [] {
      ListHeadLineText(key);
      EndLineTexts();
      PairLinesText(pairs);
      OneText(ListHeadLine(key));
      OneText(LIST_END_LINE);
      TextsConcat([ListHeadLine(key)], PairLines(pairs));
      TextsConcat([ListHeadLine(key)] + PairLines(pairs), [LIST_END_LINE]);
    }
  }

  lemma {:induction false} JoinedEnd()
    ensures Joined(Texts([END_LINE, BLANK_LINE])) == Joined([SHEET_END])
  {
    assert [END_LINE, BLANK_LINE] == [END_LINE] + [BLANK_LINE];
    TextsConcat([END_LINE], [BLANK_LINE]);
    OneText(END_LINE);
    OneText(BLANK_LINE);
    JoinedConcat([LineText(END_LINE)], [LineText(BLANK_LINE)]);
    JoinedOne(LineText(END_LINE));
    JoinedOne(LineText(BLANK_LINE));
    JoinedOne(SHEET_END);
    EndLineTexts();
  }

  lemma {:induction false} JoinedOne(t: string)
    ensures Joined([t]) == t
  {
    assert [t][1..] == [];
  }

  /** The lines make up the text that is written for a definition. */
  lemma {:induction false} SheetLinesText(sheet: Sheet)
    ensures Joined(Texts(SheetLines(sheet))) == Joined(SheetWritten(sheet))
  {
    var head, clauses, list := [HeadLine(sheet.kind, sheet.name)], ClauseLines(sheet.clauses),
        ListLines(sheet.key, sheet.pairs);
    HeadLineText(sheet.kind, sheet.name);
    OneText(head[0]);
    ClauseLinesText(sheet.clauses);
    ListLinesText(sheet.key, sheet.pairs);
    TextsConcat(head, clauses);
    TextsConcat(head + clauses, list);
    TextsConcat(head + clauses + list, [END_LINE, BLANK_LINE]);
    JoinedConcat(Texts(head + clauses + list), Texts([END_LINE, BLANK_LINE]));
    JoinedConcat(Texts(head + clauses + list), [SHEET_END]);
    JoinedEnd();
  }

  // ---- They are good lines ---------------------------------------------------------------

  lemma {:induction false} SymbolChars(s: string)
    ensures SymbolLength(s) == |s| <==> forall c :: c in s ==> !IsNonSymbol(c)
  {
    if s != "" {
      SymbolChars(s[1..]);
      assert forall c :: c in s <==> c == s[0] || c in s[1..];
    }
  }

  /** A string that can be between quotes on one line, and is read as it is. */
  predicate GoodText(s: string) {
    Plain(s) && '\n' !in s
  }

  predicate GoodPairs(pairs: seq<Pair>) {
    forall p :: p in pairs ==> GoodText(p.0) && GoodText(p.1)
  }

  predicate GoodClauses(clauses: seq<Pair>) {
    forall p :: p in clauses ==> IsSymbol(p.0) && GoodText(p.1)
  }

  predicate GoodSheet(sheet: Sheet) {
    && IsSymbol("define-" + sheet.kind) && IsSymbol(sheet.name)
    && GoodClauses(sheet.clauses) && IsSymbol(sheet.key) && GoodPairs(sheet.pairs)
  }

  lemma {:induction false} GoodCons(item: Item, rest: seq<Item>)
    requires AllSpace(item.gap) && GoodToken(item.token) && GoodItems(rest)
    requires rest != [] && RunTogether(item.token, rest[0].token) ==> rest[0].gap != ""
    ensures GoodItems([item] + rest)
  {
    assert ([item] + rest)[1..] == rest;
  }

  /** An item of a line that is written: no newline in it, and a carriage return at most within a string. */
  predicate GoodItem(item: Item) {
    && AllSpace(item.gap) && '\r' !in item.gap && GoodToken(item.token) && !item.token.LoneQuote?
    && (item.token.Quoted? ==> Plain(item.token.raw))
  }

  lemma {:induction false} ThreeGood(a: Item, b: Item, c: Item)
    requires GoodItem(a) && GoodItem(b) && GoodItem(c) && !a.token.Symbol? && c.gap != ""
    ensures GoodItems([a, b, c]) && ReturnsInStrings([a, b, c])
  {
    GoodCons(c, []);
    GoodCons(b, [c] + []);
    GoodCons(a, [b] + ([c] + []));
    assert [a, b, c] == [a] + ([b] + ([c] + []));
  }

  lemma {:induction false} FourGood(a: Item, b: Item, c: Item, d: Item)
    requires GoodItem(a) && GoodItem(b) && GoodItem(c) && GoodItem(d)
    requires !a.token.Symbol? && c.gap != "" && !d.token.Symbol?
    ensures GoodItems([a, b, c, d]) && ReturnsInStrings([a, b, c, d])
  {
    GoodCons(d, []);
    GoodCons(c, [d] + []);
    GoodCons(b, [c] + ([d] + []));
    GoodCons(a, [b] + ([c] + ([d] + [])));
    assert [a, b, c, d] == [a] + ([b] + ([c] + ([d] + [])));
  }

  lemma {:induction false} FileLineOf(items: seq<Item>)
    requires GoodItems(items) && ReturnsInStrings(items) && OneLine(LineText(Line(items, "\n", None)))
    ensures FileLine(Line(items, "\n", None))
  {
    assert "\n" + "" == "\n";
  }

  lemma {:induction false} NoNewline(s: string)
    requires IsSymbol(s)
    ensures '\n' !in s
  {
    SymbolChars(s);
  }

  lemma {:induction false} EndsOnce(t: string)
    requires '\n' !in t
    ensures OneLine(t + "\n")
  {
    assert (t + "\n")[..|t|] == t;
  }

  lemma {:induction false} HeadTextIsLine(kind: string, name: string)
    requires '\n' !in "define-" + kind && '\n' !in name
    ensures OneLine(HeadText(kind, name))
  {
    var t := "(" + ("define-" + kind) + " " + name;
    assert "(define-" == "(" + "define-";
    HeadPieces("(", "define-", kind, " ", name, "\n");
    assert HeadText(kind, name) == t + "\n";
    EndsOnce(t);
  }

  lemma {:induction false} HeadLineIsGood(kind: string, name: string)
    requires IsSymbol("define-" + kind) && IsSymbol(name)
    ensures FileLine(HeadLine(kind, name))
  {
    var items := HeadLine(kind, name).items;
    NoNewline("define-" + kind);
    NoNewline(name);
    HeadTextIsLine(kind, name);
    HeadLineText(kind, name);
    ThreeGood(items[0], items[1], items[2]);
    FileLineOf(items);
  }

  lemma {:induction false} ClauseTextIsLine(key: string, value: string)
    requires '\n' !in key && '\n' !in value
    ensures OneLine(ClauseText(key, value))
  {
    var t := "  (" + key + " \"" + value + "\")";
    assert "\")\n" == "\")" + "\n";
    assert ClauseText(key, value) == t + "\n";
    EndsOnce(t);
  }

  lemma {:induction false} ClauseLineIsGood(key: string, value: string)
    requires IsSymbol(key) && GoodText(value)
    ensures FileLine(ClauseLine(key, value))
  {
    var items := ClauseLine(key, value).items;
    PlainReadsAsItIs(value);
    NoNewline(key);
    ClauseTextIsLine(key, value);
    ClauseLineText(key, value);
    FourGood(items[0], items[1], items[2], items[3]);
    FileLineOf(items);
  }

  lemma {:induction false} PairTextIsLine(p: Pair)
    requires '\n' !in p.0 && '\n' !in p.1
    ensures OneLine(PairText(p))
  {
    var t := "    '(\"" + p.0 + "\" \"" + p.1 + "\")";
    assert "\")\n" == "\")" + "\n";
    assert PairText(p) == t + "\n";
    EndsOnce(t);
  }

  lemma {:induction false} PairLineIsGood(p: Pair)
    requires GoodText(p.0) && GoodText(p.1)
    ensures FileLine(PairLine(p))
  {
    var items := PairLine(p).items;
    PlainReadsAsItIs(p.0);
    PlainReadsAsItIs(p.1);
    PairTextIsLine(p);
    PairLineText(p);
    FourGood(items[0], items[1], items[2], items[3]);
    FileLineOf(items);
  }

  lemma {:induction false} ListHeadLineIsGood(key: string)
    requires IsSymbol(key)
    ensures FileLine(ListHeadLine(key))
  {
    var l := ListHeadLine(key);
    GoodCons(l.items[1], []);
    GoodCons(l.items[0], [l.items[1]] + []);
    assert l.items == [l.items[0]] + ([l.items[1]] + []);
    ListHeadLineText(key);
    NoNewline(key);
    EndsOnce("  (" + key);
  }

  lemma {:induction false} CloseLineIsGood(gap: string)
    requires AllSpace(gap) && '\n' !in gap && '\r' !in gap
    ensures FileLine(Line([Item(gap, Close)], "\n", None))
  {
    var item := Item(gap, Close);
    var t := gap + ")";
    GoodCons(item, []);
    ItemsCons(item, []);
    assert [item] + [] == [item];
    assert t + "" + ("\n" + "") == t + "\n";
    EndsOnce(t);
  }

  lemma {:induction false} EndLinesAreGood()
    ensures FileLine(LIST_END_LINE) && FileLine(END_LINE) && FileLine(BLANK_LINE)
  {
    CloseLineIsGood("  ");
    CloseLineIsGood("");
    assert LineText(BLANK_LINE) == "" + "\n";
    EndsOnce("");
  }

  lemma {:induction false} ClauseLinesAreGood(clauses: seq<Pair>)
    requires GoodClauses(clauses)
    ensures forall l :: l in ClauseLines(clauses) ==> FileLine(l)
  {
    if clauses != [] {
      ClauseLineIsGood(clauses[0].0, clauses[0].1);
      ClauseLinesAreGood(clauses[1..]);
    }
  }

  lemma {:induction false} PairLinesAreGood(pairs: seq<Pair>)
    requires GoodPairs(pairs)
    ensures forall l :: l in PairLines(pairs) ==> FileLine(l)
  {
    if pairs != [] {
      PairLineIsGood(pairs[0]);
      PairLinesAreGood(pairs[1..]);
    }
  }

  lemma {:induction false} SheetLinesAreGood(sheet: Sheet)
    requires GoodSheet(sheet)
    ensures forall l :: l in SheetLines(sheet) ==> FileLine(l)
  {
    HeadLineIsGood(sheet.kind, sheet.name);
    ClauseLinesAreGood(sheet.clauses);
    PairLinesAreGood(sheet.pairs);
    ListHeadLineIsGood(sheet.key);
    EndLinesAreGood();
  }

  // ---- They are the tokens of a nested list ----------------------------------------------

  function ClauseNode(p: Pair): Node {
    Nest(false, [Sym(p.0), Str(p.1)])
  }

  function PairNode(p: Pair): Node {
    Nest(true, [Str(p.0), Str(p.1)])
  }

  function ClauseNodes(clauses: seq<Pair>): seq<Node> {
    if clauses == [] then [] else [ClauseNode(clauses[0])] + ClauseNodes(clauses[1..])
  }

  function PairNodes(pairs: seq<Pair>): seq<Node> {
    if pairs == [] then [] else [PairNode(pairs[0])] + PairNodes(pairs[1..])
  }

  function ListNodes(key: string, pairs: seq<Pair>): seq<Node> {
    if pairs == [] then [] else [Nest(false, [Sym(key)] + PairNodes(pairs))]
  }

  function SheetNode(sheet: Sheet): Node {
    Nest(false, [Sym("define-" + sheet.kind), Sym(sheet.name)] + ClauseNodes(sheet.clauses)
      + ListNodes(sheet.key, sheet.pairs))
  }

  function ItemTokens(items: seq<Item>): seq<Token> {
    if items == [] then [] else [items[0].token] + ItemTokens(items[1..])
  }

  function LineTokens(lines: seq<Line>): seq<Token> {
    if lines == [] then [] else ItemTokens(lines[0].items) + LineTokens(lines[1..])
  }

  lemma {:induction false} EraseConcat(ps: seq<Placed>, qs: seq<Placed>)
    ensures Erase(ps + qs) == Erase(ps) + Erase(qs)
  {
    if ps == [] {
      assert ps + qs == qs;
    } else {
      assert (ps + qs)[1..] == ps[1..] + qs;
      EraseConcat(ps[1..], qs);
    }
  }

  lemma {:induction false} ErasedItems(items: seq<Item>, line: nat)
    ensures Erase(Place(items, line)) == ItemTokens(items)
  {
    if items != [] {
      assert Place(items, line)[1..] == Place(items[1..], line);
      ErasedItems(items[1..], line);
    }
  }

  lemma {:induction false} ErasedLines(lines: seq<Line>, before: nat)
    ensures Erase(PlaceLines(lines, before)) == LineTokens(lines)
    decreases |lines|
  {
    if lines != [] {
      ErasedItems(lines[0].items, before + 1);
      ErasedLines(lines[1..], before + 1);
      EraseConcat(Place(lines[0].items, before + 1), PlaceLines(lines[1..], before + 1));
    }
  }

  lemma {:induction false} LineTokensConcat(a: seq<Line>, b: seq<Line>)
    ensures LineTokens(a + b) == LineTokens(a) + LineTokens(b)
  {
    if a == [] {
      assert a + b == b;
    } else {
      assert (a + b)[1..] == a[1..] + b;
      LineTokensConcat(a[1..], b);
    }
  }

  lemma {:induction false} OneLineTokens(l: Line)
    ensures LineTokens([l]) == ItemTokens(l.items)
  {
    assert [l][1..] == [];
  }

  lemma {:induction false} OneToken(a: Node)
    ensures Tokens([a]) == NodeTokens(a)
  {
    assert [a][1..] == [];
  }

  lemma {:induction false} TwoTokens(a: Node, b: Node)
    ensures Tokens([a, b]) == NodeTokens(a) + NodeTokens(b)
  {
    assert [a, b][1..] == [b];
    OneToken(b);
  }

  lemma {:induction false} ItemTokensCons(item: Item, rest: seq<Item>)
    ensures ItemTokens([item] + rest) == [item.token] + ItemTokens(rest)
  {
    assert ([item] + rest)[1..] == rest;
  }

  lemma {:induction false} TwoItemTokens(a: Item, b: Item)
    ensures ItemTokens([a, b]) == [a.token, b.token]
  {
    ItemTokensCons(a, [b]);
    ItemTokensCons(b, []);
    assert [a] + [b] == [a, b] && [b] + [] == [b];
  }

  lemma {:induction false} FourTokens(a: Item, b: Item, c: Item, d: Item)
    ensures ItemTokens([a, b, c, d]) == [a.token, b.token, c.token, d.token]
  {
    ItemTokensCons(a, [b, c, d]);
    ItemTokensCons(b, [c, d]);
    TwoItemTokens(c, d);
    assert [a] + [b, c, d] == [a, b, c, d] && [b] + [c, d] == [b, c, d];
  }

  lemma {:induction false} ClauseTokens(p: Pair)
    ensures ItemTokens(ClauseLine(p.0, p.1).items) == NodeTokens(ClauseNode(p))
  {
    var items := ClauseLine(p.0, p.1).items;
    FourTokens(items[0], items[1], items[2], items[3]);
    TwoTokens(Sym(p.0), Str(p.1));
  }

  lemma {:induction false} PairTokens(p: Pair)
    ensures ItemTokens(PairLine(p).items) == NodeTokens(PairNode(p))
  {
    var items := PairLine(p).items;
    FourTokens(items[0], items[1], items[2], items[3]);
    TwoTokens(Str(p.0), Str(p.1));
  }

  lemma {:induction false} ClauseLinesTokens(clauses: seq<Pair>)
    ensures LineTokens(ClauseLines(clauses)) == Tokens(ClauseNodes(clauses))
  {
    if clauses != [] {
      ClauseTokens(clauses[0]);
      ClauseLinesTokens(clauses[1..]);
      assert ClauseLines(clauses)[1..] == ClauseLines(clauses[1..])
          && ClauseNodes(clauses)[1..] == ClauseNodes(clauses[1..]);
    }
  }

  lemma {:induction false} PairLinesTokens(pairs: seq<Pair>)
    ensures LineTokens(PairLines(pairs)) == Tokens(PairNodes(pairs))
  {
    if pairs != [] {
      PairTokens(pairs[0]);
      PairLinesTokens(pairs[1..]);
      assert PairLines(pairs)[1..] == PairLines(pairs[1..]) && PairNodes(pairs)[1..] == PairNodes(pairs[1..]);
    }
  }

  lemma {:induction false} ListLinesTokens(key: string, pairs: seq<Pair>)
    ensures LineTokens(ListLines(key, pairs)) == Tokens(ListNodes(key, pairs))
  {
    if pairs != [] {
      var head, entries := [ListHeadLine(key)], PairLines(pairs);
      OneLineTokens(head[0]);
      OneLineTokens(LIST_END_LINE);
      PairLinesTokens(pairs);
      LineTokensConcat(head, entries);
      LineTokensConcat(head + entries, [LIST_END_LINE]);
      OneToken(Sym(key));
      TokensConcat([Sym(key)], PairNodes(pairs));
      OneToken(ListNodes(key, pairs)[0]);
      TwoItemTokens(head[0].items[0], head[0].items[1]);
      assert ItemTokens(head[0].items) == [Open] + [Symbol(key)];
      Reassociate([Open], [Symbol(key)], Tokens(PairNodes(pairs)), [], [Close]);
    }
  }

  lemma {:induction false} Reassociate<T>(a: seq<T>, b: seq<T>, c: seq<T>, d: seq<T>, e: seq<T>)
    ensures a + b + c + d + e == a + (b + c + d) + e
    ensures d == [] ==> a + b + c + e == a + (b + c) + e
  {
  }

  /** The lines of a definition are one nested list printed. */
  lemma {:induction false} SheetLinesTokens(sheet: Sheet)
    ensures LineTokens(SheetLines(sheet)) == NodeTokens(SheetNode(sheet))
  {
    var head, clauses, list := [HeadLine(sheet.kind, sheet.name)], ClauseLines(sheet.clauses),
        ListLines(sheet.key, sheet.pairs);
    var first, second := Sym("define-" + sheet.kind), Sym(sheet.name);
    OneLineTokens(head[0]);
    HeadTokens(sheet.kind, sheet.name);
    ClauseLinesTokens(sheet.clauses);
    ListLinesTokens(sheet.key, sheet.pairs);
    LineTokensConcat(head, clauses);
    LineTokensConcat(head + clauses, list);
    LineTokensConcat(head + clauses + list, [END_LINE, BLANK_LINE]);
    EndTokens();
    TwoTokens(first, second);
    TokensConcat([first, second], ClauseNodes(sheet.clauses));
    TokensConcat([first, second] + ClauseNodes(sheet.clauses), ListNodes(sheet.key, sheet.pairs));
    Reassociate([Open], NodeTokens(first) + NodeTokens(second), LineTokens(clauses), LineTokens(list), [Close]);
  }

  lemma {:induction false} HeadTokens(kind: string, name: string)
    ensures ItemTokens(HeadLine(kind, name).items)
        == [Open] + (NodeTokens(Sym("define-" + kind)) + NodeTokens(Sym(name)))
  {
    var items := HeadLine(kind, name).items;
    TwoItemTokens(items[1], items[2]);
    assert items[1..] == [items[1], items[2]];
  }

  lemma {:induction false} EndTokens()
    ensures LineTokens([END_LINE, BLANK_LINE]) == [Close]
  {
    assert [END_LINE, BLANK_LINE][1..] == [BLANK_LINE];
    OneLineTokens(BLANK_LINE);
  }
}

/**
  * Nested lists and the parser: what is printed is read back, however it is laid out, and
  * whatever is accepted is a printed list of nested lists.
  */
module ScmForest {
  import opened Wrappers
  import opened ScmExpr
  import opened ScmLayout

  /**
    * A nested list, with the way in which it is written: a list may have a quote before it, and a
    * quote by itself is a symbol without characters.
    */
  datatype Node = Sym(text: string) | Tick | Str(raw: string) | Nest(quote: bool, items: seq<Node>)

  function OpenToken(quote: bool): Token {
    if quote then QuoteOpen else Open
  }

  /** The tokens of these nodes, one after the other. */
  function Tokens(nodes: seq<Node>): seq<Token> {
    if nodes == [] then []
    else NodeTokens(nodes[0]) + Tokens(nodes[1..])
  }

  function NodeTokens(n: Node): seq<Token> {
    match n
    case Sym(text) => [Symbol(text)]
    case Tick => [LoneQuote]
    case Str(raw) => [Quoted(raw)]
    case Nest(quote, items) => [OpenToken(quote)] + Tokens(items) + [Close]
  }

  /** What they are read as. */
  function Values(nodes: seq<Node>, numeric: string -> bool): seq<Value> {
    if nodes == [] then [] else [ValueOf(nodes[0], numeric)] + Values(nodes[1..], numeric)
  }

  function ValueOf(n: Node, numeric: string -> bool): Value {
    match n
    case Sym(text) => ReadSymbol(text, numeric)
    case Tick => ReadSymbol("", numeric)
    case Str(raw) => Text(Unescape(raw))
    case Nest(_, items) => Tuple(Values(items, numeric))
  }

  function Erase(ps: seq<Placed>): seq<Token> {
    if ps == [] then [] else [ps[0].token] + Erase(ps[1..])
  }

  lemma {:induction false} ErasedPrefix(ps: seq<Placed>, ts: seq<Token>, us: seq<Token>)
    requires Erase(ps) == ts + us
    ensures |ps| == |ts| + |us| && Erase(ps[..|ts|]) == ts && Erase(ps[|ts|..]) == us
  {
    if ts == [] {
      assert ts + us == us && ps[0..] == ps;
      ErasedLength(ps);
    } else {
      assert (ts + us)[0] == ts[0] && (ts + us)[1..] == ts[1..] + us;
      ErasedPrefix(ps[1..], ts[1..], us);
      assert ps[..|ts|][1..] == ps[1..][..|ts| - 1] && ps[|ts|..] == ps[1..][|ts| - 1..];
    }
  }

  lemma {:induction false} ErasedLength(ps: seq<Placed>)
    ensures |Erase(ps)| == |ps|
  {
    if ps != [] {
      ErasedLength(ps[1..]);
    }
  }

  // ---- What is printed is read back ------------------------------------------------------

  function AddAll(s: State, vs: seq<Value>): State
    decreases |vs|
  {
    if vs == [] then s else AddAll(s.Add(vs[0]), vs[1..])
  }

  lemma {:induction false} AddAllKeeps(s: State, vs: seq<Value>)
    ensures |AddAll(s, vs).stack| == |s.stack| && AddAll(s, vs).openLines == s.openLines
    decreases |vs|
  {
    if vs != [] {
      AddAllKeeps(s.Add(vs[0]), vs[1..]);
    }
  }

  /** Values that are added while a list is open are in that list. */
  lemma {:induction false} AddAllInside(stack: seq<seq<Value>>, top: seq<Value>, openLines: seq<nat>,
                                        yielded: seq<Value>, vs: seq<Value>)
    ensures AddAll(State(stack + [top], openLines, yielded), vs) == State(stack + [top + vs], openLines, yielded)
    decreases |vs|
  {
    if vs == [] {
      assert top + vs == top;
    } else {
      assert (stack + [top])[..|stack|] == stack;
      AddAllInside(stack, top + [vs[0]], openLines, yielded, vs[1..]);
      assert top + [vs[0]] + vs[1..] == top + vs;
    }
  }

  lemma {:induction false} AddAllOutside(openLines: seq<nat>, yielded: seq<Value>, vs: seq<Value>)
    ensures AddAll(State([], openLines, yielded), vs) == State([], openLines, yielded + vs)
    decreases |vs|
  {
    if vs == [] {
      assert yielded + vs == yielded;
    } else {
      AddAllOutside(openLines, yielded + [vs[0]], vs[1..]);
      assert yielded + [vs[0]] + vs[1..] == yielded + vs;
    }
  }

  /** Closing a list with these values in it adds it to what was there before it was opened. */
  lemma {:induction false} OpenAddClose(s: State, line: nat, vs: seq<Value>)
    requires s.Valid()
    ensures var filled := AddAll(s.Open(line), vs);
            filled.Valid() && filled.stack != [] && filled.Close() == s.Add(Tuple(vs))
  {
    AddAllInside(s.stack, [], s.openLines + [line], s.yielded, vs);
    assert [] + vs == vs;
    assert (s.stack + [vs])[..|s.stack|] == s.stack && (s.openLines + [line])[..|s.stack|] == s.openLines;
  }

  /** Outside of any list, there are only lists. */
  predicate Fit(s: State, n: Node) {
    s.stack != [] || n.Nest?
  }

  lemma {:induction false} TakeOne(s: State, p: Placed, numeric: string -> bool)
    requires s.Valid()
    ensures TakeAll(s, [p], numeric) == Take(s, p, numeric)
  {
    assert [p][1..] == [];
  }

  /** From what is in a list, taken while it is open, to the list. */
  lemma {:induction false} NestTaken(s: State, vs: seq<Value>, first: Placed, middle: seq<Placed>, last: Placed,
                                     numeric: string -> bool)
    requires s.Valid() && (first.token.Open? || first.token.QuoteOpen?) && last.token.Close?
    requires TakeAll(s.Open(first.line), middle, numeric) == Scan(AddAll(s.Open(first.line), vs), None)
    ensures TakeAll(s, [first] + middle + [last], numeric) == Scan(s.Add(Tuple(vs)), None)
  {
    OpenAddClose(s, first.line, vs);
    TakeOne(s, first, numeric);
    TakeOne(AddAll(s.Open(first.line), vs), last, numeric);
    TakeConcat(s, [first], middle, numeric);
    TakeConcat(s, [first] + middle, [last], numeric);
  }

  lemma {:induction false} ErasedOne(ps: seq<Placed>, t: Token)
    requires Erase(ps) == [t]
    ensures |ps| == 1 && ps == [ps[0]] && ps[0].token == t
  {
    ErasedLength(ps);
    assert Erase(ps)[0] == ps[0].token;
  }

  lemma {:induction false} ErasedNest(ps: seq<Placed>, open: Token, inner: seq<Token>, close: Token)
    requires Erase(ps) == [open] + inner + [close]
    ensures var k := 1 + |inner|;
            && |ps| == k + 1 && ps == [ps[0]] + ps[1..k] + [ps[k]]
            && ps[0].token == open && Erase(ps[1..k]) == inner && ps[k].token == close
  {
    var k := 1 + |inner|;
    ErasedPrefix(ps, [open] + inner, [close]);
    ErasedPrefix(ps[..k], [open], inner);
    ErasedOne(ps[k..], close);
    ErasedOne(ps[..k][..1], open);
    assert ps[..k][1..] == ps[1..k];
  }

  lemma {:induction false} TakeNode(s: State, n: Node, ps: seq<Placed>, numeric: string -> bool)
    requires s.Valid() && Fit(s, n) && Erase(ps) == NodeTokens(n)
    ensures TakeAll(s, ps, numeric) == Scan(s.Add(ValueOf(n, numeric)), None)
    decreases n
  {
    match n
    case Sym(text) => LeafTaken(s, n, ps, numeric);
    case Tick => LeafTaken(s, n, ps, numeric);
    case Str(raw) => LeafTaken(s, n, ps, numeric);
    case Nest(quote, items) =>
      ErasedNest(ps, OpenToken(quote), Tokens(items), Close);
      var k := 1 + |Tokens(items)|;
      TakeNodes(s.Open(ps[0].line), items, ps[1..k], numeric);
      NestTaken(s, Values(items, numeric), ps[0], ps[1..k], ps[k], numeric);
  }

  lemma {:induction false} LeafTaken(s: State, n: Node, ps: seq<Placed>, numeric: string -> bool)
    requires s.Valid() && Fit(s, n) && !n.Nest? && Erase(ps) == NodeTokens(n)
    ensures TakeAll(s, ps, numeric) == Scan(s.Add(ValueOf(n, numeric)), None)
  {
    ErasedOne(ps, NodeTokens(n)[0]);
    TakeOne(s, ps[0], numeric);
  }

  lemma {:induction false} TakeNodes(s: State, nodes: seq<Node>, ps: seq<Placed>, numeric: string -> bool)
    requires s.Valid() && (forall n :: n in nodes ==> Fit(s, n)) && Erase(ps) == Tokens(nodes)
    ensures TakeAll(s, ps, numeric) == Scan(AddAll(s, Values(nodes, numeric)), None)
    decreases nodes
  {
    if nodes == [] {
      ErasedLength(ps);
    } else {
      var n, k := nodes[0], |NodeTokens(nodes[0])|;
      ErasedPrefix(ps, NodeTokens(n), Tokens(nodes[1..]));
      TakeNode(s, n, ps[..k], numeric);
      var s' := s.Add(ValueOf(n, numeric));
      forall m | m in nodes[1..]
        ensures Fit(s', m)
      {
        assert m in nodes && Fit(s, m);
      }
      TakeNodes(s', nodes[1..], ps[k..], numeric);
      TakeConcat(s, ps[..k], ps[k..], numeric);
      assert ps[..k] + ps[k..] == ps;
      assert Values(nodes, numeric)[0] == ValueOf(n, numeric)
          && Values(nodes, numeric)[1..] == Values(nodes[1..], numeric);
    }
  }

  /**
    * Any nested lists, printed over any lines with any white space and comments between their
    * tokens, are parsed to what they stand for.
    */
  lemma {:induction false} PrintedIsParsed(nodes: seq<Node>, lines: seq<Line>, numeric: string -> bool)
    requires forall n :: n in nodes ==> n.Nest?
    requires forall l :: l in lines ==> GoodLine(l)
    requires Erase(PlaceLines(lines, 0)) == Tokens(nodes)
    ensures Parsed(Texts(lines), numeric) == Outcome(Values(nodes, numeric), None)
  {
    ScanGoodLines(INITIAL, lines, 0, numeric);
    TakeNodes(INITIAL, nodes, PlaceLines(lines, 0), numeric);
    AddAllOutside([], [], Values(nodes, numeric));
    assert [] + Values(nodes, numeric) == Values(nodes, numeric);
  }

  // ---- Whatever is accepted was printed --------------------------------------------------

  lemma {:induction false} TokensConcat(a: seq<Node>, b: seq<Node>)
    ensures Tokens(a + b) == Tokens(a) + Tokens(b)
  {
    if a == [] {
      assert a + b == b;
    } else {
      assert (a + b)[1..] == a[1..] + b;
      TokensConcat(a[1..], b);
    }
  }

  lemma {:induction false} ValuesConcat(a: seq<Node>, b: seq<Node>, numeric: string -> bool)
    ensures Values(a + b, numeric) == Values(a, numeric) + Values(b, numeric)
  {
    if a == [] {
      assert a + b == b;
    } else {
      assert (a + b)[1..] == a[1..] + b;
      ValuesConcat(a[1..], b, numeric);
    }
  }

  /** One more node: its tokens and its value come last. */
  lemma {:induction false} Snoc(a: seq<Node>, n: Node, numeric: string -> bool)
    ensures Tokens(a + [n]) == Tokens(a) + NodeTokens(n)
    ensures Values(a + [n], numeric) == Values(a, numeric) + [ValueOf(n, numeric)]
  {
    TokensConcat(a, [n]);
    ValuesConcat(a, [n], numeric);
    assert [n][1..] == [];
    assert Tokens([n]) == NodeTokens(n) + [];
  }

  /** A list that is open: how it was opened, and what is in it. */
  datatype Frame = Frame(quote: bool, items: seq<Node>)

  /** What was printed so far, if these lists are done and these are open. */
  function Unfinished(done: seq<Node>, frames: seq<Frame>): seq<Token> {
    if frames == [] then Tokens(done)
    else
      var top := |frames| - 1;
      Unfinished(done, frames[..top]) + [OpenToken(frames[top].quote)] + Tokens(frames[top].items)
  }

  ghost predicate Matches(s: State, done: seq<Node>, frames: seq<Frame>, numeric: string -> bool) {
    && s.yielded == Values(done, numeric)
    && (forall n :: n in done ==> n.Nest?)
    && |frames| == |s.stack|
    && (forall i :: 0 <= i < |frames| ==> s.stack[i] == Values(frames[i].items, numeric))
  }

  /** A node goes where its value goes. */
  lemma {:induction false} NodeAdded(s: State, n: Node, done: seq<Node>, frames: seq<Frame>, numeric: string -> bool)
      returns (done': seq<Node>, frames': seq<Frame>)
    requires s.Valid() && Fit(s, n) && Matches(s, done, frames, numeric)
    ensures Matches(s.Add(ValueOf(n, numeric)), done', frames', numeric)
    ensures Unfinished(done', frames') == Unfinished(done, frames) + NodeTokens(n)
  {
    done', frames' := done, frames;
    if frames == [] {
      Snoc(done, n, numeric);
      done' := done + [n];
    } else {
      var top := |frames| - 1;
      Snoc(frames[top].items, n, numeric);
      frames' := frames[..top] + [Frame(frames[top].quote, frames[top].items + [n])];
      UnfinishedSnoc(done, frames[..top], frames[top], n);
      assert frames[..top] + [frames[top]] == frames;
    }
  }

  lemma {:induction false} UnfinishedSnoc(done: seq<Node>, below: seq<Frame>, f: Frame, n: Node)
    requires Tokens(f.items + [n]) == Tokens(f.items) + NodeTokens(n)
    ensures Unfinished(done, below + [Frame(f.quote, f.items + [n])]) == Unfinished(done, below + [f]) + NodeTokens(n)
  {
    var f' := Frame(f.quote, f.items + [n]);
    assert (below + [f])[..|below|] == below && (below + [f'])[..|below|] == below;
    var before := Unfinished(done, below) + [OpenToken(f.quote)];
    assert before + (Tokens(f.items) + NodeTokens(n)) == before + Tokens(f.items) + NodeTokens(n);
  }

  lemma {:induction false} TokenTaken(s: State, p: Placed, done: seq<Node>, frames: seq<Frame>, numeric: string -> bool)
      returns (done': seq<Node>, frames': seq<Frame>)
    requires s.Valid() && Take(s, p, numeric).error.None? && Matches(s, done, frames, numeric)
    ensures Matches(Take(s, p, numeric).state, done', frames', numeric)
    ensures Unfinished(done', frames') == Unfinished(done, frames) + [p.token]
  {
    match p.token
    case Symbol(text) => done', frames' := NodeAdded(s, Sym(text), done, frames, numeric);
    case LoneQuote => done', frames' := NodeAdded(s, Tick, done, frames, numeric);
    case Quoted(raw) => done', frames' := NodeAdded(s, Str(raw), done, frames, numeric);
    case Open => done', frames' := FrameOpened(s, p, false, done, frames, numeric);
    case QuoteOpen => done', frames' := FrameOpened(s, p, true, done, frames, numeric);
    case Close => done', frames' := FrameClosed(s, done, frames, numeric);
  }

  lemma {:induction false} FrameClosed(s: State, done: seq<Node>, frames: seq<Frame>, numeric: string -> bool)
      returns (done': seq<Node>, frames': seq<Frame>)
    requires s.Valid() && s.stack != [] && Matches(s, done, frames, numeric)
    ensures Matches(s.Close(), done', frames', numeric)
    ensures Unfinished(done', frames') == Unfinished(done, frames) + [Close]
  {
    var top := |frames| - 1;
    var below := State(s.stack[..top], s.openLines[..top], s.yielded);
    var n := Nest(frames[top].quote, frames[top].items);
    done', frames' := NodeAdded(below, n, done, frames[..top], numeric);
    Regrouped(Unfinished(done, frames[..top]), [OpenToken(n.quote)], Tokens(n.items), [Close]);
  }

  lemma {:induction false} Regrouped<T>(a: seq<T>, b: seq<T>, c: seq<T>, d: seq<T>)
    ensures a + (b + c + d) == a + b + c + d
  {
  }

  lemma {:induction false} FrameOpened(s: State, p: Placed, quote: bool, done: seq<Node>, frames: seq<Frame>,
                                       numeric: string -> bool)
      returns (done': seq<Node>, frames': seq<Frame>)
    requires s.Valid() && Matches(s, done, frames, numeric)
    ensures Matches(s.Open(p.line), done', frames', numeric)
    ensures Unfinished(done', frames') == Unfinished(done, frames) + [OpenToken(quote)]
  {
    done', frames' := done, frames + [Frame(quote, [])];
    assert frames'[..|frames|] == frames;
    assert Unfinished(done, frames) + [OpenToken(quote)] + [] == Unfinished(done, frames) + [OpenToken(quote)];
  }

  lemma {:induction false} TokensTaken(s: State, ps: seq<Placed>, done: seq<Node>, frames: seq<Frame>,
                                       numeric: string -> bool)
      returns (done': seq<Node>, frames': seq<Frame>)
    requires s.Valid() && TakeAll(s, ps, numeric).error.None? && Matches(s, done, frames, numeric)
    ensures Matches(TakeAll(s, ps, numeric).state, done', frames', numeric)
    ensures Unfinished(done', frames') == Unfinished(done, frames) + Erase(ps)
    decreases |ps|
  {
    if ps == [] {
      done', frames' := done, frames;
      assert Unfinished(done, frames) + [] == Unfinished(done, frames);
    } else {
      var done1, frames1 := TokenTaken(s, ps[0], done, frames, numeric);
      done', frames' := TokensTaken(Take(s, ps[0], numeric).state, ps[1..], done1, frames1, numeric);
      assert Unfinished(done, frames) + [ps[0].token] + Erase(ps[1..])
          == Unfinished(done, frames) + ([ps[0].token] + Erase(ps[1..]));
    }
  }

  /** Lines of tokens are parsed without an error exactly if they are nested lists printed. */
  lemma {:induction false} AcceptsExactlyPrinted(lines: seq<Line>, numeric: string -> bool)
    requires forall l :: l in lines ==> GoodLine(l)
    ensures Parsed(Texts(lines), numeric).error.None?
       <==> exists nodes: seq<Node> ::
              (forall n :: n in nodes ==> n.Nest?) && Tokens(nodes) == Erase(PlaceLines(lines, 0))
  {
    if nodes: seq<Node> :| (forall n :: n in nodes ==> n.Nest?) && Tokens(nodes) == Erase(PlaceLines(lines, 0)) {
      PrintedIsParsed(nodes, lines, numeric);
    }
    if Parsed(Texts(lines), numeric).error.None? {
      ScanGoodLines(INITIAL, lines, 0, numeric);
      var done, frames := TokensTaken(INITIAL, PlaceLines(lines, 0), [], [], numeric);
      assert frames == [] && [] + Erase(PlaceLines(lines, 0)) == Erase(PlaceLines(lines, 0));
      assert Tokens(done) == Erase(PlaceLines(lines, 0));
    }
  }

  // ---- Trees that are read as they are written -------------------------------------------

  /** The tree with the text of its symbols and strings as it is written. */
  function Written(n: Node): Value {
    match n
    case Sym(text) => Text(text)
    case Tick => Text("")
    case Str(raw) => Text(raw)
    case Nest(_, items) => Tuple(AllWritten(items))
  }

  function AllWritten(nodes: seq<Node>): seq<Value> {
    if nodes == [] then [] else [Written(nodes[0])] + AllWritten(nodes[1..])
  }

  /** No symbol is a number, and no string has anything to unescape. */
  predicate Literal(n: Node, numeric: string -> bool) {
    match n
    case Sym(text) => !numeric(text)
    case Tick => !numeric("")
    case Str(raw) => Unescape(raw) == raw
    case Nest(_, items) => AllLiteral(items, numeric)
  }

  predicate AllLiteral(nodes: seq<Node>, numeric: string -> bool) {
    nodes == [] || (Literal(nodes[0], numeric) && AllLiteral(nodes[1..], numeric))
  }

  lemma {:induction false} LiteralIsRead(nodes: seq<Node>, numeric: string -> bool)
    ensures Values(nodes, numeric) == AllWritten(nodes) <==> AllLiteral(nodes, numeric)
    decreases nodes
  {
    if nodes != [] {
      match nodes[0] {
        case Nest(_, items) => LiteralIsRead(items, numeric);
        case _ =>
      }
      LiteralIsRead(nodes[1..], numeric);
      HeadsAndTails(ValueOf(nodes[0], numeric), Values(nodes[1..], numeric), Written(nodes[0]), AllWritten(nodes[1..]));
    }
  }

  lemma {:induction false} HeadsAndTails(a: Value, as_: seq<Value>, b: Value, bs: seq<Value>)
    ensures [a] + as_ == [b] + bs <==> a == b && as_ == bs
  {
    assert ([a] + as_)[0] == a && ([b] + bs)[0] == b && ([a] + as_)[1..] == as_ && ([b] + bs)[1..] == bs;
  }

  /** So a printed tree is parsed back to itself exactly if no symbol is a number and no string has an escape. */
  lemma {:induction false} ParsedBackIffLiteral(nodes: seq<Node>, lines: seq<Line>, numeric: string -> bool)
    requires forall n :: n in nodes ==> n.Nest?
    requires forall l :: l in lines ==> GoodLine(l)
    requires Erase(PlaceLines(lines, 0)) == Tokens(nodes)
    ensures Parsed(Texts(lines), numeric) == Outcome(AllWritten(nodes), None) <==> AllLiteral(nodes, numeric)
  {
    PrintedIsParsed(nodes, lines, numeric);
    LiteralIsRead(nodes, numeric);
  }
}

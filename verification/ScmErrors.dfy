/**
  * What the parser yields and which error it raises for any lines of tokens, also for those that
  * are not complete: where the error is, and on which lines the unclosed lists were opened.
  */
module ScmErrors {
  import opened Wrappers
  import opened ScmExpr
  import opened ScmLayout
  import opened ScmForest

  // ---- Tokens that leave lists open ------------------------------------------------------

  /** A list that is not closed: the token that opened it, the tokens in it, and the nodes that these print. */
  datatype OpenList = OpenList(first: Placed, inside: seq<Placed>, items: seq<Node>)

  /** The tokens before the first open list, and those of the open lists, the outermost first. */
  function AllPlaced(before: seq<Placed>, open: seq<OpenList>): seq<Placed> {
    if open == [] then before
    else
      var top := |open| - 1;
      AllPlaced(before, open[..top]) + [open[top].first] + open[top].inside
  }

  predicate GoodOpen(o: OpenList) {
    (o.first.token.Open? || o.first.token.QuoteOpen?) && Erase(o.inside) == Tokens(o.items)
  }

  /** The tokens are those of complete lists, and then of open ones. */
  ghost predicate Accounts(ps: seq<Placed>, before: seq<Placed>, done: seq<Node>, open: seq<OpenList>) {
    && ps == AllPlaced(before, open) && Erase(before) == Tokens(done)
    && (forall n :: n in done ==> n.Nest?)
    && (forall o :: o in open ==> GoodOpen(o))
  }

  function LinesOf(open: seq<OpenList>): seq<nat> {
    if open == [] then [] else LinesOf(open[..|open| - 1]) + [open[|open| - 1].first.line]
  }

  function StackOf(open: seq<OpenList>, numeric: string -> bool): seq<seq<Value>> {
    if open == [] then [] else StackOf(open[..|open| - 1], numeric) + [Values(open[|open| - 1].items, numeric)]
  }

  function StateOf(done: seq<Node>, open: seq<OpenList>, numeric: string -> bool): State {
    State(StackOf(open, numeric), LinesOf(open), Values(done, numeric))
  }

  lemma {:induction false} StateIsValid(done: seq<Node>, open: seq<OpenList>, numeric: string -> bool)
    ensures |StackOf(open, numeric)| == |LinesOf(open)| == |open|
    ensures StateOf(done, open, numeric).Valid()
    decreases |open|
  {
    if open != [] {
      StateIsValid(done, open[..|open| - 1], numeric);
    }
  }

  lemma {:induction false} ErasedConcat(a: seq<Placed>, b: seq<Placed>)
    ensures Erase(a + b) == Erase(a) + Erase(b)
  {
    if a == [] {
      assert a + b == b;
    } else {
      assert (a + b)[0] == a[0] && (a + b)[1..] == a[1..] + b;
      ErasedConcat(a[1..], b);
    }
  }

  /** The tokens get the parser to the state with these lists. */
  lemma {:induction false} AccountedIsTaken(ps: seq<Placed>, before: seq<Placed>, done: seq<Node>,
                                            open: seq<OpenList>, numeric: string -> bool)
    requires Accounts(ps, before, done, open)
    ensures TakeAll(INITIAL, ps, numeric) == Scan(StateOf(done, open, numeric), None)
    decreases |open|
  {
    if open == [] {
      CompleteIsTaken(ps, done, numeric);
    } else {
      var top := |open| - 1;
      var o, below := open[top], AllPlaced(before, open[..top]);
      BelowAccounted(ps, before, done, open);
      AccountedIsTaken(below, before, done, open[..top], numeric);
      StateIsValid(done, open[..top], numeric);
      OpenTaken(StateOf(done, open[..top], numeric), o, numeric);
      TakeConcat(INITIAL, below, [o.first] + o.inside, numeric);
    }
  }

  lemma {:induction false} CompleteIsTaken(ps: seq<Placed>, done: seq<Node>, numeric: string -> bool)
    requires Erase(ps) == Tokens(done) && forall n :: n in done ==> n.Nest?
    ensures TakeAll(INITIAL, ps, numeric) == Scan(State([], [], Values(done, numeric)), None)
  {
    TakeNodes(INITIAL, done, ps, numeric);
    AddAllOutside([], [], Values(done, numeric));
    assert [] + Values(done, numeric) == Values(done, numeric);
  }

  lemma {:induction false} BelowAccounted(ps: seq<Placed>, before: seq<Placed>, done: seq<Node>, open: seq<OpenList>)
    requires Accounts(ps, before, done, open) && open != []
    ensures var o, below := open[|open| - 1], AllPlaced(before, open[..|open| - 1]);
            GoodOpen(o) && Accounts(below, before, done, open[..|open| - 1]) && ps == below + ([o.first] + o.inside)
  {
    assert open[|open| - 1] in open;
    assert forall b :: b in open[..|open| - 1] ==> b in open;
  }

  lemma {:induction false} OpenTaken(s: State, o: OpenList, numeric: string -> bool)
    requires s.Valid() && GoodOpen(o)
    ensures TakeAll(s, [o.first] + o.inside, numeric)
         == Scan(State(s.stack + [Values(o.items, numeric)], s.openLines + [o.first.line], s.yielded), None)
  {
    TakeOne(s, o.first, numeric);
    TakeConcat(s, [o.first], o.inside, numeric);
    TakeNodes(s.Open(o.first.line), o.items, o.inside, numeric);
    AddAllInside(s.stack, [], s.openLines + [o.first.line], s.yielded, Values(o.items, numeric));
    assert [] + Values(o.items, numeric) == Values(o.items, numeric);
  }

  // ---- One token more --------------------------------------------------------------------

  /** A node that is complete comes into the innermost open list, or behind the complete ones. */
  lemma {:induction false} NodeAccounted(ps: seq<Placed>, before: seq<Placed>, done: seq<Node>, open: seq<OpenList>,
                                         part: seq<Placed>, n: Node)
      returns (before': seq<Placed>, done': seq<Node>, open': seq<OpenList>)
    requires Accounts(ps, before, done, open) && Erase(part) == NodeTokens(n) && (open == [] ==> n.Nest?)
    ensures Accounts(ps + part, before', done', open')
  {
    before', done', open' := before, done, open;
    if open == [] {
      Snoc(done, n, _ => false);
      ErasedConcat(before, part);
      before', done' := before + part, done + [n];
    } else {
      var top := |open| - 1;
      var o := open[top];
      assert GoodOpen(o);
      Snoc(o.items, n, _ => false);
      ErasedConcat(o.inside, part);
      var o' := OpenList(o.first, o.inside + part, o.items + [n]);
      open' := open[..top] + [o'];
      TopReplaced(before, open, o');
      forall b | b in open'
        ensures GoodOpen(b)
      {
        assert b == o' || b in open;
      }
      assert AllPlaced(before, open[..top]) + [o.first] + (o.inside + part) == ps + part;
    }
  }

  lemma {:induction false} TopReplaced(before: seq<Placed>, open: seq<OpenList>, o: OpenList)
    requires open != []
    ensures var top := |open| - 1;
            AllPlaced(before, open[..top] + [o]) == AllPlaced(before, open[..top]) + [o.first] + o.inside
  {
    assert (open[..|open| - 1] + [o])[..|open| - 1] == open[..|open| - 1];
  }

  lemma {:induction false} OpenAccounted(ps: seq<Placed>, before: seq<Placed>, done: seq<Node>, open: seq<OpenList>,
                                         p: Placed)
      returns (open': seq<OpenList>)
    requires Accounts(ps, before, done, open) && (p.token.Open? || p.token.QuoteOpen?)
    ensures Accounts(ps + [p], before, done, open')
  {
    open' := open + [OpenList(p, [], [])];
    assert open'[..|open|] == open;
    assert ps + [p] + [] == ps + [p];
  }

  lemma {:induction false} CloseAccounted(ps: seq<Placed>, before: seq<Placed>, done: seq<Node>, open: seq<OpenList>,
                                          p: Placed)
      returns (before': seq<Placed>, done': seq<Node>, open': seq<OpenList>)
    requires Accounts(ps, before, done, open) && open != [] && p.token.Close?
    ensures Accounts(ps + [p], before', done', open')
  {
    var top := |open| - 1;
    var o, below := open[top], AllPlaced(before, open[..top]);
    var part := [o.first] + o.inside + [p];
    var n := Nest(o.first.token.QuoteOpen?, o.items);
    assert GoodOpen(o);
    ErasedConcat([o.first] + o.inside, [p]);
    ErasedConcat([o.first], o.inside);
    assert [o.first][1..] == [] && [p][1..] == [];
    assert Erase(part) == NodeTokens(n);
    assert forall b :: b in open[..top] ==> b in open;
    before', done', open' := NodeAccounted(below, before, done, open[..top], part, n);
    assert below + part == ps + [p];
  }

  /** Whatever is taken without an error is complete lists, and open ones. */
  lemma {:induction false} TakenIsAccounted(ps: seq<Placed>, numeric: string -> bool)
      returns (before: seq<Placed>, done: seq<Node>, open: seq<OpenList>)
    requires TakeAll(INITIAL, ps, numeric).error.None?
    ensures Accounts(ps, before, done, open)
    decreases |ps|
  {
    if ps == [] {
      before, done, open := [], [], [];
    } else {
      var n := |ps| - 1;
      var p := ps[n];
      TakeConcat(INITIAL, ps[..n], [p], numeric);
      assert ps == ps[..n] + [p];
      before, done, open := TakenIsAccounted(ps[..n], numeric);
      AccountedIsTaken(ps[..n], before, done, open, numeric);
      StateIsValid(done, open, numeric);
      TakeOne(StateOf(done, open, numeric), p, numeric);
      before, done, open := TokenAccounted(ps[..n], before, done, open, p, numeric);
    }
  }

  lemma {:induction false} TokenAccounted(ps: seq<Placed>, before: seq<Placed>, done: seq<Node>, open: seq<OpenList>,
                                          p: Placed, numeric: string -> bool)
      returns (before': seq<Placed>, done': seq<Node>, open': seq<OpenList>)
    requires Accounts(ps, before, done, open) && (open == [] ==> p.token.Open? || p.token.QuoteOpen?)
    ensures Accounts(ps + [p], before', done', open')
  {
    before', done', open' := before, done, open;
    assert [p][1..] == [];
    match p.token
    case Open => open' := OpenAccounted(ps, before, done, open, p);
    case QuoteOpen => open' := OpenAccounted(ps, before, done, open, p);
    case Close => before', done', open' := CloseAccounted(ps, before, done, open, p);
    case LoneQuote => before', done', open' := NodeAccounted(ps, before, done, open, [p], Tick);
    case Symbol(text) => before', done', open' := NodeAccounted(ps, before, done, open, [p], Sym(text));
    case Quoted(raw) => before', done', open' := NodeAccounted(ps, before, done, open, [p], Str(raw));
  }

  // ---- Errors ----------------------------------------------------------------------------

  /** Complete lists, and then a token that cannot be outside of a list. */
  ghost predicate Misplaced(ps: seq<Placed>, k: nat, done: seq<Node>) {
    && k < |ps| && Erase(ps[..k]) == Tokens(done) && (forall n :: n in done ==> n.Nest?)
    && !ps[k].token.Open? && !ps[k].token.QuoteOpen?
  }

  /** The error for a token outside of a list. */
  function ErrorFor(p: Placed): Error {
    match p.token
    case Close => CloseWithoutOpen(p.line)
    case Quoted(_) => StringOutside(p.line)
    case _ => IdentifierOutside(p.line)
  }

  lemma {:induction false} MisplacedFails(ps: seq<Placed>, k: nat, done: seq<Node>, numeric: string -> bool)
    requires Misplaced(ps, k, done)
    ensures TakeAll(INITIAL, ps, numeric)
         == Scan(State([], [], Values(done, numeric)), Some(ErrorFor(ps[k])))
  {
    assert Accounts(ps[..k], ps[..k], done, []);
    AccountedIsTaken(ps[..k], ps[..k], done, [], numeric);
    TakeConcat(INITIAL, ps[..k], ps[k..], numeric);
    assert ps == ps[..k] + ps[k..];
  }

  /** The first token that is not taken. */
  lemma {:induction false} FirstError(ps: seq<Placed>, numeric: string -> bool) returns (k: nat, done: seq<Node>)
    requires TakeAll(INITIAL, ps, numeric).error.Some?
    ensures Misplaced(ps, k, done)
    decreases |ps|
  {
    var n := |ps| - 1;
    var p := ps[n];
    TakeConcat(INITIAL, ps[..n], [p], numeric);
    assert ps == ps[..n] + [p];
    if TakeAll(INITIAL, ps[..n], numeric).error.Some? {
      k, done := FirstError(ps[..n], numeric);
      assert ps[..n][..k] == ps[..k];
    } else {
      var before, open;
      before, done, open := TakenIsAccounted(ps[..n], numeric);
      AccountedIsTaken(ps[..n], before, done, open, numeric);
      StateIsValid(done, open, numeric);
      TakeOne(StateOf(done, open, numeric), p, numeric);
      k := n;
    }
  }

  /**
    * Lines of tokens are complete lists, and perhaps open ones, or complete lists and then a token
    * that cannot be there. The lists are yielded; then that token raises an error with its line, or
    * the end does, with the lines on which the open lists were opened.
    */
  lemma {:induction false} OutcomeIsExact(lines: seq<Line>, numeric: string -> bool)
    requires forall l :: l in lines ==> GoodLine(l)
    ensures var ps, out := PlaceLines(lines, 0), Parsed(Texts(lines), numeric);
            && (forall before, done, open :: Accounts(ps, before, done, open) ==>
                  out == Outcome(Values(done, numeric),
                                 if open == [] then None else Some(UnclosedParens(LinesOf(open), |lines|))))
            && (forall k: nat, done :: Misplaced(ps, k, done) ==>
                  out == Outcome(Values(done, numeric), Some(ErrorFor(ps[k]))))
    ensures var ps := PlaceLines(lines, 0);
            || (exists before, done, open :: Accounts(ps, before, done, open))
            || (exists k: nat, done :: Misplaced(ps, k, done))
  {
    var ps := PlaceLines(lines, 0);
    ScanGoodLines(INITIAL, lines, 0, numeric);
    TextsLength(lines);
    forall before, done, open | Accounts(ps, before, done, open)
      ensures Parsed(Texts(lines), numeric)
           == Outcome(Values(done, numeric),
                      if open == [] then None else Some(UnclosedParens(LinesOf(open), |lines|)))
    {
      AccountedIsTaken(ps, before, done, open, numeric);
      StateIsValid(done, open, numeric);
    }
    forall k: nat, done | Misplaced(ps, k, done)
      ensures Parsed(Texts(lines), numeric) == Outcome(Values(done, numeric), Some(ErrorFor(ps[k])))
    {
      MisplacedFails(ps, k, done, numeric);
    }
    if TakeAll(INITIAL, ps, numeric).error.None? {
      var before, done, open := TakenIsAccounted(ps, numeric);
    } else {
      var k, done := FirstError(ps, numeric);
    }
  }

  lemma {:induction false} TextsLength(lines: seq<Line>)
    ensures |Texts(lines)| == |lines|
  {
    if lines != [] {
      TextsLength(lines[1..]);
    }
  }

  /** Lines are counted from one. */
  lemma {:induction false} LinesAreCounted(lines: seq<Line>, before: nat, i: nat)
    requires i < |lines|
    ensures PlaceLines(lines, before)
         == PlaceLines(lines[..i], before) + Place(lines[i].items, before + i + 1)
            + PlaceLines(lines[i + 1..], before + i + 1)
  {
    var first := Place(lines[0].items, before + 1);
    if i == 0 {
      Regroup([], first, PlaceLines(lines[1..], before + 1), []);
    } else {
      LinesAreCounted(lines[1..], before + 1, i - 1);
      assert lines[1..][..i - 1] == lines[..i][1..] && lines[1..][i..] == lines[i + 1..];
      Regroup(first, PlaceLines(lines[1..][..i - 1], before + 1), Place(lines[i].items, before + i + 1),
              PlaceLines(lines[i + 1..], before + i + 1));
    }
  }

  lemma {:induction false} Regroup<T>(a: seq<T>, b: seq<T>, c: seq<T>, d: seq<T>)
    ensures a + (b + c + d) == a + b + c + d
    ensures b + c == [] + b + c
  {
  }
}

/**
  * Definitions that are written to a .defs file and read back: equal ones come back, except
  * that an optional field with an empty string comes back as None, and that text mode breaks
  * a string with a carriage return in two.
  */
module DefinitionsRoundTrip {
  import opened Wrappers
  import opened ScmExpr
  import opened ScmLayout
  import opened ScmForest
  import opened Definitions
  import opened DefinitionsLayout

  // ---- What comes back -------------------------------------------------------------------

  function Trim(field: Option<string>): Option<string> {
    if field == Some("") then None else field
  }

  function Normalised(d: Def<string>): Def<string> {
    match d
    case EnumDef(deftype, name, module_, cName, typecode, values) =>
      EnumDef(deftype, name, Trim(module_), cName, typecode, values)
    case BoxedDef(_, module_, cName, typecode, copy, release, _) =>
      d.(module_ := Trim(module_), cName := Trim(cName), typecode := Trim(typecode), copy := Trim(copy),
        release := Trim(release))
    case PointerDef(_, module_, cName, typecode, _) =>
      d.(module_ := Trim(module_), cName := Trim(cName), typecode := Trim(typecode))
  }

  /** No field is an empty string that would not be written. */
  predicate NoneEmpty(d: Def<string>) {
    && d.module_ != Some("")
    && (d.EnumDef? || (d.cName != Some("") && d.typecode != Some("")))
    && (d.BoxedDef? ==> d.copy != Some("") && d.release != Some(""))
  }

  predicate GoodField(field: Option<string>) {
    field.Some? ==> GoodText(field.value)
  }

  /** The name is a symbol and no number, and the strings can be written between quotes on a line. */
  predicate Good(d: Def<string>, numeric: string -> bool) {
    && IsSymbol(d.name) && !numeric(d.name)
    && GoodField(d.module_) && GoodField(d.cName) && GoodField(d.typecode)
    && (d.EnumDef? ==> d.deftype == "enum" || d.deftype == "flags")
    && (d.BoxedDef? ==> GoodField(d.copy) && GoodField(d.release))
    && GoodPairs(d.Pairs())
  }

  /** No word that is written by itself is a number. */
  predicate WordsAreNotNumbers(numeric: string -> bool) {
    && !numeric("define-enum") && !numeric("define-flags") && !numeric("define-boxed") && !numeric("define-pointer")
    && !numeric("in-module") && !numeric("c-name") && !numeric("gtype-id") && !numeric("copy-func")
    && !numeric("release-func")
    && !numeric("values") && !numeric("fields")
  }

  // ---- What is written can be read -------------------------------------------------------

  /** The words that are written by themselves are made of small letters and hyphens. */
  predicate IsWord(w: string) {
    w != "" && forall i :: 0 <= i < |w| ==> 'a' <= w[i] <= 'z' || w[i] == '-'
  }

  lemma {:induction false} WordIsSymbol(w: string)
    requires IsWord(w)
    ensures IsSymbol(w)
  {
    SymbolChars(w);
  }

  lemma {:induction false} KeysAreWords()
    ensures IsWord("in-module") && IsWord("c-name") && IsWord("gtype-id") && IsWord("copy-func")
        && IsWord("release-func")
    ensures IsWord("values") && IsWord("fields")
  {
  }

  lemma {:induction false} KindsAreWords()
    ensures IsWord("define-" + "enum") && IsWord("define-" + "flags") && IsWord("define-" + "boxed")
        && IsWord("define-" + "pointer")
  {
  }

  /** A clause that may be written. */
  predicate GoodClause(p: Pair) {
    IsWord(p.0) && GoodText(p.1)
  }

  lemma {:induction false} ClausesAreGood(d: Def<string>, numeric: string -> bool)
    requires Good(d, numeric) && Writable(d)
    ensures forall p :: p in Clauses(d) ==> GoodClause(p)
  {
    KeysAreWords();
  }

  lemma {:induction false} SheetIsGood(d: Def<string>, numeric: string -> bool)
    requires Good(d, numeric) && Writable(d)
    ensures GoodSheet(SheetOf(d))
  {
    KeysAreWords();
    KindsAreWords();
    WordIsSymbol("define-" + Kind(d));
    WordIsSymbol(d.ListKey());
    ClausesAreGood(d, numeric);
    forall p | p in Clauses(d)
      ensures IsSymbol(p.0)
    {
      WordIsSymbol(p.0);
    }
  }

  // ---- What the nested list of a definition is read as -----------------------------------

  function ClauseValue(p: Pair): Value {
    Tuple([Text(p.0), Text(p.1)])
  }

  function ClauseValues(clauses: seq<Pair>): seq<Value> {
    if clauses == [] then [] else [ClauseValue(clauses[0])] + ClauseValues(clauses[1..])
  }

  function ListValues(key: string, pairs: seq<Pair>): seq<Value> {
    if pairs == [] then [] else [Tuple([Text(key)] + ClauseValues(pairs))]
  }

  predicate NoneNumeric(clauses: seq<Pair>, numeric: string -> bool) {
    forall p :: p in clauses ==> !numeric(p.0)
  }

  lemma {:induction false} TwoValues(a: Node, b: Node, numeric: string -> bool)
    ensures Values([a, b], numeric) == [ValueOf(a, numeric), ValueOf(b, numeric)]
  {
    assert [a, b][1..] == [b] && [b][1..] == [];
    assert Values([b], numeric) == [ValueOf(b, numeric)];
  }

  lemma {:induction false} ClauseNodesRead(clauses: seq<Pair>, numeric: string -> bool)
    requires GoodClauses(clauses) && NoneNumeric(clauses, numeric)
    ensures Values(ClauseNodes(clauses), numeric) == ClauseValues(clauses)
  {
    if clauses != [] {
      var p := clauses[0];
      TwoValues(Sym(p.0), Str(p.1), numeric);
      PlainReadsAsItIs(p.1);
      ClauseNodesRead(clauses[1..], numeric);
      assert ClauseNodes(clauses)[1..] == ClauseNodes(clauses[1..]);
    }
  }

  lemma {:induction false} PairNodesRead(pairs: seq<Pair>, numeric: string -> bool)
    requires GoodPairs(pairs)
    ensures Values(PairNodes(pairs), numeric) == ClauseValues(pairs)
  {
    if pairs != [] {
      var p := pairs[0];
      TwoValues(Str(p.0), Str(p.1), numeric);
      PlainReadsAsItIs(p.0);
      PlainReadsAsItIs(p.1);
      PairNodesRead(pairs[1..], numeric);
      assert PairNodes(pairs)[1..] == PairNodes(pairs[1..]);
    }
  }

  lemma {:induction false} OneValue(n: Node, numeric: string -> bool)
    ensures Values([n], numeric) == [ValueOf(n, numeric)]
  {
    assert [n][1..] == [];
  }

  lemma {:induction false} ListNodesRead(key: string, pairs: seq<Pair>, numeric: string -> bool)
    requires GoodPairs(pairs) && !numeric(key)
    ensures Values(ListNodes(key, pairs), numeric) == ListValues(key, pairs)
  {
    if pairs != [] {
      PairNodesRead(pairs, numeric);
      OneValue(Sym(key), numeric);
      ValuesConcat([Sym(key)], PairNodes(pairs), numeric);
      OneValue(ListNodes(key, pairs)[0], numeric);
    }
  }

  lemma {:induction false} SheetNodeRead(sheet: Sheet, numeric: string -> bool)
    requires GoodSheet(sheet) && NoneNumeric(sheet.clauses, numeric)
    requires !numeric(sheet.key) && !numeric(sheet.name) && !numeric("define-" + sheet.kind)
    ensures ValueOf(SheetNode(sheet), numeric)
         == Tuple([Text("define-" + sheet.kind), Text(sheet.name)] + ClauseValues(sheet.clauses)
           + ListValues(sheet.key, sheet.pairs))
  {
    var head := [Sym("define-" + sheet.kind), Sym(sheet.name)];
    TwoValues(head[0], head[1], numeric);
    ClauseNodesRead(sheet.clauses, numeric);
    ListNodesRead(sheet.key, sheet.pairs, numeric);
    ValuesConcat(head, ClauseNodes(sheet.clauses), numeric);
    ValuesConcat(head + ClauseNodes(sheet.clauses), ListNodes(sheet.key, sheet.pairs), numeric);
  }

  // ---- What the constructors make of it --------------------------------------------------

  function FieldOf(field: Option<string>): Option<Value> {
    if field.Some? then Some(Text(field.value)) else None
  }

  function PairsOfStrings(pairs: seq<Pair>): seq<(Value, Value)> {
    if pairs == [] then [] else [(Text(pairs[0].0), Text(pairs[0].1))] + PairsOfStrings(pairs[1..])
  }

  /** The definition with the values that its strings are. */
  function Of(d: Def<string>): Def<Value> {
    match d
    case EnumDef(deftype, name, module_, cName, typecode, values) =>
      EnumDef(deftype, Text(name), FieldOf(module_), FieldOf(cName), FieldOf(typecode), PairsOfStrings(values))
    case BoxedDef(name, module_, cName, typecode, copy, release, fields) =>
      BoxedDef(Text(name), FieldOf(module_), FieldOf(cName), FieldOf(typecode), FieldOf(copy), FieldOf(release),
               PairsOfStrings(fields))
    case PointerDef(name, module_, cName, typecode, fields) =>
      PointerDef(Text(name), FieldOf(module_), FieldOf(cName), FieldOf(typecode), PairsOfStrings(fields))
  }

  lemma {:induction false} PairsOfInjective(a: seq<Pair>, b: seq<Pair>)
    ensures PairsOfStrings(a) == PairsOfStrings(b) <==> a == b
  {
    if a != [] && b != [] {
      var v, w := PairsOfStrings(a), PairsOfStrings(b);
      assert v[0] == (Text(a[0].0), Text(a[0].1)) && w[0] == (Text(b[0].0), Text(b[0].1));
      assert v[1..] == PairsOfStrings(a[1..]) && w[1..] == PairsOfStrings(b[1..]);
      assert a == [a[0]] + a[1..] && b == [b[0]] + b[1..] && v == [v[0]] + v[1..] && w == [w[0]] + w[1..];
      PairsOfInjective(a[1..], b[1..]);
    }
  }

  lemma {:induction false} OfInjective(a: Def<string>, b: Def<string>)
    ensures Of(a) == Of(b) <==> a == b
  {
    PairsOfInjective(a.Pairs(), b.Pairs());
  }

  /** A clause with this key sets a field of this definition. */
  predicate Known(d: Def<Value>, key: string) {
    key != d.ListKey() && d.Sets(key)
  }

  function SetAll(d: Def<Value>, clauses: seq<Pair>): Def<Value>
    decreases |clauses|
  {
    if clauses == [] then d
    else if d.Sets(clauses[0].0) then SetAll(d.Set(clauses[0].0, Text(clauses[0].1)), clauses[1..])
    else d
  }

  predicate AllKnown(d: Def<Value>, clauses: seq<Pair>) {
    forall p :: p in clauses ==> Known(d, p.0)
  }

  predicate SameKind(d: Def<Value>, e: Def<Value>) {
    (d.EnumDef? <==> e.EnumDef?) && (d.BoxedDef? <==> e.BoxedDef?)
  }

  lemma {:induction false} KnownByKind(d: Def<Value>, e: Def<Value>, clauses: seq<Pair>)
    requires SameKind(d, e) && AllKnown(d, clauses)
    ensures AllKnown(e, clauses)
  {
  }

  lemma {:induction false} ReadClauses(d: Def<Value>, clauses: seq<Pair>, rest: seq<Value>)
    requires AllKnown(d, clauses)
    ensures ReadArgs(d, ClauseValues(clauses) + rest) == ReadArgs(SetAll(d, clauses), rest)
    decreases |clauses|
  {
    if clauses == [] {
      assert [] + rest == rest;
    } else {
      var p := clauses[0];
      assert Known(d, p.0);
      var next := d.Set(p.0, Text(p.1));
      ReadClause(d, clauses, rest);
      KnownByKind(d, next, clauses[1..]);
      ReadClauses(next, clauses[1..], rest);
    }
  }

  /** The constructor takes the first clause. */
  lemma {:induction false} ReadClause(d: Def<Value>, clauses: seq<Pair>, rest: seq<Value>)
    requires clauses != [] && Known(d, clauses[0].0)
    ensures ReadArgs(d, ClauseValues(clauses) + rest)
         == ReadArgs(d.Set(clauses[0].0, Text(clauses[0].1)), ClauseValues(clauses[1..]) + rest)
  {
    ReadKnown(d, clauses[0]);
    FirstClause(clauses, rest);
    ReadFirst(d, ClauseValues(clauses) + rest);
  }

  lemma {:induction false} ReadKnown(d: Def<Value>, p: Pair)
    requires Known(d, p.0)
    ensures ReadArg(d, ClauseValue(p)) == Some(d.Set(p.0, Text(p.1)))
  {
  }

  lemma {:induction false} FirstClause(clauses: seq<Pair>, rest: seq<Value>)
    requires clauses != []
    ensures var all := ClauseValues(clauses) + rest;
            all != [] && all[0] == ClauseValue(clauses[0]) && all[1..] == ClauseValues(clauses[1..]) + rest
  {
  }

  lemma {:induction false} ReadFirst(d: Def<Value>, args: seq<Value>)
    requires args != [] && ReadArg(d, args[0]).Some?
    ensures ReadArgs(d, args) == ReadArgs(ReadArg(d, args[0]).value, args[1..])
  {
  }

  lemma {:induction false} PairValuesRead(pairs: seq<Pair>)
    ensures PairsOf(ClauseValues(pairs)) == Some(PairsOfStrings(pairs))
  {
    if pairs != [] {
      assert ClauseValues(pairs)[1..] == ClauseValues(pairs[1..]);
      PairValuesRead(pairs[1..]);
    }
  }

  lemma {:induction false} ReadList(d: Def<Value>, pairs: seq<Pair>)
    requires d.Pairs() == []
    ensures ReadArgs(d, ListValues(d.ListKey(), pairs)) == Some(d.WithPairs(PairsOfStrings(pairs)))
  {
    if pairs != [] {
      var arg := ListValues(d.ListKey(), pairs)[0];
      assert arg.items[1..] == ClauseValues(pairs);
      PairValuesRead(pairs);
      assert [] + PairsOfStrings(pairs) == PairsOfStrings(pairs);
      assert ReadArg(d, arg) == Some(d.WithPairs(PairsOfStrings(pairs)));
      assert [arg][1..] == [];
    }
  }

  lemma {:induction false} SetAllConcat(d: Def<Value>, a: seq<Pair>, b: seq<Pair>)
    requires AllKnown(d, a)
    ensures SetAll(d, a + b) == SetAll(SetAll(d, a), b) && SameKind(SetAll(d, a), d)
    decreases |a|
  {
    if a == [] {
      assert a + b == b;
    } else {
      assert (a + b)[1..] == a[1..] + b;
      assert Known(d, a[0].0);
      var next := d.Set(a[0].0, Text(a[0].1));
      KnownByKind(d, next, a[1..]);
      SetAllConcat(next, a[1..], b);
    }
  }

  lemma {:induction false} SetOne(d: Def<Value>, key: string, value: string)
    requires Known(d, key)
    ensures SetAll(d, [(key, value)]) == d.Set(key, Text(value))
  {
    assert [(key, value)][1..] == [];
  }

  lemma {:induction false} SetOptional(d: Def<Value>, key: string, field: Option<string>)
    requires Known(d, key)
    ensures AllKnown(d, Optional(key, field))
    ensures SetAll(d, Optional(key, field)) == if Trim(field).Some? then d.Set(key, Text(field.value)) else d
  {
    if Trim(field).Some? {
      SetOne(d, key, field.value);
    }
  }

  /** The definition before its constructor looks at the clauses. */
  function BlankOf(d: Def<string>): Def<Value> {
    match d
    case EnumDef(deftype, name, _, _, _, _) => EnumDef(deftype, Text(name), None, None, None, [])
    case BoxedDef(name, _, _, _, _, _, _) => BoxedDef(Text(name), None, None, None, None, None, [])
    case PointerDef(name, _, _, _, _) => PointerDef(Text(name), None, None, None, [])
  }

  /** Its clauses set what it had, but for the list. */
  ghost predicate Restored(d: Def<string>)
    requires Writable(d)
  {
    && AllKnown(BlankOf(d), Clauses(d))
    && SetAll(BlankOf(d), Clauses(d)) == Of(Normalised(d)).WithPairs([])
  }

  lemma {:induction false} EnumRestored(d: Def<string>)
    requires d.EnumDef? && Writable(d)
    ensures Restored(d)
  {
    var blank, first := BlankOf(d), Optional("in-module", d.module_);
    var c, g := ("c-name", d.cName.value), ("gtype-id", d.typecode.value);
    SetOptional(blank, "in-module", d.module_);
    var d1 := SetAll(blank, first);
    SetAllConcat(blank, first, [c]);
    SetOne(d1, c.0, c.1);
    SetAllConcat(blank, first + [c], [g]);
    SetOne(SetAll(d1, [c]), g.0, g.1);
  }

  /** The three clauses that boxed types and pointer types begin with. */
  lemma {:induction false} FirstThreeSet(d: Def<string>)
    requires !d.EnumDef?
    ensures var some := Optional("in-module", d.module_) + Optional("c-name", d.cName)
        + Optional("gtype-id", d.typecode);
            && AllKnown(BlankOf(d), some)
            && SetAll(BlankOf(d), some)
                 == BlankOf(d).(module_ := FieldOf(Trim(d.module_))).(cName := FieldOf(Trim(d.cName)))
                              .(typecode := FieldOf(Trim(d.typecode)))
  {
    var blank := BlankOf(d);
    var a, b, c := Optional("in-module", d.module_), Optional("c-name", d.cName), Optional("gtype-id", d.typecode);
    SetOptional(blank, "in-module", d.module_);
    var d1 := SetAll(blank, a);
    SetAllConcat(blank, a, b);
    SetOptional(d1, "c-name", d.cName);
    KnownByKind(d1, blank, b);
    var d2 := SetAll(d1, b);
    SetAllConcat(blank, a + b, c);
    SetAllConcat(d1, b, []);
    SetOptional(d2, "gtype-id", d.typecode);
    KnownByKind(d2, blank, c);
  }

  lemma {:induction false} PointerRestored(d: Def<string>)
    requires d.PointerDef?
    ensures Restored(d)
  {
    FirstThreeSet(d);
  }

  lemma {:induction false} BoxedRestored(d: Def<string>)
    requires d.BoxedDef?
    ensures Restored(d)
  {
    var blank := BlankOf(d);
    var some := Optional("in-module", d.module_) + Optional("c-name", d.cName) + Optional("gtype-id", d.typecode);
    var e, f := Optional("copy-func", d.copy), Optional("release-func", d.release);
    FirstThreeSet(d);
    var d1 := SetAll(blank, some);
    SetAllConcat(blank, some, e);
    SetOptional(d1, "copy-func", d.copy);
    KnownByKind(d1, blank, e);
    var d2 := SetAll(d1, e);
    SetAllConcat(blank, some + e, f);
    SetOptional(d2, "release-func", d.release);
    KnownByKind(d2, blank, f);
  }

  // ---- The command that a definition is handled by ---------------------------------------

  lemma {:induction false} TranslateAt(s: string)
    ensures |Translate(s)| == |s| && forall i :: 0 <= i < |s| ==> Translate(s)[i] == TranslateChar(s[i])
  {
    if s != "" {
      TranslateAt(s[1..]);
    }
  }

  lemma {:induction false} Translated(s: string, t: string)
    requires |s| == |t| && forall i :: 0 <= i < |s| ==> t[i] == TranslateChar(s[i])
    ensures Translate(s) == t
  {
    TranslateAt(s);
  }

  lemma {:induction false} CommandOf(d: Def<string>)
    requires d.EnumDef? ==> d.deftype == "enum" || d.deftype == "flags"
    ensures Blank(Translate("define-" + Kind(d)), Text(d.name)) == Some(BlankOf(d))
  {
    match d
    case EnumDef(deftype, _, _, _, _, _) =>
      if deftype == "enum" {
        Translated("define-" + "enum", "define_enum");
      } else {
        Translated("define-" + "flags", "define_flags");
      }
    case BoxedDef(_, _, _, _, _, _, _) => Translated("define-" + "boxed", "define_boxed");
    case PointerDef(_, _, _, _, _) => Translated("define-" + "pointer", "define_pointer");
  }

  // ---- The round trip --------------------------------------------------------------------

  function ValueOfDef(d: Def<string>): Value
    requires Writable(d)
  {
    Tuple([Text("define-" + Kind(d)), Text(d.name)] + ClauseValues(Clauses(d)) + ListValues(d.ListKey(), d.Pairs()))
  }

  /** The constructor gets the definition back from the arguments. */
  lemma {:induction false} ArgsGiveBack(d: Def<string>)
    requires Writable(d)
    ensures ReadArgs(BlankOf(d), ClauseValues(Clauses(d)) + ListValues(d.ListKey(), d.Pairs()))
        == Some(Of(Normalised(d)))
  {
    if d.EnumDef? {
      EnumRestored(d);
    } else if d.BoxedDef? {
      BoxedRestored(d);
    } else {
      PointerRestored(d);
    }
    ReadClauses(BlankOf(d), Clauses(d), ListValues(d.ListKey(), d.Pairs()));
    ReadList(Of(Normalised(d)).WithPairs([]), d.Pairs());
  }

  lemma {:induction false} HandleTuple(command: string, name: string, args: seq<Value>, blank: Def<Value>)
    requires Blank(Translate(command), Text(name)) == Some(blank)
    ensures Handle(Tuple([Text(command), Text(name)] + args)) == ReadArgs(blank, args)
  {
    var items := [Text(command), Text(name)] + args;
    assert items[2..] == args;
  }

  /** Handling the tuple of a definition gives the definition. */
  lemma {:induction false} HandleGivesBack(d: Def<string>, numeric: string -> bool)
    requires Good(d, numeric) && Writable(d)
    ensures Handle(ValueOfDef(d)) == Some(Of(Normalised(d)))
  {
    var args := ClauseValues(Clauses(d)) + ListValues(d.ListKey(), d.Pairs());
    ArgsGiveBack(d);
    CommandOf(d);
    HandleTuple("define-" + Kind(d), d.name, args, BlankOf(d));
    assert [Text("define-" + Kind(d)), Text(d.name)] + args
        == [Text("define-" + Kind(d)), Text(d.name)] + ClauseValues(Clauses(d)) + ListValues(d.ListKey(), d.Pairs());
  }

  /** All lines of these definitions, all that is written for them, and their nested lists. */
  function DefsLines(defs: seq<Def<string>>): seq<Line>
    requires forall d :: d in defs ==> Writable(d)
  {
    if defs == [] then [] else SheetLines(SheetOf(defs[0])) + DefsLines(defs[1..])
  }

  function DefsWritten(defs: seq<Def<string>>): seq<string>
    requires forall d :: d in defs ==> Writable(d)
  {
    if defs == [] then [] else SheetWritten(SheetOf(defs[0])) + DefsWritten(defs[1..])
  }

  function DefsNodes(defs: seq<Def<string>>): seq<Node>
    requires forall d :: d in defs ==> Writable(d)
  {
    if defs == [] then [] else [SheetNode(SheetOf(defs[0]))] + DefsNodes(defs[1..])
  }

  function DefsValues(defs: seq<Def<string>>): seq<Value>
    requires forall d :: d in defs ==> Writable(d)
  {
    if defs == [] then [] else [ValueOfDef(defs[0])] + DefsValues(defs[1..])
  }

  predicate AllGood(defs: seq<Def<string>>, numeric: string -> bool) {
    forall d :: d in defs ==> Good(d, numeric) && Writable(d)
  }

  lemma {:induction false} DefsText(defs: seq<Def<string>>)
    requires forall d :: d in defs ==> Writable(d)
    ensures Joined(Texts(DefsLines(defs))) == Joined(DefsWritten(defs))
  {
    if defs != [] {
      var sheet := SheetOf(defs[0]);
      SheetLinesText(sheet);
      DefsText(defs[1..]);
      TextsConcat(SheetLines(sheet), DefsLines(defs[1..]));
      JoinedConcat(Texts(SheetLines(sheet)), Texts(DefsLines(defs[1..])));
      JoinedConcat(SheetWritten(sheet), DefsWritten(defs[1..]));
    }
  }

  lemma {:induction false} DefsLinesAreGood(defs: seq<Def<string>>, numeric: string -> bool)
    requires AllGood(defs, numeric)
    ensures forall l :: l in DefsLines(defs) ==> FileLine(l)
  {
    if defs != [] {
      SheetIsGood(defs[0], numeric);
      SheetLinesAreGood(SheetOf(defs[0]));
      DefsLinesAreGood(defs[1..], numeric);
    }
  }

  lemma {:induction false} DefsTokens(defs: seq<Def<string>>)
    requires forall d :: d in defs ==> Writable(d)
    ensures LineTokens(DefsLines(defs)) == Tokens(DefsNodes(defs))
    ensures forall n :: n in DefsNodes(defs) ==> n.Nest?
  {
    if defs != [] {
      SheetLinesTokens(SheetOf(defs[0]));
      DefsTokens(defs[1..]);
      LineTokensConcat(SheetLines(SheetOf(defs[0])), DefsLines(defs[1..]));
      assert DefsNodes(defs)[1..] == DefsNodes(defs[1..]);
    }
  }

  lemma {:induction false} NoneNumericConcat(a: seq<Pair>, b: seq<Pair>, numeric: string -> bool)
    requires NoneNumeric(a, numeric) && NoneNumeric(b, numeric)
    ensures NoneNumeric(a + b, numeric)
  {
  }

  lemma {:induction false} NoClauseIsNumeric(d: Def<string>, numeric: string -> bool)
    requires Writable(d) && WordsAreNotNumbers(numeric)
    ensures NoneNumeric(Clauses(d), numeric)
  {
    var a := Optional("in-module", d.module_);
    if d.EnumDef? {
      var c, g := [("c-name", d.cName.value)], [("gtype-id", d.typecode.value)];
      NoneNumericConcat(a, c, numeric);
      NoneNumericConcat(a + c, g, numeric);
    } else {
      var b, c := Optional("c-name", d.cName), Optional("gtype-id", d.typecode);
      NoneNumericConcat(a, b, numeric);
      NoneNumericConcat(a + b, c, numeric);
      if d.BoxedDef? {
        var e, f := Optional("copy-func", d.copy), Optional("release-func", d.release);
        NoneNumericConcat(a + b + c, e, numeric);
        NoneNumericConcat(a + b + c + e, f, numeric);
      }
    }
  }

  lemma {:induction false} NoKindIsNumeric(d: Def<string>, numeric: string -> bool)
    requires Good(d, numeric) && WordsAreNotNumbers(numeric)
    ensures !numeric("define-" + Kind(d)) && !numeric(d.ListKey())
  {
    assert "define-" + "enum" == "define-enum" && "define-" + "flags" == "define-flags";
    assert "define-" + "boxed" == "define-boxed" && "define-" + "pointer" == "define-pointer";
  }

  lemma {:induction false} DefRead(d: Def<string>, numeric: string -> bool)
    requires Good(d, numeric) && Writable(d) && WordsAreNotNumbers(numeric)
    ensures ValueOf(SheetNode(SheetOf(d)), numeric) == ValueOfDef(d)
  {
    SheetIsGood(d, numeric);
    NoClauseIsNumeric(d, numeric);
    NoKindIsNumeric(d, numeric);
    SheetNodeRead(SheetOf(d), numeric);
  }

  lemma {:induction false} DefsRead(defs: seq<Def<string>>, numeric: string -> bool)
    requires AllGood(defs, numeric) && WordsAreNotNumbers(numeric)
    ensures Values(DefsNodes(defs), numeric) == DefsValues(defs)
  {
    if defs != [] {
      DefRead(defs[0], numeric);
      DefsRead(defs[1..], numeric);
      assert DefsNodes(defs)[1..] == DefsNodes(defs[1..]);
    }
  }

  lemma {:induction false} FileLineTexts(lines: seq<Line>)
    requires forall l :: l in lines ==> FileLine(l)
    ensures forall t :: t in Texts(lines) ==> OneLine(t)
  {
    if lines != [] {
      assert FileLine(lines[0]);
      FileLineTexts(lines[1..]);
    }
  }

  /**
    * Written definitions are parsed into their tuples, with no error, from an iterator over lines
    * that end with newlines.
    */
  lemma {:induction false} WrittenIsParsed(defs: seq<Def<string>>, numeric: string -> bool)
    requires AllGood(defs, numeric) && WordsAreNotNumbers(numeric)
    ensures Parsed(SplitLines(Joined(DefsWritten(defs))), numeric) == Outcome(DefsValues(defs), None)
  {
    var lines := DefsLines(defs);
    DefsText(defs);
    DefsLinesAreGood(defs, numeric);
    FileLineTexts(lines);
    SplitJoined(Texts(lines));
    DefsTokens(defs);
    ErasedLines(lines, 0);
    PrintedIsParsed(DefsNodes(defs), lines, numeric);
    DefsRead(defs, numeric);
  }

  // ---- Carriage returns ------------------------------------------------------------------

  predicate FieldHasReturn(field: Option<string>) {
    field.Some? && '\r' in field.value
  }

  predicate PairsHaveReturn(pairs: seq<Pair>) {
    exists p :: p in pairs && ('\r' in p.0 || '\r' in p.1)
  }

  /** Some string of the definition has a carriage return. */
  predicate HasReturn(d: Def<string>) {
    || FieldHasReturn(d.module_) || FieldHasReturn(d.cName) || FieldHasReturn(d.typecode)
    || (d.BoxedDef? && (FieldHasReturn(d.copy) || FieldHasReturn(d.release)))
    || PairsHaveReturn(d.Pairs())
  }

  predicate ClausesHaveReturn(clauses: seq<Pair>) {
    exists p :: p in clauses && '\r' in p.1
  }

  lemma {:induction false} ClausesReturnConcat(a: seq<Pair>, b: seq<Pair>)
    ensures ClausesHaveReturn(a + b) <==> ClausesHaveReturn(a) || ClausesHaveReturn(b)
  {
    assert forall p :: p in a + b <==> p in a || p in b;
  }

  lemma {:induction false} OptionalReturn(key: string, field: Option<string>)
    ensures ClausesHaveReturn(Optional(key, field)) <==> FieldHasReturn(field)
  {
    if FieldHasReturn(field) {
      assert (key, field.value) in Optional(key, field);
    }
  }

  lemma {:induction false} OneReturn(key: string, value: string)
    ensures ClausesHaveReturn([(key, value)]) <==> '\r' in value
  {
    assert (key, value) in [(key, value)];
  }

  lemma {:induction false} ClausesReturn(d: Def<string>)
    requires Writable(d)
    ensures HasReturn(d) <==> ClausesHaveReturn(Clauses(d)) || PairsHaveReturn(d.Pairs())
  {
    var a := Optional("in-module", d.module_);
    OptionalReturn("in-module", d.module_);
    if d.EnumDef? {
      var c, g := ("c-name", d.cName.value), ("gtype-id", d.typecode.value);
      OneReturn(c.0, c.1);
      OneReturn(g.0, g.1);
      ClausesReturnConcat(a, [c]);
      ClausesReturnConcat(a + [c], [g]);
    } else {
      var b, c := Optional("c-name", d.cName), Optional("gtype-id", d.typecode);
      OptionalReturn("c-name", d.cName);
      OptionalReturn("gtype-id", d.typecode);
      ClausesReturnConcat(a, b);
      ClausesReturnConcat(a + b, c);
      if d.BoxedDef? {
        var e, f := Optional("copy-func", d.copy), Optional("release-func", d.release);
        OptionalReturn("copy-func", d.copy);
        OptionalReturn("release-func", d.release);
        ClausesReturnConcat(a + b + c, e);
        ClausesReturnConcat(a + b + c + e, f);
      }
    }
  }

  /** A string is in the text of a file exactly if one of the pieces has it. */
  lemma {:induction false} ReturnInJoined(pieces: seq<string>)
    ensures '\r' in Joined(pieces) <==> exists t :: t in pieces && '\r' in t
  {
    if pieces != [] {
      ReturnInJoined(pieces[1..]);
      assert forall t :: t in pieces <==> t == pieces[0] || t in pieces[1..];
    }
  }

  lemma {:induction false} SymbolHasNoReturn(s: string)
    requires IsSymbol(s)
    ensures '\r' !in s
  {
    NoSpaceInSymbol(s);
  }

  lemma {:induction false} ClausesWrittenReturn(clauses: seq<Pair>)
    requires GoodClauses(clauses)
    ensures (exists t :: t in ClausesWritten(clauses) && '\r' in t) <==> ClausesHaveReturn(clauses)
  {
    if clauses != [] {
      var p, rest := clauses[0], clauses[1..];
      SymbolHasNoReturn(p.0);
      ClauseReturn(p);
      ClausesWrittenReturn(rest);
      ClausesReturnConcat([p], rest);
      OneReturn(p.0, p.1);
      assert [p] + rest == clauses && p == (p.0, p.1);
      assert forall t :: t in ClausesWritten(clauses) <==> t == ClauseText(p.0, p.1) || t in ClausesWritten(rest);
    }
  }

  lemma {:induction false} ClauseReturn(p: Pair)
    requires '\r' !in p.0
    ensures '\r' in ClauseText(p.0, p.1) <==> '\r' in p.1
  {
  }

  lemma {:induction false} PairReturn(p: Pair)
    ensures '\r' in PairText(p) <==> '\r' in p.0 || '\r' in p.1
  {
  }

  lemma {:induction false} PairsWrittenReturn(pairs: seq<Pair>)
    ensures (exists t :: t in PairsWritten(pairs) && '\r' in t) <==> PairsHaveReturn(pairs)
  {
    if pairs != [] {
      var p, rest := pairs[0], pairs[1..];
      PairReturn(p);
      PairsWrittenReturn(rest);
      assert forall q :: q in pairs <==> q == p || q in rest;
      assert forall t :: t in PairsWritten(pairs) <==> t == PairText(p) || t in PairsWritten(rest);
    }
  }

  lemma {:induction false} SheetWrittenReturn(sheet: Sheet)
    requires GoodSheet(sheet)
    ensures (exists t :: t in SheetWritten(sheet) && '\r' in t)
        <==> ClausesHaveReturn(sheet.clauses) || PairsHaveReturn(sheet.pairs)
  {
    SymbolHasNoReturn("define-" + sheet.kind);
    SymbolHasNoReturn(sheet.name);
    SymbolHasNoReturn(sheet.key);
    KindHasNoReturn(sheet.kind);
    HeadHasNoReturn(sheet.kind, sheet.name);
    ClausesWrittenReturn(sheet.clauses);
    PairsWrittenReturn(sheet.pairs);
    ListWrittenReturn(sheet.key, sheet.pairs);
    var list := ListWritten(sheet.key, sheet.pairs);
    assert forall t :: t in SheetWritten(sheet) <==>
      t == HeadText(sheet.kind, sheet.name) || t in ClausesWritten(sheet.clauses) || t in list || t == SHEET_END;
  }

  lemma {:induction false} KindHasNoReturn(kind: string)
    requires '\r' !in "define-" + kind
    ensures '\r' !in kind
  {
    assert forall i :: 0 <= i < |kind| ==> ("define-" + kind)[7 + i] == kind[i];
  }

  lemma {:induction false} HeadHasNoReturn(kind: string, name: string)
    requires '\r' !in kind && '\r' !in name
    ensures '\r' !in HeadText(kind, name)
  {
  }

  lemma {:induction false} ListWrittenReturn(key: string, pairs: seq<Pair>)
    requires '\r' !in key
    ensures (exists t :: t in ListWritten(key, pairs) && '\r' in t)
        <==> (exists t :: t in PairsWritten(pairs) && '\r' in t)
  {
    if pairs != [] {
      assert forall t ::
          t in ListWritten(key, pairs) <==> t == ListHeadText(key) || t in PairsWritten(pairs) || t == LIST_END;
    }
  }

  lemma {:induction false} DefsWrittenReturn(defs: seq<Def<string>>, numeric: string -> bool)
    requires AllGood(defs, numeric)
    ensures '\r' in Joined(DefsWritten(defs)) <==> exists d :: d in defs && HasReturn(d)
  {
    if defs != [] {
      var d, rest := defs[0], defs[1..];
      SheetIsGood(d, numeric);
      SheetWrittenReturn(SheetOf(d));
      ClausesReturn(d);
      DefsWrittenReturn(rest, numeric);
      JoinedConcat(SheetWritten(SheetOf(d)), DefsWritten(rest));
      ReturnInJoined(SheetWritten(SheetOf(d)));
      assert forall e :: e in defs <==> e == d || e in rest;
    }
  }

  /**
    * A file of written definitions, opened in text mode, is parsed into their tuples with no error
    * exactly if there is no carriage return in their strings.
    */
  lemma {:induction false} FileIsParsed(defs: seq<Def<string>>, numeric: string -> bool)
    requires AllGood(defs, numeric) && WordsAreNotNumbers(numeric)
    ensures var out := Parsed(FileLines(Joined(DefsWritten(defs))), numeric);
            if exists d :: d in defs && HasReturn(d) then out.error.Some? else out == Outcome(DefsValues(defs), None)
  {
    var text := Joined(DefsWritten(defs));
    DefsWrittenReturn(defs, numeric);
    if '\r' in text {
      FileFails(defs, numeric);
    } else {
      UniversalKeeps(text, "");
      assert text + "" == text;
      WrittenIsParsed(defs, numeric);
    }
  }

  lemma {:induction false} FileFails(defs: seq<Def<string>>, numeric: string -> bool)
    requires AllGood(defs, numeric) && exists d :: d in defs && HasReturn(d)
    ensures Parsed(FileLines(Joined(DefsWritten(defs))), numeric).error.Some?
  {
    DefsText(defs);
    DefsLinesAreGood(defs, numeric);
    DefsWrittenReturn(defs, numeric);
    CutLinesFail(INITIAL, DefsLines(defs), 0, numeric);
  }

  // ---- What comes back, in the end -------------------------------------------------------

  function HandleAll(vs: seq<Value>): seq<Option<Def<Value>>> {
    if vs == [] then [] else [Handle(vs[0])] + HandleAll(vs[1..])
  }

  function AllNormalised(defs: seq<Def<string>>): seq<Option<Def<Value>>> {
    if defs == [] then [] else [Some(Of(Normalised(defs[0])))] + AllNormalised(defs[1..])
  }

  /** Parsing the lines goes well, and gives these definitions, in their order. */
  predicate ReadsAs(lines: seq<string>, defs: seq<Option<Def<Value>>>, numeric: string -> bool) {
    var out := Parsed(lines, numeric);
    out.error.None? && HandleAll(out.yielded) == defs
  }

  /**
    * Writing definitions and reading them gives them back, with an empty optional field turned
    * into None: always by lines that end with newlines, and from a file in text mode exactly if
    * there is no carriage return.
    */
  lemma {:induction false} WrittenIsReadBack(defs: seq<Def<string>>, numeric: string -> bool)
    requires AllGood(defs, numeric) && WordsAreNotNumbers(numeric)
    ensures ReadsAs(SplitLines(Joined(DefsWritten(defs))), AllNormalised(defs), numeric)
    ensures ReadsAs(FileLines(Joined(DefsWritten(defs))), AllNormalised(defs), numeric)
        <==> !exists d :: d in defs && HasReturn(d)
  {
    WrittenIsParsed(defs, numeric);
    FileIsParsed(defs, numeric);
    AllHandled(defs, numeric);
  }

  lemma {:induction false} AllHandled(defs: seq<Def<string>>, numeric: string -> bool)
    requires AllGood(defs, numeric)
    ensures HandleAll(DefsValues(defs)) == AllNormalised(defs)
  {
    if defs != [] {
      HandleGivesBack(defs[0], numeric);
      AllHandled(defs[1..], numeric);
      assert DefsValues(defs)[1..] == DefsValues(defs[1..]);
    }
  }

  /**
    * So a definition is rebuilt as it was exactly if no optional field is an empty string and, from
    * a file in text mode, no string has a carriage return.
    */
  lemma {:induction false} RebuiltIffNoneEmpty(d: Def<string>, numeric: string -> bool)
    requires Good(d, numeric) && Writable(d) && WordsAreNotNumbers(numeric)
    ensures var text := Joined(SheetWritten(SheetOf(d)));
            && (ReadsAs(SplitLines(text), [Some(Of(d))], numeric) <==> NoneEmpty(d))
            && (ReadsAs(FileLines(text), [Some(Of(d))], numeric) <==> NoneEmpty(d) && !HasReturn(d))
  {
    RebuiltFromLines(d, numeric);
    RebuiltFromFile(d, numeric);
  }

  lemma {:induction false} RebuiltFromLines(d: Def<string>, numeric: string -> bool)
    requires Good(d, numeric) && Writable(d) && WordsAreNotNumbers(numeric)
    ensures ReadsAs(SplitLines(Joined(SheetWritten(SheetOf(d)))), [Some(Of(d))], numeric) <==> NoneEmpty(d)
  {
    OneDef(d);
    WrittenIsReadBack([d], numeric);
    NormalisedIff(d);
    OfInjective(Normalised(d), d);
  }

  lemma {:induction false} RebuiltFromFile(d: Def<string>, numeric: string -> bool)
    requires Good(d, numeric) && Writable(d) && WordsAreNotNumbers(numeric)
    ensures ReadsAs(FileLines(Joined(SheetWritten(SheetOf(d)))), [Some(Of(d))], numeric)
       <==> NoneEmpty(d) && !HasReturn(d)
  {
    OneDef(d);
    AllHandled([d], numeric);
    FileIsParsed([d], numeric);
    OneHasReturn(d);
    NormalisedIff(d);
    OfInjective(Normalised(d), d);
  }

  lemma {:induction false} OneHasReturn(d: Def<string>)
    ensures (exists e :: e in [d] && HasReturn(e)) <==> HasReturn(d)
  {
    assert d in [d];
  }

  lemma {:induction false} OneDef(d: Def<string>)
    requires Writable(d)
    ensures DefsWritten([d]) == SheetWritten(SheetOf(d)) && AllNormalised([d]) == [Some(Of(Normalised(d)))]
  {
    assert [d][1..] == [];
    assert SheetWritten(SheetOf(d)) + [] == SheetWritten(SheetOf(d));
  }

  lemma {:induction false} NormalisedIff(d: Def<string>)
    ensures Normalised(d) == d <==> NoneEmpty(d)
  {
  }
}

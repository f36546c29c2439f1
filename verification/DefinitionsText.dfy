/**
  * The .defs format, with its words: what is written for each kind of definition, and what the
  * constructors make of each argument.
  */
module DefinitionsText {
  import opened Wrappers
  import opened ScmExpr
  import opened ScmLayout
  import opened Definitions
  import opened DefinitionsLayout
  import opened DefinitionsRoundTrip

  // ---- What is written -------------------------------------------------------------------

  /** A clause, for a field that is neither None nor empty. */
  function Clause(key: string, field: Option<string>): string {
    if field.Some? && field.value != "" then "  (" + key + " \"" + field.value + "\")\n" else ""
  }

  function Rows(pairs: seq<Pair>): string {
    if pairs == [] then "" else "    '(\"" + pairs[0].0 + "\" \"" + pairs[0].1 + "\")\n" + Rows(pairs[1..])
  }

  /** The list, if it has entries. */
  function ListText(key: string, pairs: seq<Pair>): string {
    if pairs == [] then "" else "  (" + key + "\n" + Rows(pairs) + "  )\n"
  }

  lemma {:induction false} JoinedOne(t: string)
    ensures Joined([t]) == t
  {
    assert [t][1..] == [] && t + "" == t;
  }

  lemma {:induction false} ClausesConcat(a: seq<Pair>, b: seq<Pair>)
    ensures Joined(ClausesWritten(a + b)) == Joined(ClausesWritten(a)) + Joined(ClausesWritten(b))
  {
    ClausesWrittenConcat(a, b);
    JoinedConcat(ClausesWritten(a), ClausesWritten(b));
  }

  lemma {:induction false} OptionalText(key: string, field: Option<string>)
    ensures Joined(ClausesWritten(Optional(key, field))) == Clause(key, field)
  {
    if field.Some? && field.value != "" {
      OneClause(key, field.value);
    }
  }

  lemma {:induction false} OneClause(key: string, value: string)
    ensures Joined(ClausesWritten([(key, value)])) == "  (" + key + " \"" + value + "\")\n"
  {
    assert [(key, value)][1..] == [];
    assert ClausesWritten([(key, value)]) == [ClauseText(key, value)];
    JoinedOne(ClauseText(key, value));
  }

  lemma {:induction false} RowsText(pairs: seq<Pair>)
    ensures Joined(PairsWritten(pairs)) == Rows(pairs)
  {
    if pairs != [] {
      assert PairsWritten(pairs)[1..] == PairsWritten(pairs[1..]);
      RowsText(pairs[1..]);
    }
  }

  lemma {:induction false} ListIsText(key: string, pairs: seq<Pair>)
    ensures Joined(ListWritten(key, pairs)) == ListText(key, pairs)
  {
    if pairs != [] {
      RowsText(pairs);
      JoinedConcat([ListHeadText(key)], PairsWritten(pairs));
      JoinedConcat([ListHeadText(key)] + PairsWritten(pairs), [LIST_END]);
      JoinedOne(ListHeadText(key));
      JoinedOne(LIST_END);
    }
  }

  /** All of it, from its parts. */
  lemma {:induction false} SheetText(sheet: Sheet)
    ensures Joined(SheetWritten(sheet))
         == "(define-" + sheet.kind + " " + sheet.name + "\n" + Joined(ClausesWritten(sheet.clauses))
            + ListText(sheet.key, sheet.pairs) + ")\n\n"
  {
    var head, clauses, list := [HeadText(sheet.kind, sheet.name)], ClausesWritten(sheet.clauses),
        ListWritten(sheet.key, sheet.pairs);
    JoinedOne(head[0]);
    JoinedOne(SHEET_END);
    ListIsText(sheet.key, sheet.pairs);
    JoinedConcat(head, clauses);
    JoinedConcat(head + clauses, list);
    JoinedConcat(head + clauses + list, [SHEET_END]);
  }

  lemma {:induction false} EnumIsWritten(d: Def<string>)
    requires d.EnumDef? && Writable(d)
    ensures Joined(SheetWritten(SheetOf(d)))
         == "(define-" + d.deftype + " " + d.name + "\n"
            + (Clause("in-module", d.module_)
               + ("  (" + "c-name" + " \"" + d.cName.value + "\")\n")
               + ("  (" + "gtype-id" + " \"" + d.typecode.value + "\")\n"))
            + ListText("values", d.values) + ")\n\n"
  {
    SheetText(SheetOf(d));
    EnumClauses(d.module_, d.cName.value, d.typecode.value);
  }

  lemma {:induction false} EnumClauses(m: Option<string>, c: string, g: string)
    ensures Joined(ClausesWritten(Optional("in-module", m) + [("c-name", c)] + [("gtype-id", g)]))
         == Clause("in-module", m) + ("  (" + "c-name" + " \"" + c + "\")\n")
            + ("  (" + "gtype-id" + " \"" + g + "\")\n")
  {
    OptionalText("in-module", m);
    OneClause("c-name", c);
    OneClause("gtype-id", g);
    JoinThree(Optional("in-module", m), [("c-name", c)], [("gtype-id", g)]);
  }

  lemma {:induction false} JoinThree(a: seq<Pair>, b: seq<Pair>, c: seq<Pair>)
    ensures Joined(ClausesWritten(a + b + c))
         == Joined(ClausesWritten(a)) + Joined(ClausesWritten(b)) + Joined(ClausesWritten(c))
  {
    ClausesConcat(a, b);
    ClausesConcat(a + b, c);
  }

  lemma {:induction false} ThreeClauses(m: Option<string>, c: Option<string>, g: Option<string>)
    ensures Joined(ClausesWritten(Optional("in-module", m) + Optional("c-name", c) + Optional("gtype-id", g)))
         == Clause("in-module", m) + Clause("c-name", c) + Clause("gtype-id", g)
  {
    OptionalText("in-module", m);
    OptionalText("c-name", c);
    OptionalText("gtype-id", g);
    JoinThree(Optional("in-module", m), Optional("c-name", c), Optional("gtype-id", g));
  }

  lemma {:induction false} BoxedIsWritten(d: Def<string>)
    requires d.BoxedDef?
    ensures Joined(SheetWritten(SheetOf(d)))
         == "(define-" + "boxed" + " " + d.name + "\n"
            + (Clause("in-module", d.module_) + Clause("c-name", d.cName) + Clause("gtype-id", d.typecode)
               + Clause("copy-func", d.copy) + Clause("release-func", d.release))
            + ListText("fields", d.fields) + ")\n\n"
  {
    var three := Optional("in-module", d.module_) + Optional("c-name", d.cName) + Optional("gtype-id", d.typecode);
    SheetText(SheetOf(d));
    ThreeClauses(d.module_, d.cName, d.typecode);
    OptionalText("copy-func", d.copy);
    OptionalText("release-func", d.release);
    JoinThree(three, Optional("copy-func", d.copy), Optional("release-func", d.release));
  }

  lemma {:induction false} PointerIsWritten(d: Def<string>)
    requires d.PointerDef?
    ensures Joined(SheetWritten(SheetOf(d)))
         == "(define-" + "pointer" + " " + d.name + "\n"
            + (Clause("in-module", d.module_) + Clause("c-name", d.cName) + Clause("gtype-id", d.typecode))
            + ListText("fields", d.fields) + ")\n\n"
  {
    SheetText(SheetOf(d));
    ThreeClauses(d.module_, d.cName, d.typecode);
  }

  // ---- What is read ----------------------------------------------------------------------

  /** A clause with one of these words sets its field to the first value, whatever that is, and no other field. */
  lemma {:induction false} ClauseSetsField(d: Def<Value>, v: Value, more: seq<Value>)
    ensures ReadArg(d, Tuple([Text("in-module"), v] + more)) == Some(d.(module_ := Some(v)))
    ensures ReadArg(d, Tuple([Text("c-name"), v] + more)) == Some(d.(cName := Some(v)))
    ensures ReadArg(d, Tuple([Text("gtype-id"), v] + more)) == Some(d.(typecode := Some(v)))
    ensures ReadArg(d, Tuple([Text("copy-func"), v] + more)) == Some(if d.BoxedDef? then d.(copy := Some(v)) else d)
    ensures ReadArg(d, Tuple([Text("release-func"), v] + more))
         == Some(if d.BoxedDef? then d.(release := Some(v)) else d)
  {
  }

  /** The list of values of an enum or flags type, and that of fields of the other types, is appended. */
  lemma {:induction false} ListIsAppended(d: Def<Value>, v: Value, more: seq<Value>)
    ensures ReadArg(d, Tuple([Text("values"), v] + more))
         == if !d.EnumDef? then Some(d)
            else if PairsOf([v] + more).None? then None
            else Some(d.(values := d.values + PairsOf([v] + more).value))
    ensures ReadArg(d, Tuple([Text("fields"), v] + more))
         == if d.EnumDef? then Some(d)
            else if PairsOf([v] + more).None? then None
            else Some(d.(fields := d.fields + PairsOf([v] + more).value))
  {
    assert ([Text("values"), v] + more)[1..] == [v] + more;
    assert ([Text("fields"), v] + more)[1..] == [v] + more;
  }

  /** Everything else is ignored: other words, lists of less than two, and what is no list. */
  lemma {:induction false} OthersAreIgnored(d: Def<Value>, arg: Value)
    requires arg.Tuple? && |arg.items| >= 2 && arg.items[0].Text? ==>
               arg.items[0].s !in {"in-module", "c-name", "gtype-id", "copy-func", "release-func", "values", "fields"}
    ensures ReadArg(d, arg) == Some(d)
  {
  }

  /** An entry is a list of two or more, or a string of two or more, of which the first two count. */
  lemma {:induction false} EntriesArePairs(vs: seq<Value>, i: nat)
    requires PairsOf(vs).Some? && i < |vs|
    ensures |PairsOf(vs).value| == |vs|
    ensures var p := PairsOf(vs).value[i];
            match vs[i]
            case Tuple(items) => |items| >= 2 && p == (items[0], items[1])
            case Text(s) => |s| >= 2 && p == (Text(s[..1]), Text(s[1..2]))
            case Number(_) => false
  {
    if i > 0 {
      EntriesArePairs(vs[1..], i - 1);
    } else {
      if |vs| > 1 {
        EntriesArePairs(vs[1..], 0);
      }
      assert vs[0].Text? ==> vs[0].s[..1] == [vs[0].s[0]] && vs[0].s[1..2] == [vs[0].s[1]];
    }
  }

  /** An exception is raised exactly if an entry is none of these. */
  lemma {:induction false} EntriesFail(vs: seq<Value>)
    ensures PairsOf(vs).None? <==>
              exists v :: v in vs && (v.Number? || (v.Tuple? && |v.items| < 2) || (v.Text? && |v.s| < 2))
  {
    if vs != [] {
      EntriesFail(vs[1..]);
      assert forall v :: v in vs <==> v == vs[0] || v in vs[1..];
    }
  }

  /** The first word of a list says what is constructed, with the second element as the name: enum types, ... */
  lemma {:induction false} EnumIsConstructed(name: Value, args: seq<Value>)
    ensures Handle(Tuple([Text("define-enum"), name] + args))
         == ReadArgs(EnumDef("enum", name, None, None, None, []), args)
  {
    EnumIsSpelled();
    EnumIsBlank(name);
    CommandConstructs("define-enum", "define_enum", name, EnumDef("enum", name, None, None, None, []), args);
  }

  lemma {:induction false} EnumIsSpelled()
    ensures Translate("define-enum") == "define_enum"
  {
    Translated("define-enum", "define_enum");
  }

  lemma {:induction false} EnumIsBlank(name: Value)
    ensures Blank("define_enum", name) == Some(EnumDef("enum", name, None, None, None, []))
  {
  }

  /** ... flags types, ... */
  lemma {:induction false} FlagsIsConstructed(name: Value, args: seq<Value>)
    ensures Handle(Tuple([Text("define-flags"), name] + args))
         == ReadArgs(EnumDef("flags", name, None, None, None, []), args)
  {
    FlagsIsSpelled();
    FlagsIsBlank(name);
    CommandConstructs("define-flags", "define_flags", name, EnumDef("flags", name, None, None, None, []), args);
  }

  lemma {:induction false} FlagsIsSpelled()
    ensures Translate("define-flags") == "define_flags"
  {
    Translated("define-flags", "define_flags");
  }

  lemma {:induction false} FlagsIsBlank(name: Value)
    ensures Blank("define_flags", name) == Some(EnumDef("flags", name, None, None, None, []))
  {
  }

  /** ... boxed types ... */
  lemma {:induction false} BoxedIsConstructed(name: Value, args: seq<Value>)
    ensures Handle(Tuple([Text("define-boxed"), name] + args))
         == ReadArgs(BoxedDef(name, None, None, None, None, None, []), args)
  {
    BoxedIsSpelled();
    BoxedIsBlank(name);
    CommandConstructs("define-boxed", "define_boxed", name, BoxedDef(name, None, None, None, None, None, []), args);
  }

  lemma {:induction false} BoxedIsSpelled()
    ensures Translate("define-boxed") == "define_boxed"
  {
    Translated("define-boxed", "define_boxed");
  }

  lemma {:induction false} BoxedIsBlank(name: Value)
    ensures Blank("define_boxed", name) == Some(BoxedDef(name, None, None, None, None, None, []))
  {
  }

  /** ... and pointer types. */
  lemma {:induction false} PointerIsConstructed(name: Value, args: seq<Value>)
    ensures Handle(Tuple([Text("define-pointer"), name] + args))
         == ReadArgs(PointerDef(name, None, None, None, []), args)
  {
    PointerIsSpelled();
    PointerIsBlank(name);
    CommandConstructs("define-pointer", "define_pointer", name, PointerDef(name, None, None, None, []), args);
  }

  lemma {:induction false} PointerIsSpelled()
    ensures Translate("define-pointer") == "define_pointer"
  {
    Translated("define-pointer", "define_pointer");
  }

  lemma {:induction false} PointerIsBlank(name: Value)
    ensures Blank("define_pointer", name) == Some(PointerDef(name, None, None, None, []))
  {
  }

  lemma {:induction false} CommandConstructs(command: string, word: string, name: Value, blank: Def<Value>,
                                             args: seq<Value>)
    requires Translate(command) == word && Blank(word, name) == Some(blank)
    ensures Handle(Tuple([Text(command), name] + args)) == ReadArgs(blank, args)
  {
    var items := [Text(command), name] + args;
    assert items[0] == Text(command) && items[1] == name && items[2..] == args;
  }
}

/**
  * The definitions of enums, flags, boxed types and pointer types in a .defs file: reading them
  * from S-expressions, and writing them.
  */
module Definitions {
  import opened Wrappers
  import opened ScmExpr

  type Pair = (string, string)

  // ---- The definitions -------------------------------------------------------------------

  /** A definition. Its fields are strings when it is written; constructors take whatever values they are given. */
  datatype Def<T> =
    | EnumDef(deftype: string, name: T, module_: Option<T>, cName: Option<T>, typecode: Option<T>, values: seq<(T, T)>)
    | BoxedDef(name: T, module_: Option<T>, cName: Option<T>, typecode: Option<T>, copy: Option<T>, release: Option<T>,
               fields: seq<(T, T)>)
    | PointerDef(name: T, module_: Option<T>, cName: Option<T>, typecode: Option<T>, fields: seq<(T, T)>)
  {
    /** The name that the list comes under in the file. */
    function ListKey(): string {
      if EnumDef? then "values" else "fields"
    }

    function Pairs(): seq<(T, T)> {
      if EnumDef? then values else fields
    }

    function WithPairs(ps: seq<(T, T)>): Def<T> {
      if EnumDef? then this.(values := ps) else this.(fields := ps)
    }

    /** A clause with this key sets a field of a definition of this kind. */
    predicate Sets(key: string) {
      || key == "in-module" || key == "c-name" || key == "gtype-id"
      || (BoxedDef? && (key == "copy-func" || key == "release-func"))
    }

    function Set(key: string, value: T): Def<T>
      requires Sets(key)
    {
      if key == "in-module" then this.(module_ := Some(value))
      else if key == "c-name" then this.(cName := Some(value))
      else if key == "gtype-id" then this.(typecode := Some(value))
      else if key == "copy-func" then this.(copy := Some(value))
      else this.(release := Some(value))
    }
  }

  // ---- Reading ---------------------------------------------------------------------------

  /** get_valid_scheme_definitions() */
  predicate IsClause(arg: Value) {
    arg.Tuple? && |arg.items| >= 2
  }

  /** varg[0] and varg[1], of a tuple or of a string; there is nothing if that raises an exception. */
  function PairOf(v: Value): Option<(Value, Value)> {
    if v.Tuple? && |v.items| >= 2 then Some((v.items[0], v.items[1]))
    else if v.Text? && |v.s| >= 2 then Some((Text([v.s[0]]), Text([v.s[1]])))
    else None
  }

  function PairsOf(vs: seq<Value>): Option<seq<(Value, Value)>> {
    if vs == [] then Some([])
    else
      var first, rest := PairOf(vs[0]), PairsOf(vs[1..]);
      if first.Some? && rest.Some? then Some([first.value] + rest.value) else None
  }

  /** One argument of a constructor; there is no result if it raises an exception. */
  function ReadArg(d: Def<Value>, arg: Value): Option<Def<Value>> {
    if !IsClause(arg) || !arg.items[0].Text? then Some(d)
    else
      var key := arg.items[0].s;
      if key == d.ListKey() then
        var more := PairsOf(arg.items[1..]);
        if more.Some? then Some(d.WithPairs(d.Pairs() + more.value)) else None
      else if d.Sets(key) then Some(d.Set(key, arg.items[1]))
      else Some(d)
  }

  function ReadArgs(d: Def<Value>, args: seq<Value>): Option<Def<Value>>
    decreases |args|
  {
    if args == [] then Some(d)
    else
      var first := ReadArg(d, args[0]);
      if first.Some? then ReadArgs(first.value, args[1..]) else None
  }

  /** A definition with nothing but a name, before a constructor looks at its arguments. */
  function Blank(command: string, name: Value): Option<Def<Value>> {
    if command == "define_enum" then Some(EnumDef("enum", name, None, None, None, []))
    else if command == "define_flags" then Some(EnumDef("flags", name, None, None, None, []))
    else if command == "define_boxed" then Some(BoxedDef(name, None, None, None, None, None, []))
    else if command == "define_pointer" then Some(PointerDef(name, None, None, None, []))
    else None
  }

  /** The table trans: letters, digits and underscores stay, other Latin-1 characters become underscores. */
  function TranslateChar(c: char): char {
    if 'a' <= c <= 'z' || 'A' <= c <= 'Z' || '0' <= c <= '9' || c == '_' || c as int >= 256 then c else '_'
  }

  function Translate(s: string): string {
    if s == "" then "" else [TranslateChar(s[0])] + Translate(s[1..])
  }

  /** Parser.handle(), for the four kinds of definitions. */
  function Handle(tup: Value): Option<Def<Value>> {
    if tup.Tuple? && |tup.items| >= 2 && tup.items[0].Text? then
      var blank := Blank(Translate(tup.items[0].s), tup.items[1]);
      if blank.Some? then ReadArgs(blank.value, tup.items[2..]) else None
    else None
  }

  /** The loop of the constructors over the arguments that are clauses. */
  method Construct(blank: Def<Value>, args: seq<Value>) returns (d: Option<Def<Value>>)
    ensures d == ReadArgs(blank, args)
  {
    var self := blank;
    for i := 0 to |args|
      invariant ReadArgs(blank, args) == ReadArgs(self, args[i..])
    {
      var arg := args[i];
      assert args[i..][1..] == args[i + 1..];
      if IsClause(arg) && arg.items[0].Text? {
        var key := arg.items[0].s;
        if key == self.ListKey() {
          var entries := ReadPairs(self.Pairs(), arg.items[1..]);
          if entries.None? { return None; }
          self := self.WithPairs(entries.value);
        } else if self.Sets(key) {
          self := self.Set(key, arg.items[1]);
        }
      }
    }
    d := Some(self);
  }

  /** The loop over the entries of a list. */
  method ReadPairs(before: seq<(Value, Value)>, vs: seq<Value>) returns (r: Option<seq<(Value, Value)>>)
    ensures r == if PairsOf(vs).Some? then Some(before + PairsOf(vs).value) else None
  {
    var entries := before;
    for i := 0 to |vs|
      invariant PairsOf(vs).Some? <==> PairsOf(vs[i..]).Some?
      invariant PairsOf(vs).Some? ==> before + PairsOf(vs).value == entries + PairsOf(vs[i..]).value
    {
      assert vs[i..][1..] == vs[i + 1..];
      var entry := PairOf(vs[i]);
      if entry.None? { return None; }
      entries := entries + [entry.value];
    }
    assert entries + [] == entries;
    r := Some(entries);
  }

  // ---- Writing ---------------------------------------------------------------------------

  /** What there is to write: a kind and a name, clauses, and perhaps a list. */
  datatype Sheet = Sheet(kind: string, name: string, clauses: seq<Pair>, key: string, pairs: seq<Pair>)

  function Optional(key: string, field: Option<string>): seq<Pair> {
    if field.Some? && field.value != "" then [(key, field.value)] else []
  }

  /** An enum is written with its C name and type code in any case; without them that raises an exception. */
  predicate Writable(d: Def<string>) {
    d.EnumDef? ==> d.cName.Some? && d.typecode.Some?
  }

  function Clauses(d: Def<string>): seq<Pair>
    requires Writable(d)
  {
    match d
    case EnumDef(_, _, module_, cName, typecode, _) =>
      Optional("in-module", module_) + [("c-name", cName.value)] + [("gtype-id", typecode.value)]
    case BoxedDef(_, module_, cName, typecode, copy, release, _) =>
      Optional("in-module", module_) + Optional("c-name", cName) + Optional("gtype-id", typecode)
        + Optional("copy-func", copy) + Optional("release-func", release)
    case PointerDef(_, module_, cName, typecode, _) =>
      Optional("in-module", module_) + Optional("c-name", cName) + Optional("gtype-id", typecode)
  }

  function Kind(d: Def<string>): string {
    match d
    case EnumDef(deftype, _, _, _, _, _) => deftype
    case BoxedDef(_, _, _, _, _, _, _) => "boxed"
    case PointerDef(_, _, _, _, _) => "pointer"
  }

  function SheetOf(d: Def<string>): Sheet
    requires Writable(d)
  {
    Sheet(Kind(d), d.name, Clauses(d), d.ListKey(), d.Pairs())
  }

  // The strings that are written, one fp.write() each.

  function HeadText(kind: string, name: string): string {
    "(define-" + kind + " " + name + "\n"
  }

  function ClauseText(key: string, value: string): string {
    "  (" + key + " \"" + value + "\")\n"
  }

  function ListHeadText(key: string): string {
    "  (" + key + "\n"
  }

  function PairText(p: Pair): string {
    "    '(\"" + p.0 + "\" \"" + p.1 + "\")\n"
  }

  const LIST_END := "  )\n"
  const SHEET_END := ")\n\n"

  function ClausesWritten(clauses: seq<Pair>): seq<string> {
    if clauses == [] then [] else [ClauseText(clauses[0].0, clauses[0].1)] + ClausesWritten(clauses[1..])
  }

  function PairsWritten(pairs: seq<Pair>): seq<string> {
    if pairs == [] then [] else [PairText(pairs[0])] + PairsWritten(pairs[1..])
  }

  function ListWritten(key: string, pairs: seq<Pair>): seq<string> {
    if pairs == [] then [] else [ListHeadText(key)] + PairsWritten(pairs) + [LIST_END]
  }

  function SheetWritten(sheet: Sheet): seq<string> {
    [HeadText(sheet.kind, sheet.name)] + ClausesWritten(sheet.clauses) + ListWritten(sheet.key, sheet.pairs)
      + [SHEET_END]
  }

  lemma {:induction false} ClausesWrittenConcat(a: seq<Pair>, b: seq<Pair>)
    ensures ClausesWritten(a + b) == ClausesWritten(a) + ClausesWritten(b)
  {
    if a == [] {
      assert a + b == b;
    } else {
      assert (a + b)[1..] == a[1..] + b;
      ClausesWrittenConcat(a[1..], b);
    }
  }

  lemma {:induction false} RegroupList(before: seq<string>, head: string, body: seq<string>, end: string)
    ensures before + [head] + body + [end] == before + ([head] + body + [end])
  {
  }

  /** The file that is written to, with all that was. */
  class Output {
    var written: seq<string>

    constructor ()
      ensures written == []
    {
      written := [];
    }

    method Write(s: string)
      modifies this
      ensures written == old(written) + [s]
    {
      written := written + [s];
    }

    /** What was written is this, and then these clauses. */
    ghost predicate Holds(start: seq<string>, clauses: seq<Pair>)
      reads this
    {
      written == start + ClausesWritten(clauses)
    }

    /** A clause, written for a field that is neither None nor empty. */
    method WriteOptional(key: string, field: Option<string>, ghost start: seq<string>, ghost clauses: seq<Pair>)
      requires Holds(start, clauses)
      modifies this
      ensures Holds(start, clauses + Optional(key, field))
    {
      if field.Some? && field.value != "" {
        WriteClause(key, field.value, start, clauses);
      } else {
        assert clauses + [] == clauses;
      }
    }

    method WriteClause(key: string, value: string, ghost start: seq<string>, ghost clauses: seq<Pair>)
      requires Holds(start, clauses)
      modifies this
      ensures Holds(start, clauses + [(key, value)])
    {
      Write(ClauseText(key, value));
      ClausesWrittenConcat(clauses, [(key, value)]);
      assert [(key, value)][1..] == [];
    }

    /** The list of values or fields, if there are any. */
    method WriteList(key: string, pairs: seq<Pair>)
      modifies this
      ensures written == old(written) + ListWritten(key, pairs)
    {
      if pairs != [] {
        ghost var before := written;
        Write(ListHeadText(key));
        WritePairs(pairs);
        Write(LIST_END);
        RegroupList(before, ListHeadText(key), PairsWritten(pairs), LIST_END);
      }
    }

    method WritePairs(pairs: seq<Pair>)
      modifies this
      ensures written == old(written) + PairsWritten(pairs)
    {
      for i := 0 to |pairs|
        invariant written + PairsWritten(pairs[i..]) == old(written) + PairsWritten(pairs)
      {
        assert pairs[i..][1..] == pairs[i + 1..];
        Write(PairText(pairs[i]));
      }
    }

    /** What comes after the clauses, in each kind of definition. */
    method WriteRest(sheet: Sheet, ghost before: seq<string>)
      requires Holds(before + [HeadText(sheet.kind, sheet.name)], sheet.clauses)
      modifies this
      ensures written == before + SheetWritten(sheet)
    {
      WriteList(sheet.key, sheet.pairs);
      Write(SHEET_END);
      RegroupSheet(before, [HeadText(sheet.kind, sheet.name)], ClausesWritten(sheet.clauses),
        ListWritten(sheet.key, sheet.pairs), [SHEET_END]);
    }

    /** write_defs() of EnumDef and FlagsDef */
    method WriteEnum(d: Def<string>)
      requires d.EnumDef? && Writable(d)
      modifies this
      ensures written == old(written) + SheetWritten(SheetOf(d))
    {
      Write(HeadText(d.deftype, d.name));
      ghost var start, done: seq<Pair> := written, Optional("in-module", d.module_);
      Begin([], done);
      WriteOptional("in-module", d.module_, start, []);
      WriteClause("c-name", d.cName.value, start, done);
      done := done + [("c-name", d.cName.value)];
      WriteClause("gtype-id", d.typecode.value, start, done);
      WriteRest(SheetOf(d), old(written));
    }

    /** write_defs() of BoxedDef */
    method WriteBoxed(d: Def<string>)
      requires d.BoxedDef?
      modifies this
      ensures written == old(written) + SheetWritten(SheetOf(d))
    {
      Write(HeadText("boxed", d.name));
      ghost var start, done: seq<Pair> := written, Optional("in-module", d.module_);
      Begin([], done);
      WriteOptional("in-module", d.module_, start, []);
      WriteOptional("c-name", d.cName, start, done);
      done := done + Optional("c-name", d.cName);
      WriteOptional("gtype-id", d.typecode, start, done);
      done := done + Optional("gtype-id", d.typecode);
      WriteOptional("copy-func", d.copy, start, done);
      done := done + Optional("copy-func", d.copy);
      WriteOptional("release-func", d.release, start, done);
      WriteRest(SheetOf(d), old(written));
    }

    /** write_defs() of PointerDef */
    method WritePointer(d: Def<string>)
      requires d.PointerDef?
      modifies this
      ensures written == old(written) + SheetWritten(SheetOf(d))
    {
      Write(HeadText("pointer", d.name));
      ghost var start, done: seq<Pair> := written, Optional("in-module", d.module_);
      Begin([], done);
      WriteOptional("in-module", d.module_, start, []);
      WriteOptional("c-name", d.cName, start, done);
      done := done + Optional("c-name", d.cName);
      WriteOptional("gtype-id", d.typecode, start, done);
      WriteRest(SheetOf(d), old(written));
    }

    lemma {:induction false} Begin(none: seq<Pair>, first: seq<Pair>)
      requires none == []
      ensures Holds(written, none) && none + first == first
    {
    }
  }

  lemma {:induction false} RegroupSheet<T>(a: seq<T>, b: seq<T>, c: seq<T>, d: seq<T>, e: seq<T>)
    ensures a + b + c + d + e == a + (b + c + d + e)
  {
  }
}

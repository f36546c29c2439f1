/**
  * What the parser makes of characters: which separate tokens, how strings are written so that they
  * are read back, and how a file in text mode falls into lines.
  */
module ScmTexts {
  import opened ScmExpr
  import opened ScmLayout

  // ---- Characters ------------------------------------------------------------------------

  /** Tab, newline, vertical tab, form feed, carriage return and blank are white space. */
  lemma {:induction false} WhiteSpace(c: char)
    ensures IsSpace(c) <==> 9 <= c as int <= 13 || c as int == 32
  {
  }

  /** These, and " ' ( ) ; end a symbol. */
  lemma {:induction false} SymbolEnders(c: char)
    ensures IsNonSymbol(c) <==> 9 <= c as int <= 13 || c as int in {32, 34, 39, 40, 41, 59}
  {
  }

  // ---- Strings ---------------------------------------------------------------------------

  /** The string as it is written on one line: with \n, \r and \t for newlines, carriage returns and tabs. */
  function Quote(s: string): string {
    if s == "" then ""
    else if s[0] == '\\' && |s| >= 2 then [s[0], s[1]] + Quote(s[2..])
    else if s[0] as int == 10 then "\\n" + Quote(s[1..])
    else if s[0] as int == 13 then "\\r" + Quote(s[1..])
    else if s[0] as int == 9 then "\\t" + Quote(s[1..])
    else [s[0]] + Quote(s[1..])
  }

  /** What is written like that is read back. */
  lemma {:induction false} QuoteIsReadBack(s: string)
    requires Plain(s)
    ensures IsClosed(Quote(s)) && Unescape(Quote(s)) == s
  {
    if s != "" {
      if s[0] == '\\' {
        QuoteIsReadBack(s[2..]);
        PairIsRead(s[0], s[1], Quote(s[2..]));
        assert s == [s[0], s[1]] + s[2..];
      } else {
        QuoteIsReadBack(s[1..]);
        assert s == [s[0]] + s[1..];
        if s[0] as int == 10 {
          PairIsRead('\\', 'n', Quote(s[1..]));
        } else if s[0] as int == 13 {
          PairIsRead('\\', 'r', Quote(s[1..]));
        } else if s[0] as int == 9 {
          PairIsRead('\\', 't', Quote(s[1..]));
        } else {
          OneIsRead(s[0], Quote(s[1..]));
        }
      }
    }
  }

  lemma {:induction false} PairIsRead(b: char, c: char, rest: string)
    requires b == '\\'
    ensures IsClosed([b, c] + rest) <==> IsClosed(rest)
    ensures Unescape([b, c] + rest) == Escape(c) + Unescape(rest)
  {
    assert ([b, c] + rest)[2..] == rest;
    assert ([b, c] + rest + "\"")[2..] == rest + "\"";
  }

  lemma {:induction false} OneIsRead(c: char, rest: string)
    requires c != '\\' && c != '"'
    ensures IsClosed([c] + rest) <==> IsClosed(rest)
    ensures Unescape([c] + rest) == [c] + Unescape(rest)
  {
    assert ([c] + rest)[1..] == rest;
    assert ([c] + rest + "\"")[1..] == rest + "\"";
  }

  /** A backslash before any other character stays, with the character. */
  lemma {:induction false} OthersAreKept(c: char, rest: string)
    requires c !in "nrt"
    ensures Unescape("\\" + [c] + rest) == "\\" + [c] + Unescape(rest)
  {
    assert "\\" + [c] == ['\\', c];
    PairIsRead('\\', c, rest);
  }

  /** If there is no backslash, the string comes onto one line. */
  lemma {:induction false} QuoteIsOneLine(s: string)
    requires '\\' !in s
    ensures forall c :: c in Quote(s) ==> c as int !in {9, 10, 13}
  {
    if s != "" {
      assert s == [s[0]] + s[1..];
      QuoteIsOneLine(s[1..]);
      assert forall c :: c in "\\n" || c in "\\r" || c in "\\t" ==> c as int !in {9, 10, 13};
      assert forall c :: c in Quote(s) ==> c in Quote(s[1..]) || c in "\\n" || c in "\\r" || c in "\\t" || c == s[0];
    }
  }

  /** Whatever is read has no quote and no backslash by itself. */
  lemma {:induction false} ReadIsPlain(raw: string)
    requires IsClosed(raw)
    ensures Plain(Unescape(raw))
    decreases |raw|
  {
    if raw != "" {
      LoneBackslash(raw);
      var k := if raw[0] == '\\' then 2 else 1;
      ClosedStep(raw, k);
      ReadIsPlain(raw[k..]);
      if k == 2 {
        EscapedIsPlain(raw[1], Unescape(raw[2..]));
      } else {
        assert (raw + "\"")[0] == raw[0];
        assert ([raw[0]] + Unescape(raw[1..]))[1..] == Unescape(raw[1..]);
      }
    }
  }

  /** A backslash at the end keeps the quote from closing the string. */
  lemma {:induction false} LoneBackslash(raw: string)
    requires raw != "" && IsClosed(raw)
    ensures raw[0] == '\\' ==> |raw| >= 2
  {
    assert |raw| == 1 ==> (raw + "\"")[2..] == "";
  }

  lemma {:induction false} EscapedIsPlain(c: char, rest: string)
    requires Plain(rest)
    ensures Plain(Escape(c) + rest)
  {
    assert (Escape(c) + rest)[|Escape(c)|..] == rest;
  }

  /**
    * So exactly the plain strings can be in a file: no quote, and no backslash that is not before
    * another character than n, r and t, or that is the last one.
    */
  lemma {:induction false} ReadableIffPlain(s: string)
    ensures (exists raw :: IsClosed(raw) && Unescape(raw) == s) <==> Plain(s)
  {
    if Plain(s) {
      QuoteIsReadBack(s);
    }
    if raw :| IsClosed(raw) && Unescape(raw) == s {
      ReadIsPlain(raw);
    }
  }

  // ---- Lines -----------------------------------------------------------------------------

  /** Cutting a text into lines loses nothing; each line but the last ends with its only newline. */
  lemma {:induction false} SplitIsExact(text: string)
    ensures Joined(SplitLines(text)) == text && AreLines(SplitLines(text))
    decreases |text|
  {
    if text != "" {
      var n := FirstLine(text);
      FirstLineIs(text);
      SplitIsExact(text[n..]);
      assert text == text[..n] + text[n..];
      LinesCons(text[..n], SplitLines(text[n..]));
    }
  }

  predicate AreLines(lines: seq<string>) {
    && (forall i :: 0 <= i < |lines| - 1 ==> OneLine(lines[i]))
    && (lines != [] ==> var t := lines[|lines| - 1]; t != "" && '\n' !in t[..|t| - 1])
  }

  lemma {:induction false} LinesCons(t: string, rest: seq<string>)
    requires AreLines(rest) && t != "" && '\n' !in t[..|t| - 1] && (rest != [] ==> t[|t| - 1] == '\n')
    ensures AreLines([t] + rest)
  {
  }

  lemma {:induction false} FirstLineIs(text: string)
    requires text != ""
    ensures var n := FirstLine(text);
            '\n' !in text[..n - 1] && (n < |text| ==> text[n - 1] == '\n')
  {
    if text[0] != '\n' && |text| > 1 {
      FirstLineIs(text[1..]);
      var n := FirstLine(text[1..]);
      assert text[..n] == [text[0]] + text[1..][..n - 1];
    }
  }

  /** A text with each newline made of these characters. */
  function WithNewlines(text: string, newline: string): string {
    if text == "" then ""
    else (if text[0] == '\n' then newline else [text[0]]) + WithNewlines(text[1..], newline)
  }

  /** A file reads the same whether its lines end with newlines, carriage returns, or both. */
  lemma {:induction false} AnyNewlines(text: string)
    requires '\r' !in text
    ensures Universal(text) == Universal(WithNewlines(text, "\r\n")) == text
    ensures Universal(WithNewlines(text, "\r")) == text
  {
    if text != "" {
      assert text == [text[0]] + text[1..];
      AnyNewlines(text[1..]);
      var both, one := WithNewlines(text[1..], "\r\n"), WithNewlines(text[1..], "\r");
      UniversalKeeps(text, "");
      assert text + "" == text;
      if text[0] == '\n' {
        assert ("\r\n" + both)[2..] == both;
        assert ("\r" + one)[1..] == one;
        NoNewlineLeft(text[1..]);
      } else {
        UniversalKeeps([text[0]], both);
        UniversalKeeps([text[0]], one);
      }
    }
  }

  lemma {:induction false} NoNewlineLeft(text: string)
    ensures var s := WithNewlines(text, "\r"); s != "" ==> s[0] != '\n'
  {
  }
}

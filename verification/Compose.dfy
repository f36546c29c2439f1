/** Glib::ustring::compose(): expanding %1 to %9 and %% in a format string. */
module Compose {
  import opened Utf8
  import opened Utf8Text
  import opened UstringOffsets
  import opened UstringSearch

  const PERCENT := 0x25
  const DIGIT_1 := 0x31
  const DIGIT_9 := 0x39

  /**
    * The template language in code points. A NUL ends the search for substitutions, since the
    * format is scanned as a C string; what follows it is copied.
    */
  function Expand(f: Text, args: seq<Text>): Text {
    if f == [] || f[0] == 0 then f
    else if f[0] != PERCENT then [f[0]] + Expand(f[1..], args)
    else if |f| == 1 || f[1] == 0 then [PERCENT] + Expand(f[1..], args)
    else if f[1] == PERCENT then [PERCENT] + Expand(f[2..], args)
    else if DIGIT_1 <= f[1] <= DIGIT_9 && f[1] - DIGIT_1 < |args| then args[f[1] - DIGIT_1] + Expand(f[2..], args)
    else [PERCENT, f[1]] + Expand(f[2..], args)
  }

  /** f with every % doubled. */
  function Doubled(f: Text): Text {
    if f == [] then []
    else if f[0] == PERCENT then [PERCENT, PERCENT] + Doubled(f[1..])
    else [f[0]] + Doubled(f[1..])
  }

  /** There is a % behind the first NUL. */
  predicate PercentBehindNul(f: Text) {
    f != [] && if f[0] == 0 then PERCENT in f else PercentBehindNul(f[1..])
  }

  lemma {:induction false} DoubledIsSame(f: Text)
    ensures |Doubled(f)| >= |f|
    ensures Doubled(f) == f <==> PERCENT !in f
  {
    if f != [] {
      DoubledIsSame(f[1..]);
      assert f == [f[0]] + f[1..];
    }
  }

  /** Expanding undoes the doubling exactly if no % is behind a NUL. */
  lemma {:induction false} DoubledExpandsBack(f: Text, args: seq<Text>)
    ensures Expand(Doubled(f), args) == f <==> !PercentBehindNul(f)
  {
    if f != [] {
      var rest := Expand(Doubled(f[1..]), args);
      if f[0] == 0 {
        DoubledIsSame(f);
      } else {
        DoubledExpandsBack(f[1..], args);
        if f[0] == PERCENT {
          assert Doubled(f)[2..] == Doubled(f[1..]);
        } else {
          assert Doubled(f)[1..] == Doubled(f[1..]);
        }
        assert Expand(Doubled(f), args) == [f[0]] + rest;
        SameTails(f[0], rest, f);
      }
    }
  }

  lemma {:induction false} SameTails(c: CodePoint, rest: Text, f: Text)
    requires f != [] && f[0] == c
    ensures [c] + rest == f <==> rest == f[1..]
  {
    assert f == [c] + f[1..] && ([c] + rest)[1..] == rest;
  }

  /** Plain characters in front of a template are copied. */
  lemma {:induction false} ExpandLiteral(f: Text, n: nat, args: seq<Text>)
    requires n <= |f| && PERCENT !in f[..n] && 0 !in f[..n]
    ensures Expand(f, args) == f[..n] + Expand(f[n..], args)
  {
    if n > 0 {
      var g := f[1..];
      assert f[0] in f[..n] && f[..n][1..] == g[..n - 1] && g[n - 1..] == f[n..];
      ExpandLiteral(g, n - 1, args);
      assert Expand(f, args) == [f[0]] + Expand(g, args);
      assert f[..n] == [f[0]] + g[..n - 1];
    }
  }

  /** strchr() from a position of s on: where c or, first, a NUL is; |s| is where c_str() puts its NUL. */
  function Strchr(s: seq<Byte>, from: nat, c: Byte): (o: nat)
    requires from <= |s|
    ensures from <= o <= |s| && (o < |s| ==> s[o] in {0, c}) && forall q :: from <= q < o ==> s[q] !in {0, c}
    decreases |s| - from
  {
    if from == |s| || s[from] == c || s[from] == 0 then from else Strchr(s, from + 1, c)
  }

  /** An ASCII byte is a character of its own. */
  lemma {:induction false} AsciiByte(cs: Text, o: nat) returns (k: nat)
    requires o < |EncodeAll(cs)| && EncodeAll(cs)[o] < 0x80
    ensures k < |cs| && Offset(cs, k) == o && Offset(cs, k + 1) == o + 1 && cs[k] == EncodeAll(cs)[o]
  {
    k := StartAt(cs, o);
    SkipsToNext(cs, k);
    CharAt(cs, k);
    AsciiOnly(cs[k]);
  }

  /** The code points of a byte range free of % and NUL are free of them too. */
  lemma {:induction false} PlainBytes(cs: Text, k: nat, m: nat)
    requires k <= m <= |cs|
    requires forall q :: Offset(cs, k) <= q < Offset(cs, m) && q < |EncodeAll(cs)| ==> EncodeAll(cs)[q] !in {0, PERCENT}
    ensures forall j :: k <= j < m ==> cs[j] !in {0, PERCENT}
  {
    forall j | k <= j < m
      ensures cs[j] !in {0, PERCENT}
    {
      CharAt(cs, j);
      AsciiOnly(cs[j]);
      OffsetOrder(cs, k, j);
      OffsetOrder(cs, j, m);
    }
  }

  lemma {:induction false} Copied(cs: Text, k: nat, m: nat)
    requires k <= m <= |cs|
    ensures Offset(cs, k) <= Offset(cs, m) <= |EncodeAll(cs)|
    ensures EncodeAll(cs)[Offset(cs, k)..Offset(cs, m)] == EncodeAll(cs[k..m])
  {
    RangeBytes(cs, k, m - k);
  }

  /** What one round of the scan deals with: plain characters from k on, then the % at m. */
  ghost predicate IsPiece(cs: Text, k: nat, m: nat) {
    k <= m < |cs| && cs[m] == PERCENT && forall j :: k <= j < m ==> cs[j] !in {0, PERCENT}
  }

  /** How Expand treats the % at m, by the character after it. */
  lemma {:induction false} AtPercent(cs: Text, m: nat, args: seq<Text>)
    requires m < |cs| && cs[m] == PERCENT
    ensures var e := Expand(cs[m..], args);
            if m + 1 == |cs| || cs[m + 1] == 0 then e == [PERCENT] + Expand(cs[m + 1..], args)
            else if cs[m + 1] == PERCENT then e == [PERCENT] + Expand(cs[m + 2..], args)
            else if DIGIT_1 <= cs[m + 1] <= DIGIT_9 && cs[m + 1] - DIGIT_1 < |args|
            then e == args[cs[m + 1] - DIGIT_1] + Expand(cs[m + 2..], args)
            else e == [PERCENT, cs[m + 1]] + Expand(cs[m + 2..], args)
  {
    var f := cs[m..];
    assert f[0] == PERCENT && f[1..] == cs[m + 1..];
    if m + 1 < |cs| {
      assert f[1] == cs[m + 1] && f[2..] == cs[m + 2..];
    }
  }

  /** Plain characters in front of the % at m are copied. */
  lemma {:induction false} BeforePercent(cs: Text, k: nat, m: nat, args: seq<Text>)
    requires IsPiece(cs, k, m)
    ensures Expand(cs[k..], args) == cs[k..m] + Expand(cs[m..], args)
  {
    assert cs[k..][..m - k] == cs[k..m];
    ExpandLiteral(cs[k..], m - k, args);
    assert cs[k..][m - k..] == cs[m..];
  }

  /** Copying code points k to q - 1 in front of rest. */
  lemma {:induction false} CopyBytes(cs: Text, k: nat, q: nat, rest: Text)
    requires k <= q <= |cs|
    ensures Offset(cs, k) <= Offset(cs, q) <= |EncodeAll(cs)|
    ensures EncodeAll(cs[k..q] + rest) == EncodeAll(cs)[Offset(cs, k)..Offset(cs, q)] + EncodeAll(rest)
  {
    Copied(cs, k, q);
    EncodeAllConcat(cs[k..q], rest);
  }

  /** The round may append output and go on at code point next. */
  ghost predicate Advances(cs: Text, args: seq<Text>, k: nat, output: seq<Byte>, next: nat) {
    && k < next <= |cs|
    && Offset(cs, next) <= |EncodeAll(cs)|
    && EncodeAll(Expand(cs[k..], args)) == output + EncodeAll(Expand(cs[next..], args))
  }

  /** The byte after the % at byte stop; c_str() puts a NUL behind the last byte. */
  function FollowerByte(fmt: seq<Byte>, stop: nat): Byte {
    if stop + 1 < |fmt| then fmt[stop + 1] else 0
  }

  /** What the byte after the % at m tells about the character after it. */
  lemma {:induction false} Follower(cs: Text, m: nat)
    requires m < |cs| && cs[m] == PERCENT
    ensures var b := FollowerByte(EncodeAll(cs), Offset(cs, m));
            && Offset(cs, m + 1) == Offset(cs, m) + 1
            && (b == 0 <==> m + 1 == |cs| || cs[m + 1] == 0)
            && (m + 1 < |cs| && (b < 0x80 || cs[m + 1] < 0x80) ==> b == cs[m + 1])
            && (m + 1 < |cs| ==> Offset(cs, m + 2) == Offset(cs, m) + 1 + Skip(b))
  {
    SkipsToNext(cs, m);
    CharAt(cs, m);
    AsciiOnly(cs[m]);
    Ends(cs);
    if m + 1 < |cs| {
      SkipsToNext(cs, m + 1);
      CharAt(cs, m + 1);
      AsciiOnly(cs[m + 1]);
    }
  }

  lemma {:induction false} OnePercent(cs: Text, k: nat, m: nat, rest: Text)
    requires k <= m < |cs| && cs[m] == PERCENT
    ensures Offset(cs, k) <= Offset(cs, m + 1) <= |EncodeAll(cs)|
    ensures EncodeAll(cs[k..m] + ([PERCENT] + rest))
        == EncodeAll(cs)[Offset(cs, k)..Offset(cs, m + 1)] + EncodeAll(rest)
  {
    assert cs[k..m] + ([PERCENT] + rest) == cs[k..m + 1] + rest;
    CopyBytes(cs, k, m + 1, rest);
  }

  /** %%: the piece is copied up to and with the first %. */
  lemma {:induction false} Escaped(cs: Text, k: nat, m: nat, args: seq<Text>)
    requires IsPiece(cs, k, m) && FollowerByte(EncodeAll(cs), Offset(cs, m)) == PERCENT
    ensures Offset(cs, k) <= Offset(cs, m) + 1 <= |EncodeAll(cs)|
    ensures Advances(cs, args, k, EncodeAll(cs)[Offset(cs, k)..Offset(cs, m) + 1], m + 2)
    ensures Offset(cs, m + 2) == Offset(cs, m) + 2
  {
    Follower(cs, m);
    BeforePercent(cs, k, m, args);
    AtPercent(cs, m, args);
    OnePercent(cs, k, m, Expand(cs[m + 2..], args));
    OffsetBound(cs, m + 2);
  }

  /** A % at the end, or in front of a NUL: it is copied. */
  lemma {:induction false} Lone(cs: Text, k: nat, m: nat, args: seq<Text>)
    requires IsPiece(cs, k, m) && FollowerByte(EncodeAll(cs), Offset(cs, m)) == 0
    ensures Offset(cs, k) <= Offset(cs, m) + 1 <= |EncodeAll(cs)|
    ensures Advances(cs, args, k, EncodeAll(cs)[Offset(cs, k)..Offset(cs, m) + 1], m + 1)
    ensures Offset(cs, m + 1) == Offset(cs, m) + 1
  {
    Follower(cs, m);
    BeforePercent(cs, k, m, args);
    AtPercent(cs, m, args);
    OnePercent(cs, k, m, Expand(cs[m + 1..], args));
  }

  lemma {:induction false} RejoinPiece(cs: Text, k: nat, m: nat, rest: Text)
    requires k <= m && m + 2 <= |cs|
    ensures cs[k..m] + ([cs[m], cs[m + 1]] + rest) == cs[k..m + 2] + rest
  {
  }

  /** A % followed by a character that makes no substitution: both are copied. */
  lemma {:induction false} NoSubstitution(cs: Text, k: nat, m: nat, b: Byte, args: seq<Text>)
    requires IsPiece(cs, k, m) && b == FollowerByte(EncodeAll(cs), Offset(cs, m)) && b !in {0, PERCENT}
    requires !(DIGIT_1 <= b <= DIGIT_9 && b - DIGIT_1 < |args|)
    ensures m + 2 <= |cs| && Offset(cs, m + 2) == Offset(cs, m) + 1 + Skip(b) <= |EncodeAll(cs)|
    ensures Offset(cs, k) <= Offset(cs, m + 2)
    ensures Advances(cs, args, k, EncodeAll(cs)[Offset(cs, k)..Offset(cs, m + 2)], m + 2)
  {
    Follower(cs, m);
    BeforePercent(cs, k, m, args);
    AtPercent(cs, m, args);
    var rest := Expand(cs[m + 2..], args);
    assert Expand(cs[k..], args) == cs[k..m] + ([PERCENT, cs[m + 1]] + rest);
    RejoinPiece(cs, k, m, rest);
    CopyBytes(cs, k, m + 2, rest);
  }

  /** A valid %1 to %9: the argument takes its place. */
  lemma {:induction false} Substitution(cs: Text, k: nat, m: nat, index: nat, args: seq<Text>)
    requires IsPiece(cs, k, m) && index < |args| && index < 9
    requires FollowerByte(EncodeAll(cs), Offset(cs, m)) == DIGIT_1 + index
    ensures Offset(cs, k) <= Offset(cs, m) <= |EncodeAll(cs)|
    ensures Advances(cs, args, k, EncodeAll(cs)[Offset(cs, k)..Offset(cs, m)] + EncodeAll(args[index]), m + 2)
    ensures Offset(cs, m + 2) == Offset(cs, m) + 2
  {
    Follower(cs, m);
    BeforePercent(cs, k, m, args);
    AtPercent(cs, m, args);
    var rest := Expand(cs[m + 2..], args);
    assert Expand(cs[k..], args) == cs[k..m] + (args[index] + rest);
    CopyBytes(cs, k, m, args[index] + rest);
    EncodeAllConcat(args[index], rest);
    Regroup(EncodeAll(cs)[Offset(cs, k)..Offset(cs, m)], EncodeAll(args[index]), EncodeAll(rest));
    OffsetBound(cs, m + 2);
  }

  lemma {:induction false} Regroup(a: seq<Byte>, b: seq<Byte>, c: seq<Byte>)
    ensures a + (b + c) == a + b + c
  {
  }

  /** Without a further %, or with a NUL before it, the rest is copied. */
  lemma {:induction false} NothingToExpand(cs: Text, k: nat, stop: nat, args: seq<Text>)
    requires k <= |cs| && Offset(cs, k) <= stop <= |EncodeAll(cs)|
    requires stop < |EncodeAll(cs)| ==> EncodeAll(cs)[stop] == 0
    requires forall q :: Offset(cs, k) <= q < stop ==> EncodeAll(cs)[q] !in {0, PERCENT}
    ensures Expand(cs[k..], args) == cs[k..]
  {
    Ends(cs);
    var m := |cs|;
    if stop < |EncodeAll(cs)| {
      m := AsciiByte(cs, stop);
    }
    if m < k { OffsetMonotone(cs, m, k); }
    PlainBytes(cs, k, m);
    assert cs[k..][..m - k] == cs[k..m];
    ExpandLiteral(cs[k..], m - k, args);
    assert cs[k..][m - k..] == cs[m..];
    assert cs[k..] == cs[k..m] + cs[m..];
  }

  /** The next % found at byte stop makes a piece. */
  lemma {:induction false} FindsPiece(cs: Text, k: nat, stop: nat) returns (m: nat)
    requires k <= |cs| && Offset(cs, k) <= stop < |EncodeAll(cs)| && EncodeAll(cs)[stop] == PERCENT
    requires forall q :: Offset(cs, k) <= q < stop ==> EncodeAll(cs)[q] !in {0, PERCENT}
    ensures IsPiece(cs, k, m) && Offset(cs, m) == stop
  {
    m := AsciiByte(cs, stop);
    if m < k { OffsetMonotone(cs, m, k); }
    PlainBytes(cs, k, m);
  }

  /** With this result so far, the scan has got to code point k. */
  ghost predicate ScannedTo(cs: Text, args: seq<Text>, k: nat, result: seq<Byte>) {
    && k <= |cs|
    && Offset(cs, k) <= |EncodeAll(cs)|
    && EncodeAll(Expand(cs, args)) == result + EncodeAll(Expand(cs[k..], args))
  }

  lemma {:induction false} ScanStarts(cs: Text, args: seq<Text>)
    ensures ScannedTo(cs, args, 0, []) && Offset(cs, 0) == 0
  {
    Ends(cs);
    assert cs[0..] == cs;
    assert [] + EncodeAll(Expand(cs, args)) == EncodeAll(Expand(cs, args));
  }

  lemma {:induction false} ScanAdvances(cs: Text, args: seq<Text>, k: nat, result: seq<Byte>, output: seq<Byte>,
                                        next: nat)
    requires ScannedTo(cs, args, k, result) && Advances(cs, args, k, output, next)
    ensures ScannedTo(cs, args, next, result + output)
  {
    var rest := EncodeAll(Expand(cs[next..], args));
    assert result + (output + rest) == result + output + rest;
  }

  lemma {:induction false} ScanEnds(cs: Text, args: seq<Text>, k: nat, result: seq<Byte>, stop: nat)
    requires ScannedTo(cs, args, k, result) && Offset(cs, k) <= stop <= |EncodeAll(cs)|
    requires stop < |EncodeAll(cs)| ==> EncodeAll(cs)[stop] == 0
    requires forall q :: Offset(cs, k) <= q < stop ==> EncodeAll(cs)[q] !in {0, PERCENT}
    ensures EncodeAll(Expand(cs, args)) == result + EncodeAll(cs)[Offset(cs, k)..]
  {
    NothingToExpand(cs, k, stop, args);
    SplitAt(cs, k);
  }

  /** ustring::compose_private() */
  method ComposePrivate(fmt: seq<Byte>, args: seq<seq<Byte>>, ghost cs: Text, ghost texts: seq<Text>)
    returns (result: seq<Byte>)
    requires Spells(fmt, cs) && |args| == |texts|
    requires forall i :: 0 <= i < |args| ==> args[i] == EncodeAll(texts[i])
    ensures result == EncodeAll(Expand(cs, texts))
  {
    result := [];
    var start: nat := 0;
    ghost var k: nat := 0;
    ScanStarts(cs, texts);
    while true
      invariant ScannedTo(cs, texts, k, result) && start == Offset(cs, k)
      decreases |cs| - k
    {
      var stop := Strchr(fmt, start, PERCENT);
      if stop == |fmt| || fmt[stop] != PERCENT {
        ScanEnds(cs, texts, k, result, stop);
        break;
      }
      ghost var m := FindsPiece(cs, k, stop);
      ghost var before, from := result, k;
      var output;
      output, start, k := Round(fmt, args, start, stop, cs, texts, k, m);
      ScanAdvances(cs, texts, from, before, output, k);
      result := result + output;
    }
    result := result + fmt[start..];
  }

  /** One round: what is appended for the piece that ends in the % at stop, and where the scan goes on. */
  method Round(fmt: seq<Byte>, args: seq<seq<Byte>>, start: nat, stop: nat,
               ghost cs: Text, ghost texts: seq<Text>, ghost k: nat, ghost m: nat)
    returns (output: seq<Byte>, newStart: nat, ghost newK: nat)
    requires Spells(fmt, cs) && |args| == |texts|
    requires forall i :: 0 <= i < |args| ==> args[i] == EncodeAll(texts[i])
    requires IsPiece(cs, k, m) && start == Offset(cs, k) && stop == Offset(cs, m)
    ensures Advances(cs, texts, k, output, newK) && newStart == Offset(cs, newK)
    ensures newStart <= |fmt|
  {
    var follower := FollowerByte(fmt, stop);
    if follower == PERCENT {
      Escaped(cs, k, m, texts);
      output := fmt[start..stop + 1];
      newStart, newK := stop + 2, m + 2;
    } else {
      // Ascii::digit_value() is -1 for anything but a digit.
      var index := (if 0x30 <= follower <= DIGIT_9 then follower - 0x30 else -1) - 1;
      if 0 <= index < |args| {
        Substitution(cs, k, m, index, texts);
        output := fmt[start..stop] + args[index];
        newStart, newK := stop + 2, m + 2;
      } else {
        newStart, newK := AfterInvalid(fmt, stop, cs, texts, k, m);
        output := fmt[start..newStart];
      }
    }
  }

  /** Where the scan goes on after an invalid substitution, which is copied. */
  method AfterInvalid(fmt: seq<Byte>, stop: nat, ghost cs: Text, ghost texts: seq<Text>, ghost k: nat, ghost m: nat)
    returns (next: nat, ghost newK: nat)
    requires Spells(fmt, cs) && IsPiece(cs, k, m) && stop == Offset(cs, m)
    requires var b := FollowerByte(fmt, stop); b != PERCENT && !(DIGIT_1 <= b <= DIGIT_9 && b - DIGIT_1 < |texts|)
    ensures Offset(cs, k) <= next <= |fmt| && newK <= |cs| && next == Offset(cs, newK)
    ensures Advances(cs, texts, k, fmt[Offset(cs, k)..next], newK)
  {
    var follower := FollowerByte(fmt, stop);
    if follower != 0 {
      NoSubstitution(cs, k, m, follower, texts);
      next, newK := stop + 1 + Skip(follower), m + 2;
    } else {
      Lone(cs, k, m, texts);
      next, newK := stop + 1, m + 1;
    }
  }
}

/**
  * Texts: the bytes of a sequence of code points, and how byte offsets and code-point
  * indices correspond. The encoding is prefix-free and self-synchronising.
  */
module Utf8Text {
  import opened Utf8

  type Text = seq<CodePoint>

  function EncodeAll(cs: Text): (s: seq<Byte>) {
    if cs == [] then [] else Encode(cs[0]) + EncodeAll(cs[1..])
  }

  /** The bytes are those of this text. */
  ghost predicate Spells(s: seq<Byte>, cs: Text) {
    s == EncodeAll(cs)
  }

  /** The bytes are valid UTF-8. */
  ghost predicate IsUtf8(s: seq<Byte>) {
    exists cs: Text :: EncodeAll(cs) == s
  }

  /** The code points that valid bytes stand for; there is only one choice (EncodeAllInjective). */
  ghost function Decode(s: seq<Byte>): (cs: Text)
    requires IsUtf8(s)
    ensures EncodeAll(cs) == s
  {
    var cs: Text :| EncodeAll(cs) == s; cs
  }

  /** The byte offset of the code point with index k, or of the end. */
  function Offset(cs: Text, k: nat): nat
    requires k <= |cs|
  {
    |EncodeAll(cs[..k])|
  }

  lemma {:induction false} EncodeAllConcat(a: Text, b: Text)
    ensures EncodeAll(a + b) == EncodeAll(a) + EncodeAll(b)
  {
    if a == [] {
      assert a + b == b;
    } else {
      assert (a + b)[1..] == a[1..] + b;
      EncodeAllConcat(a[1..], b);
    }
  }

  lemma {:induction false} EncodeOne(c: CodePoint)
    ensures EncodeAll([c]) == Encode(c)
  {
    assert [c][1..] == [];
  }

  lemma {:induction false} SplitAt(cs: Text, k: nat)
    requires k <= |cs|
    ensures EncodeAll(cs) == EncodeAll(cs[..k]) + EncodeAll(cs[k..])
    ensures Offset(cs, k) <= |EncodeAll(cs)|
    ensures EncodeAll(cs)[..Offset(cs, k)] == EncodeAll(cs[..k])
    ensures EncodeAll(cs)[Offset(cs, k)..] == EncodeAll(cs[k..])
  {
    assert cs == cs[..k] + cs[k..];
    EncodeAllConcat(cs[..k], cs[k..]);
  }

  lemma {:induction false} OffsetBound(cs: Text, k: nat)
    requires k <= |cs|
    ensures Offset(cs, k) <= |EncodeAll(cs)|
  {
    SplitAt(cs, k);
  }

  lemma {:induction false} SplitAround(cs: Text, k: nat)
    requires k < |cs|
    ensures EncodeAll(cs) == EncodeAll(cs[..k]) + EncodeAll([cs[k]]) + EncodeAll(cs[k + 1..])
    ensures EncodeAll(cs[..k + 1]) == EncodeAll(cs[..k]) + EncodeAll([cs[k]])
  {
    var a, b, c := cs[..k], [cs[k]], cs[k + 1..];
    assert cs == (a + b) + c && cs[..k + 1] == a + b;
    EncodeAllConcat(a + b, c);
    EncodeAllConcat(a, b);
  }

  lemma {:induction false} AsciiOnly(c: CodePoint)
    ensures Encode(c)[0] < 0x80 <==> c < 0x80
    ensures c < 0x80 ==> Encode(c)[0] == c
  {
    EncodeShape(c);
  }

  /** The bytes from the offset of code point k on begin with its encoding. */
  lemma {:induction false} CharAt(cs: Text, k: nat)
    requires k < |cs|
    ensures Offset(cs, k) < Offset(cs, k + 1) == Offset(cs, k) + |Encode(cs[k])| <= |EncodeAll(cs)|
    ensures Encode(cs[k]) <= EncodeAll(cs)[Offset(cs, k)..]
    ensures EncodeAll(cs)[Offset(cs, k)] == Encode(cs[k])[0]
  {
    SplitAround(cs, k);
    EncodeOne(cs[k]);
    Middle(EncodeAll(cs[..k]), EncodeAll([cs[k]]), EncodeAll(cs[k + 1..]));
  }

  /** Stepping by the skip table leads from one character to the next. */
  lemma {:induction false} SkipsToNext(cs: Text, k: nat)
    requires k < |cs|
    ensures Offset(cs, k) < |EncodeAll(cs)|
    ensures Offset(cs, k) + Skip(EncodeAll(cs)[Offset(cs, k)]) == Offset(cs, k + 1) <= |EncodeAll(cs)|
  {
    CharAt(cs, k);
    EncodeShape(cs[k]);
  }

  lemma {:induction false} OffsetFrom(cs: Text, i: nat, n: nat)
    requires i + n <= |cs|
    ensures Offset(cs, i) + Offset(cs[i..], n) == Offset(cs, i + n)
  {
    assert cs[..i + n] == cs[..i] + cs[i..][..n];
    EncodeAllConcat(cs[..i], cs[i..][..n]);
  }

  lemma {:induction false} Middle<T>(a: seq<T>, b: seq<T>, c: seq<T>)
    requires b != []
    ensures b <= (a + b + c)[|a|..] && (a + b + c)[|a|] == b[0]
  {
    assert (a + b + c)[|a|..] == b + c;
  }

  lemma {:induction false} Ends(cs: Text)
    ensures Offset(cs, 0) == 0 && Offset(cs, |cs|) == |EncodeAll(cs)|
  {
    assert cs[..|cs|] == cs;
  }

  lemma {:induction false} OffsetMonotone(cs: Text, j: nat, k: nat)
    requires j < k <= |cs|
    ensures Offset(cs, j) + (k - j) <= Offset(cs, k)
  {
    CharAt(cs, k - 1);
    if j < k - 1 {
      OffsetMonotone(cs, j, k - 1);
    }
  }

  /** A text has at least as many bytes as code points. */
  lemma {:induction false} LengthBound(cs: Text)
    ensures |cs| <= |EncodeAll(cs)|
    ensures |cs| == 0 <==> |EncodeAll(cs)| == 0
  {
    Ends(cs);
    if cs != [] {
      OffsetMonotone(cs, 0, |cs|);
    }
  }

  /** Prefix-freeness: a byte prefix that is itself a text is a prefix in code points. */
  lemma {:induction false} PrefixFree(a: Text, b: Text)
    requires EncodeAll(a) <= EncodeAll(b)
    ensures a <= b
  {
    if a != [] {
      LengthBound(a);
      LengthBound(b);
      var n := |Encode(a[0])|;
      EncodeShape(a[0]);
      EncodeShape(b[0]);
      assert EncodeAll(a)[0] == Encode(a[0])[0] && EncodeAll(b)[0] == Encode(b[0])[0];
      assert |Encode(b[0])| == n;
      assert Encode(a[0]) == EncodeAll(a)[..n] == EncodeAll(b)[..n] == Encode(b[0]);
      EncodeInjective(a[0], b[0]);
      assert EncodeAll(a[1..]) == EncodeAll(a)[n..];
      assert EncodeAll(b[1..]) == EncodeAll(b)[n..];
      PrefixFree(a[1..], b[1..]);
    }
  }

  lemma {:induction false} EncodeAllInjective(a: Text, b: Text)
    requires EncodeAll(a) == EncodeAll(b)
    ensures a == b
  {
    PrefixFree(a, b);
    PrefixFree(b, a);
  }

  lemma {:induction false} DecodeEncoded(cs: Text)
    ensures IsUtf8(EncodeAll(cs)) && Decode(EncodeAll(cs)) == cs
  {
    EncodeAllInjective(Decode(EncodeAll(cs)), cs);
  }

  /** Self-synchronisation: a byte starts a character exactly when it is no continuation byte. */
  lemma {:induction false} StartsAreNotContinuations(cs: Text, o: nat)
    requires o < |EncodeAll(cs)|
    ensures !IsContinuation(EncodeAll(cs)[o]) <==> exists k :: 0 <= k < |cs| && Offset(cs, k) == o
  {
    if k :| 0 <= k < |cs| && Offset(cs, k) == o {
      CharAt(cs, k);
      EncodeShape(cs[k]);
    }
    if !IsContinuation(EncodeAll(cs)[o]) {
      var k := StartAt(cs, o);
    }
  }

  lemma {:induction false} StartAt(cs: Text, o: nat) returns (k: nat)
    requires o < |EncodeAll(cs)| && !IsContinuation(EncodeAll(cs)[o])
    ensures k < |cs| && Offset(cs, k) == o
  {
    var n := |Encode(cs[0])|;
    EncodeShape(cs[0]);
    if o < n {
      assert EncodeAll(cs)[o] == Encode(cs[0])[o];
      k := 0;
    } else {
      assert EncodeAll(cs)[o] == EncodeAll(cs[1..])[o - n];
      k := StartAt(cs[1..], o - n);
      assert cs[..k + 1][1..] == cs[1..][..k];
      k := k + 1;
    }
  }

  /** A byte match of a non-empty valid needle starts on a character boundary, and is a match of code points. */
  lemma {:induction false} ByteMatchIsCharMatch(cs: Text, needle: Text, o: nat) returns (k: nat)
    requires needle != [] && o <= |EncodeAll(cs)| && EncodeAll(needle) <= EncodeAll(cs)[o..]
    ensures k < |cs| && Offset(cs, k) == o && needle <= cs[k..]
  {
    LengthBound(needle);
    EncodeShape(needle[0]);
    assert EncodeAll(cs)[o] == EncodeAll(needle)[0];
    k := StartAt(cs, o);
    SplitAt(cs, k);
    PrefixFree(needle, cs[k..]);
  }

  lemma {:induction false} CharMatchIsByteMatch(cs: Text, needle: Text, k: nat)
    requires k <= |cs| && needle <= cs[k..]
    ensures Offset(cs, k) <= |EncodeAll(cs)| && EncodeAll(needle) <= EncodeAll(cs)[Offset(cs, k)..]
  {
    SplitAt(cs, k);
    assert cs[k..] == needle + cs[k..][|needle|..];
    EncodeAllConcat(needle, cs[k..][|needle|..]);
  }
}

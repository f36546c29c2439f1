/** Searching: byte-level scans that answer in code-point indices. */
module UstringSearch {
  import opened Utf8
  import opened Utf8Text
  import opened StdString
  import opened UstringOffsets

  /** r is the least code-point index at or after i where the needle occurs, or npos. */
  ghost predicate IsFirstMatch(cs: Text, needle: Text, i: nat, r: nat) {
    if r == NPOS then forall k: nat :: i <= k ==> !MatchesAt(cs, needle, k)
    else i <= r && MatchesAt(cs, needle, r) && forall k: nat :: i <= k < r ==> !MatchesAt(cs, needle, k)
  }

  /** r is the greatest code-point index at or before i where the needle occurs, or npos. */
  ghost predicate IsLastMatch(cs: Text, needle: Text, i: nat, r: nat) {
    if r == NPOS then forall k: nat :: k <= i ==> !MatchesAt(cs, needle, k)
    else r <= i && MatchesAt(cs, needle, r) && forall k: nat :: r < k <= i ==> !MatchesAt(cs, needle, k)
  }

  /** A needle occurs at code point k exactly when its bytes occur at the offset of k ... */
  lemma {:induction false} MatchAtOffset(cs: Text, needle: Text, k: nat)
    requires k <= |cs|
    ensures MatchesAt(cs, needle, k) <==> MatchesAt(EncodeAll(cs), EncodeAll(needle), Offset(cs, k))
  {
    SplitAt(cs, k);
    if MatchesAt(cs, needle, k) {
      CharMatchIsByteMatch(cs, needle, k);
    }
    if MatchesAt(EncodeAll(cs), EncodeAll(needle), Offset(cs, k)) {
      PrefixFree(needle, cs[k..]);
    }
  }

  /** ... and its bytes, when there are any, occur nowhere else. */
  lemma {:induction false} ByteMatchOnBoundary(cs: Text, needle: Text, o: nat) returns (k: nat)
    requires MatchesAt(EncodeAll(cs), EncodeAll(needle), o) && (needle == [] ==> o == |EncodeAll(cs)|)
    ensures k <= |cs| && Offset(cs, k) == o && MatchesAt(cs, needle, k)
  {
    if needle == [] {
      k := |cs|;
      Ends(cs);
    } else {
      k := ByteMatchIsCharMatch(cs, needle, o);
    }
  }

  lemma {:induction false} OffsetOrder(cs: Text, j: nat, k: nat)
    requires j <= |cs| && k <= |cs|
    ensures j < k <==> Offset(cs, j) < Offset(cs, k)
  {
    if j < k { OffsetMonotone(cs, j, k); }
    if k < j { OffsetMonotone(cs, k, j); }
  }

  /** The byte answer b of std::string::find, started at the offset of i, as a code-point answer. */
  lemma {:induction false} FirstMatch(cs: Text, needle: Text, i: nat, b: nat) returns (k: nat)
    requires |EncodeAll(cs)| <= MAX_SIZE
    requires b == StdString.Find(EncodeAll(cs), EncodeAll(needle), if i <= |cs| then Offset(cs, i) else NPOS)
    ensures b == NPOS ==> IsFirstMatch(cs, needle, i, NPOS)
    ensures b != NPOS ==> k <= |cs| && Offset(cs, k) == b && IsFirstMatch(cs, needle, i, k)
  {
    var s, t := EncodeAll(cs), EncodeAll(needle);
    k := 0;
    LengthBound(cs);
    if i <= |cs| {
      var from := Offset(cs, i);
      OffsetBound(cs, i);
      forall j: nat | i <= j <= |cs| && MatchesAt(cs, needle, j)
        ensures b != NPOS && b <= Offset(cs, j)
      {
        MatchAtOffset(cs, needle, j);
        OffsetOrder(cs, j, i);
      }
      if b != NPOS {
        if needle == [] {
          assert MatchesAt(s, t, from);
          k := i;
          MatchAtOffset(cs, needle, i);
        } else {
          k := ByteMatchOnBoundary(cs, needle, b);
        }
        OffsetOrder(cs, k, i);
        forall j: nat | i <= j < k
          ensures !MatchesAt(cs, needle, j)
        {
          OffsetOrder(cs, j, k);
        }
      }
    }
  }

  /** The byte answer b of std::string::rfind, started at the offset of i, as a code-point answer. */
  lemma {:induction false} LastMatch(cs: Text, needle: Text, i: nat, b: nat) returns (k: nat)
    requires |EncodeAll(cs)| <= MAX_SIZE
    requires b == Rfind(EncodeAll(cs), EncodeAll(needle), if i <= |cs| then Offset(cs, i) else NPOS)
    ensures b == NPOS ==> IsLastMatch(cs, needle, i, NPOS)
    ensures b != NPOS ==> k <= |cs| && Offset(cs, k) == b && IsLastMatch(cs, needle, i, k)
  {
    var s, t := EncodeAll(cs), EncodeAll(needle);
    var from := if i <= |cs| then Offset(cs, i) else NPOS;
    k := 0;
    LengthBound(cs);
    forall j: nat | j <= i && j <= |cs| && MatchesAt(cs, needle, j)
      ensures b != NPOS && Offset(cs, j) <= b
    {
      MatchAtOffset(cs, needle, j);
      OffsetBound(cs, j);
      if i <= |cs| { OffsetOrder(cs, i, j); }
    }
    if b != NPOS {
      if needle == [] && i <= |cs| {
        OffsetBound(cs, i);
        k := i;
        assert MatchesAt(s, t, from);
        MatchAtOffset(cs, needle, i);
      } else {
        if needle == [] { assert MatchesAt(s, t, |s|); }
        k := ByteMatchOnBoundary(cs, needle, b);
        if i <= |cs| { OffsetOrder(cs, i, k); }
      }
      forall j: nat | k < j <= i && j <= |cs|
        ensures !MatchesAt(cs, needle, j)
      {
        OffsetOrder(cs, k, j);
      }
    }
  }

  /** Code point k is one that find_*_of (or, with notOf, find_*_not_of) looks for. */
  predicate Qualifies(cs: Text, matches: Text, notOf: bool, k: nat) {
    k < |cs| && (cs[k] in matches) != notOf
  }

  /** r is the least qualifying code-point index at or after i, or npos. */
  ghost predicate IsFirstOf(cs: Text, matches: Text, notOf: bool, i: nat, r: nat) {
    if r == NPOS then forall k: nat :: i <= k ==> !Qualifies(cs, matches, notOf, k)
    else i <= r && Qualifies(cs, matches, notOf, r) && forall k: nat :: i <= k < r ==> !Qualifies(cs, matches, notOf, k)
  }

  /** r is the greatest qualifying code-point index at or before i, or npos. */
  ghost predicate IsLastOf(cs: Text, matches: Text, notOf: bool, i: nat, r: nat) {
    if r == NPOS then forall k: nat :: k <= i ==> !Qualifies(cs, matches, notOf, k)
    else r <= i && Qualifies(cs, matches, notOf, r) && forall k: nat :: r < k <= i ==> !Qualifies(cs, matches, notOf, k)
  }

  /** Looking for a single code point with find() is looking for a member of a set of one. */
  lemma {:induction false} SingleMatch(cs: Text, c: CodePoint, i: nat, r: nat)
    ensures IsFirstMatch(cs, [c], i, r) <==> IsFirstOf(cs, [c], false, i, r)
    ensures IsLastMatch(cs, [c], i, r) <==> IsLastOf(cs, [c], false, i, r)
  {
    forall k: nat
      ensures MatchesAt(cs, [c], k) <==> Qualifies(cs, [c], false, k)
    {
      if k < |cs| {
        assert [c] <= cs[k..] <==> cs[k..][0] == c;
      }
    }
  }

  // ---- Sets of characters ----------------------------------------------------------------

  /** The part of a match set that is converted: g_utf8_to_ucs4_fast() stops at a NUL, in spite of the length. */
  function UpToNul(ms: Text): Text {
    if ms == [] || ms[0] == 0 then [] else [ms[0]] + UpToNul(ms[1..])
  }

  lemma {:induction false} UpToNulIs(ms: Text, n: nat)
    requires n <= |ms| && 0 !in ms[..n] && (n < |ms| ==> ms[n] == 0)
    ensures UpToNul(ms) == ms[..n]
  {
    if n > 0 {
      assert ms[0] == ms[..n][0];
      assert ms[1..][..n - 1] == ms[..n][1..];
      UpToNulIs(ms[1..], n - 1);
    }
  }

  lemma {:induction false} UpToNulIsAll(ms: Text)
    ensures 0 !in UpToNul(ms)
    ensures UpToNul(ms) == ms <==> 0 !in ms
  {
    if ms != [] && ms[0] != 0 {
      UpToNulIsAll(ms[1..]);
      assert ms == [ms[0]] + ms[1..];
      assert UpToNul(ms)[1..] == UpToNul(ms[1..]);
    }
  }

  /** Searching with the converted part always is searching with the whole set. */
  ghost predicate WholeSetCounts(ms: Text) {
    && (forall cs: Text, notOf: bool, i: nat, r: nat ::
          IsFirstOf(cs, UpToNul(ms), notOf, i, r) <==> IsFirstOf(cs, ms, notOf, i, r))
    && (forall cs: Text, notOf: bool, i: nat, r: nat ::
          IsLastOf(cs, UpToNul(ms), notOf, i, r) <==> IsLastOf(cs, ms, notOf, i, r))
  }

  /** That is the case exactly for the match sets without a NUL. */
  lemma {:induction false} WholeSetCountsIffNoNul(ms: Text)
    ensures WholeSetCounts(ms) <==> 0 !in ms
  {
    UpToNulIsAll(ms);
    if 0 in ms {
      var cs: Text := [0];
      assert Qualifies(cs, ms, false, 0);
      assert forall k: nat :: !Qualifies(cs, UpToNul(ms), false, k);
      assert IsFirstOf(cs, UpToNul(ms), false, 0, NPOS) && !IsFirstOf(cs, ms, false, 0, NPOS);
    }
  }

  /** g_utf8_to_ucs4_fast() */
  method Ucs4(str: seq<Byte>, ghost cs: Text) returns (ucs4: seq<nat>)
    requires Spells(str, cs)
    ensures ucs4 == UpToNul(cs)
  {
    var p: nat := 0;
    ucs4 := [];
    Ends(cs);
    while p < |str| && str[p] != 0
      invariant |ucs4| <= |cs| && ucs4 == cs[..|ucs4|] && 0 !in ucs4 && p == Offset(cs, |ucs4|)
      decreases |cs| - |ucs4|
    {
      NotAtEnd(cs, |ucs4|);
      SkipsToNext(cs, |ucs4|);
      CharAt(cs, |ucs4|);
      AsciiOnly(cs[|ucs4|]);
      var c := GetChar(str, p, cs, |ucs4|);
      assert cs[..|ucs4| + 1] == cs[..|ucs4|] + [cs[|ucs4|]];
      ucs4 := ucs4 + [c];
      p := p + Skip(str[p]);
    }
    if p < |str| {
      NotAtEnd(cs, |ucs4|);
      CharAt(cs, |ucs4|);
      AsciiOnly(cs[|ucs4|]);
    } else {
      AtEnd(cs, |ucs4|);
    }
    UpToNulIs(cs, |ucs4|);
  }

  /** utf8_find_first_of() */
  method Utf8FindFirstOf(str: seq<Byte>, offset: nat, match_: seq<Byte>, notOf: bool, ghost cs: Text, ghost ms: Text)
    returns (r: nat)
    requires Spells(str, cs) && |str| <= MAX_SIZE && Spells(match_, ms) && offset <= NPOS
    ensures IsFirstOf(cs, UpToNul(ms), notOf, offset, r)
    ensures 0 !in ms ==> IsFirstOf(cs, ms, notOf, offset, r)
  {
    LengthBound(cs);
    UpToNulIsAll(ms);
    var p := ByteOffset(str, offset, cs);
    if p == NPOS {
      if offset <= |cs| { OffsetBound(cs, offset); }
      return NPOS;
    }
    var ucs4Match := Ucs4(match_, ms);
    r := offset;
    while p < |str|
      invariant offset <= r <= |cs| && p == Offset(cs, r)
      invariant forall k: nat :: offset <= k < r ==> !Qualifies(cs, UpToNul(ms), notOf, k)
      decreases |cs| - r
    {
      NotAtEnd(cs, r);
      SkipsToNext(cs, r);
      var c := GetChar(str, p, cs, r);
      if (c in ucs4Match) != notOf {
        return r;
      }
      p := p + Skip(str[p]);
      r := r + 1;
    }
    AtEnd(cs, r);
    r := NPOS;
  }

  lemma {:induction false} StartOrTail(cs: Text, k: nat, q: nat)
    requires k < |cs| && Offset(cs, k) <= q < Offset(cs, k + 1)
    ensures q < |EncodeAll(cs)|
    ensures IsContinuation(EncodeAll(cs)[q]) <==> q != Offset(cs, k)
  {
    CharAt(cs, k);
    EncodeShape(cs[k]);
    assert EncodeAll(cs)[q] == EncodeAll(cs)[Offset(cs, k)..][q - Offset(cs, k)];
  }

  /** Byte position p lies behind the first byte of the last of j characters, and not behind its last byte. */
  ghost predicate WalkedTo(cs: Text, p: nat, j: nat) {
    && j <= |cs|
    && p <= Offset(cs, j)
    && (j == 0 || Offset(cs, j - 1) < p)
  }

  lemma {:induction false} AtBoundary(cs: Text, j: nat)
    requires j <= |cs|
    ensures WalkedTo(cs, Offset(cs, j), j) && Offset(cs, j) <= |EncodeAll(cs)|
    ensures Offset(cs, j) == 0 <==> j == 0
  {
    Ends(cs);
    OffsetBound(cs, j);
    if j > 0 {
      SkipsToNext(cs, j - 1);
    }
  }

  /** The backward walk goes from one character start to the one before it. */
  method StepBack(str: seq<Byte>, p: nat, ghost cs: Text, ghost j: nat) returns (q: nat)
    requires Spells(str, cs) && 0 < p && WalkedTo(cs, p, j)
    ensures j > 0 && q == Offset(cs, j - 1) && WalkedTo(cs, q, j - 1)
  {
    Ends(cs);
    OffsetBound(cs, j);
    ghost var k := j - 1;
    q := p - 1;
    StartOrTail(cs, k, q);
    while IsContinuation(str[q])
      invariant Offset(cs, k) <= q < p
      invariant IsContinuation(str[q]) <==> q != Offset(cs, k)
      decreases q
    {
      q := q - 1;
      StartOrTail(cs, k, q);
    }
    AtBoundary(cs, k);
  }

  /** Where the backward walk starts: one byte beyond the first byte of character offset, or at the end. */
  method WalkStart(str: seq<Byte>, offset: nat, ghost cs: Text) returns (p: nat, ghost j: nat)
    requires Spells(str, cs) && |str| <= MAX_SIZE && offset <= NPOS
    ensures WalkedTo(cs, p, j) && p <= |str| && j == (if offset < |cs| then offset + 1 else |cs|)
  {
    LengthBound(cs);
    Ends(cs);
    AtBoundary(cs, |cs|);
    var byteOffset := ByteOffset(str, offset, cs);
    p := if byteOffset < |str| then byteOffset + 1 else |str|;
    j := |cs|;
    if byteOffset < |str| {
      NotAtEnd(cs, offset);
      SkipsToNext(cs, offset);
      j := offset + 1;
    } else if offset <= |cs| {
      AtEnd(cs, offset);
    }
  }

  /** utf8_find_last_of() */
  method Utf8FindLastOf(str: seq<Byte>, offset: nat, match_: seq<Byte>, notOf: bool, ghost cs: Text, ghost ms: Text)
    returns (r: nat)
    requires Spells(str, cs) && |str| <= MAX_SIZE && Spells(match_, ms) && offset <= NPOS
    ensures IsLastOf(cs, UpToNul(ms), notOf, offset, r)
    ensures 0 !in ms ==> IsLastOf(cs, ms, notOf, offset, r)
  {
    var ucs4Match := Ucs4(match_, ms);
    UpToNulIsAll(ms);
    ghost var j: nat;
    var p: nat;
    p, j := WalkStart(str, offset, cs);
    while p > 0
      invariant WalkedTo(cs, p, j)
      invariant forall k: nat :: j <= k <= offset ==> !Qualifies(cs, UpToNul(ms), notOf, k)
      decreases j
    {
      p := StepBack(str, p, cs, j);
      j := j - 1;
      var c := GetChar(str, p, cs, j);
      if (c in ucs4Match) != notOf {
        r := CharOffset(str, p, cs, j);
        LengthBound(cs);
        return;
      }
    }
    r := NPOS;
  }
}

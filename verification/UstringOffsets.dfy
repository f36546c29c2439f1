/** Byte offsets for code-point indices: the helpers at the top of ustring.cc. */
module UstringOffsets {
  import opened Utf8
  import opened Utf8Text
  import opened StdString

  /** The code points that count characters from index i on, clamped to the end, make up. */
  function Range(cs: Text, i: nat, n: nat): Text
    requires i <= |cs|
  {
    cs[i..i + Min(n, |cs| - i)]
  }

  /** The byte form of Range. */
  lemma {:induction false} RangeBytes(cs: Text, i: nat, n: nat)
    requires i <= |cs|
    ensures var j := i + Min(n, |cs| - i);
            Offset(cs, i) <= Offset(cs, j) <= |EncodeAll(cs)|
            && EncodeAll(Range(cs, i, n)) == EncodeAll(cs)[Offset(cs, i)..Offset(cs, j)]
            && EncodeAll(cs[j..]) == EncodeAll(cs)[Offset(cs, j)..]
  {
    var j := i + Min(n, |cs| - i);
    SplitAt(cs, j);
    SplitAt(cs[..j], i);
    assert cs[..j][..i] == cs[..i] && cs[..j][i..] == cs[i..j];
    assert EncodeAll(cs)[Offset(cs, i)..Offset(cs, j)] == EncodeAll(cs)[..Offset(cs, j)][Offset(cs, i)..];
  }

  lemma {:induction false} AtEnd(cs: Text, k: nat)
    requires k <= |cs| && Offset(cs, k) >= |EncodeAll(cs)|
    ensures k == |cs|
  {
    if k < |cs| { SkipsToNext(cs, k); }
  }

  lemma {:induction false} NotAtEnd(cs: Text, k: nat)
    requires k <= |cs| && Offset(cs, k) < |EncodeAll(cs)|
    ensures k < |cs|
  {
    Ends(cs);
  }

  /** utf8_byte_offset() on a std::string. */
  method ByteOffset(str: seq<Byte>, offset: nat, ghost cs: Text) returns (r: nat)
    requires Spells(str, cs) && |str| <= MAX_SIZE && offset <= NPOS
    ensures r == if offset <= |cs| then Offset(cs, offset) else NPOS
    ensures r == NPOS || r <= |str|
  {
    LengthBound(cs);
    if offset <= |cs| { OffsetBound(cs, offset); }
    if offset == NPOS {
      return NPOS;
    }
    var p, left := 0, offset;
    Ends(cs);
    while left != 0
      invariant 0 <= left <= offset && offset - left <= |cs| && p == Offset(cs, offset - left)
      decreases left
    {
      if p >= |str| {
        AtEnd(cs, offset - left);
        return NPOS;
      }
      NotAtEnd(cs, offset - left);
      SkipsToNext(cs, offset - left);
      p := p + Skip(str[p]);
      left := left - 1;
    }
    return p;
  }

  /** Utf8SubstrBounds: byte start and count for a start index and a count of code points. */
  method SubstrBounds(str: seq<Byte>, ci: nat, cn: nat, ghost cs: Text) returns (i: nat, n: nat)
    requires Spells(str, cs) && |str| <= MAX_SIZE && ci <= NPOS && cn <= NPOS
    ensures ci > |cs| ==> i == NPOS
    ensures ci <= |cs| ==> i == Offset(cs, ci) && n == ByteCount(cs, ci, cn)
  {
    i := ByteOffset(str, ci, cs);
    n := NPOS;
    if ci <= |cs| { SplitAt(cs, ci); }
    if i != NPOS {
      n := ByteOffset(str[i..], cn, cs[ci..]);
      if cn <= |cs| - ci {
        OffsetFrom(cs, ci, cn);
      }
    }
  }

  /** The byte count of cn code points from index ci on; npos when there are fewer. */
  function ByteCount(cs: Text, ci: nat, cn: nat): int
    requires ci <= |cs|
  {
    if cn <= |cs| - ci then Offset(cs, ci + cn) - Offset(cs, ci) else NPOS
  }

  lemma {:induction false} ClampedEnd(cs: Text, ci: nat, cn: nat)
    requires ci <= |cs| && |EncodeAll(cs)| <= MAX_SIZE
    ensures var i, n := Offset(cs, ci), ByteCount(cs, ci, cn);
            && 0 <= n && i <= |EncodeAll(cs)|
            && i + Min(n, |EncodeAll(cs)| - i) == Offset(cs, ci + Min(cn, |cs| - ci))
  {
    OffsetBound(cs, ci);
    Ends(cs);
    if cn <= |cs| - ci {
      OffsetFrom(cs, ci, cn);
      OffsetBound(cs, ci + cn);
    }
  }

  /** The byte range that std::string takes for these bounds is that of the clamped code-point range. */
  lemma {:induction false} ClampedBounds(cs: Text, ci: nat, cn: nat)
    requires ci <= |cs| && |EncodeAll(cs)| <= MAX_SIZE
    ensures var s, i, n := EncodeAll(cs), Offset(cs, ci), ByteCount(cs, ci, cn);
            && 0 <= n && i <= |s|
            && s[..i] == EncodeAll(cs[..ci])
            && s[i..i + Min(n, |s| - i)] == EncodeAll(Range(cs, ci, cn))
            && s[i + Min(n, |s| - i)..] == EncodeAll(cs[ci + Min(cn, |cs| - ci)..])
  {
    AroundRange(cs, ci, cn);
    ClampedEnd(cs, ci, cn);
    RangeBytes(cs, ci, cn);
  }

  /** What is in front of the range, and what is behind it. */
  lemma {:induction false} AroundRange(cs: Text, ci: nat, cn: nat)
    requires ci <= |cs| && |EncodeAll(cs)| <= MAX_SIZE
    ensures var s, i, n := EncodeAll(cs), Offset(cs, ci), ByteCount(cs, ci, cn);
            && 0 <= n && i <= |s|
            && s[..i] == EncodeAll(cs[..ci])
            && s[i + Min(n, |s| - i)..] == EncodeAll(cs[ci + Min(cn, |cs| - ci)..])
  {
    ClampedEnd(cs, ci, cn);
    SplitAt(cs, ci);
    SplitAt(cs, ci + Min(cn, |cs| - ci));
  }

  lemma {:induction false} SliceIsRange(cs: Text, ci: nat, cn: nat)
    requires ci <= |cs| && |EncodeAll(cs)| <= MAX_SIZE
    ensures 0 <= ByteCount(cs, ci, cn)
    ensures Slice(EncodeAll(cs), Offset(cs, ci), ByteCount(cs, ci, cn)) == Ok(EncodeAll(Range(cs, ci, cn)))
  {
    ClampedBounds(cs, ci, cn);
  }

  /** g_utf8_pointer_to_offset(): how many characters lie before a byte offset. */
  method CharOffset(str: seq<Byte>, offset: nat, ghost cs: Text, ghost k: nat) returns (r: nat)
    requires Spells(str, cs) && k <= |cs| && offset == Offset(cs, k)
    ensures r == k
  {
    var p := 0;
    r := 0;
    Ends(cs);
    while p < offset
      invariant r <= k && p == Offset(cs, r)
      decreases k - r
    {
      SkipsToNext(cs, r);
      p := p + Skip(str[p]);
      r := r + 1;
    }
    if r < k { OffsetMonotone(cs, r, k); }
  }

  /** Decodes the character with index k, which starts at byte p (g_utf8_get_char() or operator*). */
  method GetChar(str: seq<Byte>, p: nat, ghost cs: Text, ghost k: nat) returns (c: nat)
    requires Spells(str, cs) && k < |cs| && p == Offset(cs, k)
    ensures c == cs[k]
  {
    CharAt(cs, k);
    EncodeDecodes(cs[k]);
    ghost var rounds;
    c, rounds := GetUnichar(str, p, Encode(cs[k]), cs[k]);
  }
}

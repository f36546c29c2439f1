/** Glib::ustring: a byte string whose public operations count code points. */
module Ustring {
  import opened Utf8
  import opened Utf8Text
  import opened StdString
  import opened UstringOffsets
  import opened UstringSearch

  lemma {:induction false} EditedTail(cs: Text, i: nat)
    requires i <= |cs| && |EncodeAll(cs)| <= MAX_SIZE
    ensures Edited(cs, i, NPOS, []) == Ok(cs[..i])
  {
    LengthBound(cs);
    assert cs[..i] + [] + cs[|cs|..] == cs[..i];
    OffsetBound(cs, i);
  }

  lemma {:induction false} EditedEnd(cs: Text, t: Text)
    ensures Edited(cs, |cs|, 0, t) == if |EncodeAll(cs + t)| > MAX_SIZE then LengthError else Ok(cs + t)
  {
    assert cs[..|cs|] + t + cs[|cs|..] == cs + t;
  }

  /** How an editing operation ends: normally or with one of the exceptions of std::string. */
  datatype Status = Done | Thrown(error: Result<()>)

  /** cs with the clamped range of n code points at index i replaced by t, or the exception due. */
  function Edited(cs: Text, i: nat, n: nat, t: Text): Result<Text> {
    if i > |cs| then OutOfRange
    else
      var edited := cs[..i] + t + cs[i + Min(n, |cs| - i)..];
      if |EncodeAll(edited)| > MAX_SIZE then LengthError else Ok(edited)
  }

  /** An operation with the code-point meaning spec took the bytes before to after; a throw changes nothing. */
  ghost predicate Completes(spec: Result<Text>, status: Status, before: seq<Byte>, after: seq<Byte>) {
    match spec
    case Ok(cs) => status.Done? && after == EncodeAll(cs)
    case OutOfRange => status == Thrown(OutOfRange) && after == before
    case LengthError => status == Thrown(LengthError) && after == before
  }

  /** An edit at a valid index fails only if the result would be longer than 2^63 - 1 bytes. */
  lemma {:induction false} EditFits(cs: Text, i: nat, n: nat, t: Text)
    ensures Edited(cs, i, n, t).OutOfRange? <==> i > |cs|
    ensures i <= |cs| && |EncodeAll(cs)| + |EncodeAll(t)| <= 0x7FFF_FFFF_FFFF_FFFF ==>
              Edited(cs, i, n, t) == Ok(cs[..i] + t + (if n < |cs| - i then cs[i + n..] else []))
  {
    if i <= |cs| {
      var k := i + Min(n, |cs| - i);
      EncodeThree(cs[..i], t, cs[k..]);
      PartsAreShorter(cs, i, k);
      assert n >= |cs| - i ==> cs[k..] == [];
    }
  }

  lemma {:induction false} PartsAreShorter(cs: Text, i: nat, k: nat)
    requires i <= k <= |cs|
    ensures |EncodeAll(cs[..i])| + |EncodeAll(cs[k..])| <= |EncodeAll(cs)|
  {
    EncodeThree(cs[..i], cs[i..k], cs[k..]);
    ThreeParts(cs, i, k);
  }

  lemma {:induction false} ThreeParts(cs: Text, i: nat, k: nat)
    requires i <= k <= |cs|
    ensures cs[..i] + cs[i..k] + cs[k..] == cs
  {
    assert cs[..i] + cs[i..k] == cs[..k];
    assert cs[..k] + cs[k..] == cs;
  }

  lemma {:induction false} EncodeThree(a: Text, b: Text, c: Text)
    ensures EncodeAll(a + b + c) == EncodeAll(a) + EncodeAll(b) + EncodeAll(c)
  {
    EncodeAllConcat(a + b, c);
    EncodeAllConcat(a, b);
  }

  /** A byte replacement within the bounds of a code-point range is a code-point replacement. */
  lemma {:induction false} ByteReplace(cs: Text, i: nat, n: nat, t: Text)
    requires i <= |cs| && |EncodeAll(cs)| <= MAX_SIZE
    ensures 0 <= ByteCount(cs, i, n)
    ensures var byBytes := Replace(EncodeAll(cs), Offset(cs, i), ByteCount(cs, i, n), EncodeAll(t));
            match Edited(cs, i, n, t)
            case Ok(edited) => byBytes == Ok(EncodeAll(edited))
            case LengthError => byBytes == LengthError
            case OutOfRange => false
  {
    BytesReplaced(cs, i, n, t, cs[i + Min(n, |cs| - i)..]);
  }

  lemma {:induction false} BytesReplaced(cs: Text, i: nat, n: nat, t: Text, rest: Text)
    requires i <= |cs| && |EncodeAll(cs)| <= MAX_SIZE && rest == cs[i + Min(n, |cs| - i)..]
    ensures 0 <= ByteCount(cs, i, n)
    ensures var edited := EncodeAll(cs[..i] + t + rest);
            Replace(EncodeAll(cs), Offset(cs, i), ByteCount(cs, i, n), EncodeAll(t))
              == if |edited| > MAX_SIZE then LengthError else Ok(edited)
  {
    EncodeThree(cs[..i], t, rest);
    PartsReplaced(cs, i, n, EncodeAll(t), rest);
  }

  lemma {:induction false} PartsReplaced(cs: Text, i: nat, n: nat, t: seq<Byte>, rest: Text)
    requires i <= |cs| && |EncodeAll(cs)| <= MAX_SIZE && rest == cs[i + Min(n, |cs| - i)..]
    ensures 0 <= ByteCount(cs, i, n)
    ensures var edited := EncodeAll(cs[..i]) + t + EncodeAll(rest);
            Replace(EncodeAll(cs), Offset(cs, i), ByteCount(cs, i, n), t)
              == if |edited| > MAX_SIZE then LengthError else Ok(edited)
  {
    AroundRange(cs, i, n);
    ReplaceParts(EncodeAll(cs), Offset(cs, i), ByteCount(cs, i, n), t, EncodeAll(cs[..i]), EncodeAll(rest));
  }

  class UString {
    /** string_ */
    var raw: seq<Byte>

    ghost predicate Valid()
      reads this
    {
      IsUtf8(raw) && |raw| <= MAX_SIZE
    }

    ghost function Chars(): Text
      reads this
      requires Valid()
    {
      Decode(raw)
    }

    constructor (bytes: seq<Byte>, ghost cs: Text)
      requires Spells(bytes, cs) && |bytes| <= MAX_SIZE
      ensures Valid() && raw == bytes && Chars() == cs
    {
      raw := bytes;
      new;
      DecodeEncoded(cs);
    }

    method Size() returns (n: nat)
      requires Valid()
      ensures n == |Chars()|
    {
      Ends(Chars());
      n := CharOffset(raw, |raw|, Chars(), |Chars()|);
    }

    method Substr(i: nat, n: nat) returns (r: Result<seq<Byte>>)
      requires Valid() && i <= NPOS && n <= NPOS
      ensures r == if i > |Chars()| then OutOfRange else Ok(EncodeAll(Range(Chars(), i, n)))
    {
      var bi, bn := SubstrBounds(raw, i, n, Chars());
      if i <= |Chars()| { SliceIsRange(Chars(), i, n); }
      r := Slice(raw, bi, bn);
    }

    method At(i: nat) returns (r: Result<nat>)
      requires Valid() && i <= NPOS
      ensures r == if i < |Chars()| then Ok(Chars()[i]) else OutOfRange
    {
      var p := ByteOffset(raw, i, Chars());
      if i <= |Chars()| { SplitAt(Chars(), i); }
      Ends(Chars());
      if p >= |raw| {
        if i <= |Chars()| { AtEnd(Chars(), i); }
        return OutOfRange;
      }
      NotAtEnd(Chars(), i);
      var c := GetChar(raw, p, Chars(), i);
      r := Ok(c);
    }

    /** Takes over what std::string computed, or passes its exception on. */
    method Store(bytes: Result<seq<Byte>>) returns (status: Status)
      modifies this
      ensures match bytes
              case Ok(b) => status == Done && raw == b
              case OutOfRange => status == Thrown(OutOfRange) && raw == old(raw)
              case LengthError => status == Thrown(LengthError) && raw == old(raw)
    {
      match bytes
      case Ok(b) => raw := b; status := Done;
      case OutOfRange => status := Thrown(OutOfRange);
      case LengthError => status := Thrown(LengthError);
    }

    method Replace(i: nat, n: nat, src: UString) returns (status: Status)
      requires Valid() && src.Valid() && i <= NPOS && n <= NPOS
      modifies this
      ensures Valid()
      ensures Completes(Edited(old(Chars()), i, n, old(src.Chars())), status, old(raw), raw)
    {
      ghost var cs, t := Chars(), src.Chars();
      var bi, bn := SubstrBounds(raw, i, n, cs);
      if i <= |cs| { ByteReplace(cs, i, n, t); }
      status := Store(StdString.Replace(raw, bi, bn, src.raw));
    }

    method ReplaceSub(i: nat, n: nat, src: UString, i2: nat, n2: nat) returns (status: Status)
      requires Valid() && src.Valid() && i <= NPOS && n <= NPOS && i2 <= NPOS && n2 <= NPOS
      modifies this
      ensures Valid()
      ensures i2 > |old(src.Chars())| ==> status == Thrown(OutOfRange) && raw == old(raw)
      ensures i2 <= |old(src.Chars())| ==>
                Completes(Edited(old(Chars()), i, n, Range(old(src.Chars()), i2, n2)), status, old(raw), raw)
    {
      ghost var cs, t := Chars(), src.Chars();
      var bi, bn := SubstrBounds(raw, i, n, cs);
      var bi2, bn2 := SubstrBounds(src.raw, i2, n2, t);
      if i2 <= |t| { SliceIsRange(t, i2, n2); }
      if i <= |cs| && i2 <= |t| { ByteReplace(cs, i, n, Range(t, i2, n2)); }
      var sub := Slice(src.raw, bi2, bn2);
      status := Store(if bi > |raw| || !sub.Ok? then OutOfRange else StdString.Replace(raw, bi, bn, sub.value));
    }

    method Insert(i: nat, src: UString) returns (status: Status)
      requires Valid() && src.Valid() && i <= NPOS
      modifies this
      ensures Valid()
      ensures Completes(Edited(old(Chars()), i, 0, old(src.Chars())), status, old(raw), raw)
    {
      ghost var cs, t := Chars(), src.Chars();
      var bi := ByteOffset(raw, i, cs);
      if i <= |cs| { ByteReplace(cs, i, 0, t); }
      status := Store(StdString.Insert(raw, bi, src.raw));
    }

    method InsertSub(i: nat, src: UString, i2: nat, n: nat) returns (status: Status)
      requires Valid() && src.Valid() && i <= NPOS && i2 <= NPOS && n <= NPOS
      modifies this
      ensures Valid()
      ensures i2 > |old(src.Chars())| ==> status == Thrown(OutOfRange) && raw == old(raw)
      ensures i2 <= |old(src.Chars())| ==>
                Completes(Edited(old(Chars()), i, 0, Range(old(src.Chars()), i2, n)), status, old(raw), raw)
    {
      ghost var cs, t := Chars(), src.Chars();
      var bi2, bn2 := SubstrBounds(src.raw, i2, n, t);
      var bi := ByteOffset(raw, i, cs);
      if i2 <= |t| { SliceIsRange(t, i2, n); }
      if i <= |cs| && i2 <= |t| { ByteReplace(cs, i, 0, Range(t, i2, n)); }
      var sub := Slice(src.raw, bi2, bn2);
      status := Store(if bi > |raw| || !sub.Ok? then OutOfRange else StdString.Insert(raw, bi, sub.value));
    }

    method Erase(i: nat, n: nat) returns (status: Status)
      requires Valid() && i <= NPOS && n <= NPOS
      modifies this
      ensures Valid()
      ensures Completes(Edited(old(Chars()), i, n, []), status, old(raw), raw)
    {
      ghost var cs := Chars();
      var bi, bn := SubstrBounds(raw, i, n, cs);
      if i <= |cs| { ByteReplace(cs, i, n, []); }
      status := Store(StdString.Replace(raw, bi, bn, []));
    }

    /** append(n, uc) */
    method AppendRepeated(n: nat, uc: CodePoint) returns (status: Status)
      requires Valid() && n <= NPOS
      modifies this
      ensures Valid()
      ensures Completes(Edited(old(Chars()), |old(Chars())|, 0, Repeated(n, uc)), status, old(raw), raw)
    {
      ghost var cs := Chars();
      var temp := Repeat(n, uc);
      if temp.LengthError? {
        EditedEnd(cs, Repeated(n, uc));
        EncodeAllConcat(cs, Repeated(n, uc));
        return Thrown(LengthError);
      }
      ByteReplace(cs, |cs|, 0, Repeated(n, uc));
      Ends(cs);
      status := Store(StdString.Insert(raw, |raw|, temp.value));
    }

    method Resize(n: nat, uc: CodePoint) returns (status: Status)
      requires Valid() && n <= NPOS
      modifies this
      ensures Valid()
      ensures Completes(Resized(old(Chars()), n, uc), status, old(raw), raw)
    {
      ghost var cs := Chars();
      var size := Size();
      status := Done;
      if n < size {
        status := Erase(n, NPOS);
        EditedTail(cs, n);
      } else if n > size {
        EditedEnd(cs, Repeated(n - size, uc));
        status := AppendRepeated(n - size, uc);
      } else {
        assert cs[..n] == cs;
      }
    }

    method Find(str: UString, i: nat) returns (r: nat)
      requires Valid() && str.Valid() && i <= NPOS
      ensures IsFirstMatch(Chars(), str.Chars(), i, r)
    {
      r := FindBytes(str.raw, i, str.Chars());
    }

    method Rfind(str: UString, i: nat) returns (r: nat)
      requires Valid() && str.Valid() && i <= NPOS
      ensures IsLastMatch(Chars(), str.Chars(), i, r)
    {
      r := RfindBytes(str.raw, i, str.Chars());
    }

    /** find(), called with the bytes of a needle. */
    method FindBytes(needle: seq<Byte>, i: nat, ghost n: Text) returns (r: nat)
      requires Valid() && Spells(needle, n) && i <= NPOS
      ensures IsFirstMatch(Chars(), n, i, r)
    {
      var from := ByteOffset(raw, i, Chars());
      var b := StdString.Find(raw, needle, from);
      ghost var k := FirstMatch(Chars(), n, i, b);
      if b == NPOS { return NPOS; }
      r := CharOffset(raw, b, Chars(), k);
    }

    /** rfind(), called with the bytes of a needle. */
    method RfindBytes(needle: seq<Byte>, i: nat, ghost n: Text) returns (r: nat)
      requires Valid() && Spells(needle, n) && i <= NPOS
      ensures IsLastMatch(Chars(), n, i, r)
    {
      var from := ByteOffset(raw, i, Chars());
      var b := StdString.Rfind(raw, needle, from);
      ghost var k := LastMatch(Chars(), n, i, b);
      if b == NPOS { return NPOS; }
      r := CharOffset(raw, b, Chars(), k);
    }

    /** find_first_of() and find_first_not_of() with a set of characters. */
    method FindFirst(matches: UString, i: nat, notOf: bool) returns (r: nat)
      requires Valid() && matches.Valid() && i <= NPOS
      ensures IsFirstOf(Chars(), UpToNul(matches.Chars()), notOf, i, r)
      ensures 0 !in matches.Chars() ==> IsFirstOf(Chars(), matches.Chars(), notOf, i, r)
    {
      r := Utf8FindFirstOf(raw, i, matches.raw, notOf, Chars(), matches.Chars());
    }

    /** find_last_of() and find_last_not_of() with a set of characters. */
    method FindLast(matches: UString, i: nat, notOf: bool) returns (r: nat)
      requires Valid() && matches.Valid() && i <= NPOS
      ensures IsLastOf(Chars(), UpToNul(matches.Chars()), notOf, i, r)
      ensures 0 !in matches.Chars() ==> IsLastOf(Chars(), matches.Chars(), notOf, i, r)
    {
      r := Utf8FindLastOf(raw, i, matches.raw, notOf, Chars(), matches.Chars());
    }

    /** find_first_of(uc), which is find(uc) */
    method FindFirstOfChar(uc: CodePoint, i: nat) returns (r: nat)
      requires Valid() && i <= NPOS
      ensures IsFirstOf(Chars(), [uc], false, i, r)
    {
      EncodeOne(uc);
      r := FindBytes(Encode(uc), i, [uc]);
      SingleMatch(Chars(), uc, i, r);
    }

    /** find_last_of(uc), which is rfind(uc) */
    method FindLastOfChar(uc: CodePoint, i: nat) returns (r: nat)
      requires Valid() && i <= NPOS
      ensures IsLastOf(Chars(), [uc], false, i, r)
    {
      EncodeOne(uc);
      r := RfindBytes(Encode(uc), i, [uc]);
      SingleMatch(Chars(), uc, i, r);
    }

    method FindFirstNotOfChar(uc: CodePoint, i: nat) returns (r: nat)
      requires Valid() && i <= NPOS
      ensures IsFirstOf(Chars(), [uc], true, i, r)
    {
      ghost var cs := Chars();
      LengthBound(cs);
      var p := ByteOffset(raw, i, cs);
      if p != NPOS {
        r := i;
        while p < |raw|
          invariant i <= r <= |cs| && p == Offset(cs, r)
          invariant forall k: nat :: i <= k < r ==> !Qualifies(cs, [uc], true, k)
          decreases |cs| - r
        {
          NotAtEnd(cs, r);
          SkipsToNext(cs, r);
          var c := GetChar(raw, p, cs, r);
          if c != uc {
            return r;
          }
          p := p + Skip(raw[p]);
          r := r + 1;
        }
        AtEnd(cs, r);
      } else if i <= |cs| {
        OffsetBound(cs, i);
      }
      r := NPOS;
    }

    method FindLastNotOfChar(uc: CodePoint, i: nat) returns (r: nat)
      requires Valid() && i <= NPOS
      ensures IsLastOf(Chars(), [uc], true, i, r)
    {
      ghost var cs := Chars();
      LengthBound(cs);
      Ends(cs);
      var p, cur := 0, 0;
      r := NPOS;
      while p < |raw| && cur <= i
        invariant 0 <= cur <= |cs| && cur <= i + 1 && p == Offset(cs, cur)
        invariant r == NPOS || r < cur
        invariant if r == NPOS then forall k: nat :: k < cur ==> !Qualifies(cs, [uc], true, k)
                  else Qualifies(cs, [uc], true, r) && forall k: nat :: r < k < cur ==> !Qualifies(cs, [uc], true, k)
        decreases |cs| - cur
      {
        NotAtEnd(cs, cur);
        SkipsToNext(cs, cur);
        var c := GetChar(raw, p, cs, cur);
        if c != uc {
          r := cur;
        }
        p := p + Skip(raw[p]);
        cur := cur + 1;
      }
      if p >= |raw| { AtEnd(cs, cur); }
    }
  }

  function Repeated(n: nat, uc: CodePoint): Text {
    seq(n, _ => uc)
  }

  lemma {:induction false} RepeatedLength(n: nat, uc: CodePoint)
    ensures |EncodeAll(Repeated(n, uc))| == n * |Encode(uc)|
  {
    if n > 0 {
      assert Repeated(n, uc)[1..] == Repeated(n - 1, uc);
      RepeatedLength(n - 1, uc);
    }
  }

  /** The constructor ustring(n, uc), with its short cut for ASCII characters. */
  method Repeat(n: nat, uc: CodePoint) returns (r: Result<seq<Byte>>)
    ensures r == if |EncodeAll(Repeated(n, uc))| > MAX_SIZE then LengthError else Ok(EncodeAll(Repeated(n, uc)))
  {
    RepeatedLength(n, uc);
    if uc < 0x80 {
      AsciiRepeated(n, uc);
      return if n > MAX_SIZE then LengthError else Ok(seq(n, _ => uc));
    }
    var conv := Encode(uc);
    if n * |conv| > MAX_SIZE {
      return LengthError;
    }
    var bytes := [];
    for done := 0 to n
      invariant bytes == EncodeAll(Repeated(done, uc))
    {
      assert Repeated(done + 1, uc) == Repeated(done, uc) + [uc];
      EncodeAllConcat(Repeated(done, uc), [uc]);
      EncodeOne(uc);
      bytes := bytes + conv;
    }
    r := Ok(bytes);
  }

  lemma {:induction false} AsciiRepeated(n: nat, uc: CodePoint)
    requires uc < 0x80
    ensures EncodeAll(Repeated(n, uc)) == Repeated(n, uc)
  {
    if n > 0 {
      assert Repeated(n, uc)[1..] == Repeated(n - 1, uc);
      AsciiRepeated(n - 1, uc);
      assert Encode(uc) == [uc];
    }
  }

  function Resized(cs: Text, n: nat, uc: CodePoint): Result<Text> {
    if n <= |cs| then Ok(cs[..n])
    else if |EncodeAll(cs + Repeated(n - |cs|, uc))| > MAX_SIZE then LengthError
    else Ok(cs + Repeated(n - |cs|, uc))
  }
}

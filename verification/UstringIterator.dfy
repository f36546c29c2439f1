/** Glib::ustring_Iterator, and building a string from code points. */
module UstringIterator {
  import opened Utf8
  import opened Utf8Text
  import opened UstringOffsets
  import opened UstringSearch

  // ---- Moving by bytes -------------------------------------------------------------------

  /** Where ++ goes from a byte position. */
  function Forward(text: seq<Byte>, pos: nat): nat
    requires pos < |text|
  {
    pos + Skip(text[pos])
  }

  /** Where -- goes from a byte position, in a text with a character start before it. */
  function Backward(text: seq<Byte>, pos: nat): nat
    requires 0 < pos <= |text|
  {
    if pos == 1 || !IsContinuation(text[pos - 1]) then pos - 1 else Backward(text, pos - 1)
  }

  /** From anywhere behind the first byte of a character, and not behind its end, -- goes to that byte. */
  lemma {:induction false} BackwardToStart(cs: Text, k: nat, pos: nat)
    requires k < |cs| && Offset(cs, k) < pos <= Offset(cs, k + 1)
    ensures pos <= |EncodeAll(cs)| && Backward(EncodeAll(cs), pos) == Offset(cs, k)
    decreases pos
  {
    StartOrTail(cs, k, pos - 1);
    if pos - 1 > Offset(cs, k) {
      BackwardToStart(cs, k, pos - 1);
    }
  }

  /** -- undoes ++ at every character ... */
  lemma {:induction false} BackwardUndoesForward(cs: Text, k: nat)
    requires k < |cs|
    ensures var text, pos := EncodeAll(cs), Offset(cs, k);
            pos < |text| && 0 < Forward(text, pos) <= |text| && Backward(text, Forward(text, pos)) == pos
  {
    SkipsToNext(cs, k);
    BackwardToStart(cs, k, Offset(cs, k + 1));
  }

  /** ... and ++ undoes -- behind every character. */
  lemma {:induction false} ForwardUndoesBackward(cs: Text, k: nat)
    requires 0 < k <= |cs|
    ensures var text, pos := EncodeAll(cs), Offset(cs, k);
            0 < pos <= |text| && Backward(text, pos) < |text| && Forward(text, Backward(text, pos)) == pos
  {
    SkipsToNext(cs, k - 1);
    BackwardToStart(cs, k - 1, Offset(cs, k));
  }

  // ---- The iterator ----------------------------------------------------------------------

  class Iterator {
    /** The bytes iterated over, and the code points they stand for. */
    const text: seq<Byte>
    ghost const cs: Text
    /** pos_, and the index of the code point there. */
    var pos: nat
    ghost var index: nat

    ghost predicate Valid()
      reads this
    {
      text == EncodeAll(cs) && index <= |cs| && pos == Offset(cs, index)
    }

    constructor Begin(text: seq<Byte>, ghost cs: Text)
      requires Spells(text, cs)
      ensures Valid() && this.text == text && this.cs == cs && index == 0 && pos == 0
    {
      Ends(cs);
      this.text := text;
      this.cs := cs;
      pos := 0;
      index := 0;
    }

    /** operator* */
    method Deref() returns (c: nat)
      requires Valid() && index < |cs|
      ensures c == cs[index]
    {
      c := GetChar(text, pos, cs, index);
    }

    /** operator++ */
    method Increment()
      requires Valid() && index < |cs|
      modifies this
      ensures Valid() && index == old(index) + 1
      ensures old(pos) < |text| && pos == Forward(text, old(pos))
    {
      SkipsToNext(cs, index);
      pos := pos + Skip(text[pos]);
      index := index + 1;
    }

    /** operator-- */
    method Decrement()
      requires Valid() && index > 0
      modifies this
      ensures Valid() && index == old(index) - 1
      ensures 0 < old(pos) <= |text| && pos == Backward(text, old(pos))
    {
      AtBoundary(cs, index);
      BackwardToStart(cs, index - 1, pos);
      ghost var j := index;
      StartOrTail(cs, j - 1, pos - 1);
      pos := pos - 1;
      while IsContinuation(text[pos])
        invariant index == j == old(index)
        invariant Offset(cs, j - 1) <= pos < Offset(cs, j)
        invariant IsContinuation(text[pos]) <==> pos != Offset(cs, j - 1)
        decreases pos
      {
        pos := pos - 1;
        StartOrTail(cs, j - 1, pos);
      }
      index := index - 1;
    }
  }

  /** SequenceToString<In, gunichar> */
  method FromCodePoints(cs: Text) returns (s: seq<Byte>)
    ensures s == EncodeAll(cs)
  {
    s := [];
    for i := 0 to |cs|
      invariant s == EncodeAll(cs[..i])
    {
      assert cs[..i + 1] == cs[..i] + [cs[i]];
      EncodeAllConcat(cs[..i], [cs[i]]);
      EncodeOne(cs[i]);
      s := s + Encode(cs[i]);
    }
    assert cs[..|cs|] == cs;
  }

  /** Walking over the bytes with * and ++ until end() gives the code points that they stand for. */
  method IterateAll(text: seq<Byte>, ghost cs: Text) returns (result: seq<nat>)
    requires Spells(text, cs)
    ensures result == cs
  {
    var it := new Iterator.Begin(text, cs);
    result := [];
    Ends(cs);
    while it.pos != |text|
      invariant it.Valid() && it.text == text && it.cs == cs && |result| == it.index
      invariant result == cs[..it.index]
      invariant fresh(it)
      decreases |cs| - it.index
    {
      var c := it.Deref();
      assert cs[..it.index + 1] == cs[..it.index] + [cs[it.index]];
      result := result + [c];
      it.Increment();
    }
    AtEnd(cs, it.index);
    assert cs[..|cs|] == cs;
  }
}

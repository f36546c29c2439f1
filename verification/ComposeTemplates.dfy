/** What a format string of Glib::ustring::compose() means, piece by piece. */
module ComposeTemplates {
  import opened Utf8
  import opened Utf8Text
  import opened Compose

  /** A character, %%, %1 to %9 with an argument to it, or % before any other character. */
  datatype Piece = Plain(c: CodePoint) | Percent | Argument(i: nat) | Invalid(c: CodePoint)

  predicate GoodPiece(p: Piece, args: seq<Text>) {
    match p
    case Plain(c) => c != 0 && c != 0x25
    case Percent => true
    case Argument(i) => i < 9 && i < |args|
    case Invalid(c) => c != 0 && c != 0x25 && !(0x31 <= c <= 0x39 && c - 0x31 < |args|)
  }

  function PieceText(p: Piece, args: seq<Text>): Text
    requires GoodPiece(p, args)
  {
    match p
    case Plain(c) => [c]
    case Percent => [0x25, 0x25]
    case Argument(i) => [0x25, 0x31 + i]
    case Invalid(c) => [0x25, c]
  }

  function PieceMeaning(p: Piece, args: seq<Text>): Text
    requires GoodPiece(p, args)
  {
    match p
    case Plain(c) => [c]
    case Percent => [0x25]
    case Argument(i) => args[i]
    case Invalid(c) => [0x25, c]
  }

  predicate AllGood(ps: seq<Piece>, args: seq<Text>) {
    forall p :: p in ps ==> GoodPiece(p, args)
  }

  function Written(ps: seq<Piece>, args: seq<Text>): Text
    requires AllGood(ps, args)
  {
    if ps == [] then [] else PieceText(ps[0], args) + Written(ps[1..], args)
  }

  function Meaning(ps: seq<Piece>, args: seq<Text>): Text
    requires AllGood(ps, args)
  {
    if ps == [] then [] else PieceMeaning(ps[0], args) + Meaning(ps[1..], args)
  }

  /** Where the pieces end: at the end, or at a NUL with anything behind it; perhaps after a % by itself. */
  predicate IsEnd(end: Text) {
    || end == [] || end[0] == 0
    || (end[0] == 0x25 && (|end| == 1 || end[1] == 0))
  }

  lemma {:induction false} EndStays(end: Text, args: seq<Text>)
    requires IsEnd(end)
    ensures Expand(end, args) == end
  {
    if end != [] && end[0] == 0x25 {
      assert end == [end[0]] + end[1..];
    }
  }

  lemma {:induction false} PieceExpands(p: Piece, rest: Text, args: seq<Text>)
    requires GoodPiece(p, args)
    ensures Expand(PieceText(p, args) + rest, args) == PieceMeaning(p, args) + Expand(rest, args)
  {
    var f := PieceText(p, args) + rest;
    assert f[|PieceText(p, args)|..] == rest;
  }

  /** A format that is made of these pieces is expanded to what they mean. */
  lemma {:induction false} TemplateExpands(ps: seq<Piece>, end: Text, args: seq<Text>)
    requires AllGood(ps, args) && IsEnd(end)
    ensures Expand(Written(ps, args) + end, args) == Meaning(ps, args) + end
  {
    if ps == [] {
      assert [] + end == end;
      EndStays(end, args);
    } else {
      var rest := Written(ps[1..], args) + end;
      assert ps[0] in ps && forall p :: p in ps[1..] ==> p in ps;
      PieceExpands(ps[0], rest, args);
      TemplateExpands(ps[1..], end, args);
      Associate(PieceText(ps[0], args), Written(ps[1..], args), end);
      Associate(PieceMeaning(ps[0], args), Meaning(ps[1..], args), end);
    }
  }

  lemma {:induction false} Associate(a: Text, b: Text, c: Text)
    ensures a + b + c == a + (b + c)
  {
  }

  /** And every format is. */
  lemma {:induction false} EveryFormatIsTemplate(f: Text, args: seq<Text>) returns (ps: seq<Piece>, end: Text)
    ensures AllGood(ps, args) && IsEnd(end) && f == Written(ps, args) + end
    decreases |f|
  {
    if IsEnd(f) {
      ps, end := [], f;
      assert [] + f == f;
    } else {
      var p := FirstPiece(f, args);
      var n := |PieceText(p, args)|;
      var more;
      more, end := EveryFormatIsTemplate(f[n..], args);
      ps := [p] + more;
      assert ps[1..] == more;
      Associate(PieceText(p, args), Written(more, args), end);
    }
  }

  lemma {:induction false} FirstPiece(f: Text, args: seq<Text>) returns (p: Piece)
    requires !IsEnd(f)
    ensures GoodPiece(p, args) && PieceText(p, args) <= f && f == PieceText(p, args) + f[|PieceText(p, args)|..]
  {
    if f[0] != 0x25 {
      p := Plain(f[0]);
    } else if f[1] == 0x25 {
      p := Percent;
    } else if 0x31 <= f[1] <= 0x39 && f[1] - 0x31 < |args| {
      p := Argument(f[1] - 0x31);
    } else {
      p := Invalid(f[1]);
    }
  }
}

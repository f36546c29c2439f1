/** What Glib::ustring relies on of std::string, on the bytes it holds. */
module StdString {

  const NPOS: nat := 0xFFFF_FFFF_FFFF_FFFF

  /** The length that std::string refuses to exceed. */
  const MAX_SIZE: nat := 0x7FFF_FFFF_FFFF_FFFF

  datatype Result<+T> = Ok(value: T) | OutOfRange | LengthError

  function Min(a: nat, b: nat): (r: nat)
    ensures r <= a && r <= b && (r == a || r == b)
  {
    if a < b then a else b
  }

  /** assign(src, i, n): the n elements from i on, or those that are left. */
  function Slice<T>(s: seq<T>, i: nat, n: nat): Result<seq<T>> {
    if i > |s| then OutOfRange else Ok(s[i..i + Min(n, |s| - i)])
  }

  function Replace<T>(s: seq<T>, i: nat, n: nat, t: seq<T>): Result<seq<T>> {
    if i > |s| then OutOfRange
    else if |s| - Min(n, |s| - i) + |t| > MAX_SIZE then LengthError
    else Ok(s[..i] + t + s[i + Min(n, |s| - i)..])
  }

  /** Replace in terms of the part a before the range and the part r behind it. */
  lemma {:induction false} ReplaceParts<T>(s: seq<T>, i: nat, n: nat, t: seq<T>, a: seq<T>, r: seq<T>)
    requires i <= |s| && s[..i] == a && s[i + Min(n, |s| - i)..] == r
    ensures Replace(s, i, n, t) == if |a + t + r| > MAX_SIZE then LengthError else Ok(a + t + r)
  {
  }

  function Insert<T>(s: seq<T>, i: nat, t: seq<T>): Result<seq<T>> {
    Replace(s, i, 0, t)
  }

  predicate MatchesAt<T(==)>(s: seq<T>, t: seq<T>, k: nat) {
    k <= |s| && t <= s[k..]
  }

  /** The elements of t are those of s from k on. */
  lemma {:induction false} MatchesMeans<T>(s: seq<T>, t: seq<T>, k: nat)
    ensures MatchesAt(s, t, k) <==> k + |t| <= |s| && forall j :: 0 <= j < |t| ==> s[k + j] == t[j]
  {
    if k + |t| <= |s| && forall j :: 0 <= j < |t| ==> s[k + j] == t[j] {
      assert t == s[k..][..|t|];
    }
    if MatchesAt(s, t, k) {
      assert forall j :: 0 <= j < |t| ==> t[j] == s[k..][j];
    }
  }

  /** find(t, from): the least position at or after from where t occurs. */
  function Find<T(==)>(s: seq<T>, t: seq<T>, from: nat): (r: nat)
    requires |s| < NPOS
    ensures r != NPOS ==> from <= r && MatchesAt(s, t, r) && forall k :: from <= k < r ==> !MatchesAt(s, t, k)
    ensures r == NPOS ==> forall k: nat :: from <= k ==> !MatchesAt(s, t, k)
    decreases |s| + 1 - Min(from, |s| + 1)
  {
    if from > |s| then NPOS
    else if MatchesAt(s, t, from) then from
    else Find(s, t, from + 1)
  }

  /** rfind(t, from): the greatest position at or before from where t occurs. */
  function Rfind<T(==)>(s: seq<T>, t: seq<T>, from: nat): (r: nat)
    requires |s| < NPOS
    ensures r != NPOS ==> r <= from && MatchesAt(s, t, r) && forall k: nat :: r < k <= from ==> !MatchesAt(s, t, k)
    ensures r == NPOS ==> forall k: nat :: k <= from ==> !MatchesAt(s, t, k)
  {
    var last := Min(from, |s|);
    if MatchesAt(s, t, last) then last
    else if last == 0 then NPOS
    else Rfind(s, t, last - 1)
  }
}

/**
  * The UTF-8 encoding as Glib::ustring uses it: one to six bytes for every code point below
  * 2^31 (section 2 of RFC 2279; section 3 of RFC 3629 is the part up to four bytes).
  * The bit operations of the source are written as arithmetic on naturals: x << k as a
  * product, x >> k as a quotient, x & (2^k - 1) as a remainder, x & 2^k as a parity.
  */
module Utf8 {

  type Byte = b: int | 0 <= b < 0x100

  /** A gunichar below 2^31, the range that g_unichar_to_utf8() can encode. */
  type CodePoint = c: int | 0 <= c < 0x8000_0000

  const TWO_TO_THE_32 := 0x1_0000_0000

  /** The continuation byte for the six low bits of c. */
  function Tail(c: nat): Byte {
    0x80 + c % 0x40
  }

  /** The least code points with one, two, ... and seven bytes. */
  const LIMITS: seq<nat> := [0, 0x80, 0x800, 0x1_0000, 0x20_0000, 0x400_0000, 0x8000_0000]

  /** The number of bytes of c. */
  function Length(c: CodePoint): (n: nat)
    ensures 1 <= n <= 6 && LIMITS[n - 1] <= c < LIMITS[n]
  {
    if c < 0x80 then 1
    else if c < 0x800 then 2
    else if c < 0x1_0000 then 3
    else if c < 0x20_0000 then 4
    else if c < 0x400_0000 then 5
    else 6
  }

  /** 64^k, for dropping the last k groups of six bits. */
  const POWERS: seq<nat> := [1, 0x40, 0x1000, 0x4_0000, 0x100_0000, 0x4000_0000]

  /** The length marks of the first byte, by number of bytes, shifted by 6 * k in 32 bits. */
  const MARKS: seq<seq<nat>> := [
    [], [0x0],
    [0xc0, 0x3000],
    [0xe0, 0x3800, 0xe0000],
    [0xf0, 0x3c00, 0xf0000, 0x3c00000],
    [0xf8, 0x3e00, 0xf8000, 0x3e00000, 0xf8000000],
    [0xfc, 0x3f00, 0xfc000, 0x3f00000, 0xfc000000, 0x0]
  ]

  /** The continuation bytes for the last n groups of six bits of c. */
  function Tails(c: nat, n: nat): (bytes: seq<Byte>)
    ensures |bytes| == n
  {
    if n == 0 then [] else Tails(c / 0x40, n - 1) + [Tail(c)]
  }

  lemma {:induction false} LeadIsByte(c: CodePoint)
    ensures MARKS[Length(c)][0] + c / POWERS[Length(c) - 1] < 0x100
  {
  }

  /** What g_unichar_to_utf8() writes for one code point. */
  function Encode(c: CodePoint): (bytes: seq<Byte>)
    ensures |bytes| == Length(c)
  {
    LeadIsByte(c);
    [MARKS[Length(c)][0] + c / POWERS[Length(c) - 1]] + Tails(c, Length(c) - 1)
  }

  /** The table g_utf8_skip: how far to step from a byte to the next character. */
  function Skip(b: Byte): (n: nat)
    ensures 1 <= n <= 6
  {
    if b < 0xC0 then 1
    else if b < 0xE0 then 2
    else if b < 0xF0 then 3
    else if b < 0xF8 then 4
    else if b < 0xFC then 5
    else if b < 0xFE then 6
    else 1
  }

  /** The test (b & 0xC0) == 0x80. */
  predicate IsContinuation(b: Byte) {
    b / 0x40 == 2
  }

  /**
    * The first byte of a character, and no other byte of it, is not a continuation byte, and
    * that byte alone gives the number of bytes.
    */
  lemma {:induction false} EncodeShape(c: CodePoint)
    ensures |Encode(c)| == Skip(Encode(c)[0])
    ensures !IsContinuation(Encode(c)[0])
    ensures forall k :: 0 < k < |Encode(c)| ==> IsContinuation(Encode(c)[k])
  {
    var n := Length(c);
    LeadShape(c, n);
    forall k | 0 < k < n
      ensures IsContinuation(Encode(c)[k])
    {
      TailsAt(c, n - 1, k - 1);
    }
  }

  lemma {:induction false} LeadShape(c: CodePoint, n: nat)
    requires n == Length(c)
    ensures var b := MARKS[n][0] + c / POWERS[n - 1]; b < 0x100 && Skip(b) == n && !IsContinuation(b)
  {
  }

  lemma {:induction false} TailsAt(c: nat, n: nat, k: nat)
    requires k < n <= 5
    ensures Tails(c, n)[k] == Tail(c / POWERS[n - 1 - k])
  {
    if k < n - 1 {
      TailsAt(c / 0x40, n - 1, k);
      Quotient(c, n - 2 - k);
    }
  }

  lemma {:induction false} Quotient(c: nat, j: nat)
    requires j < 5
    ensures (c / POWERS[j]) / 0x40 == c / POWERS[j + 1] == (c / 0x40) / POWERS[j]
  {
  }

  /** One round of the decoding loop, with 32-bit wrap-around. */
  function Push(result: nat, b: Byte): nat {
    (result * 0x40 % TWO_TO_THE_32 + (b + TWO_TO_THE_32 - 0x80) % TWO_TO_THE_32) % TWO_TO_THE_32
  }

  /** The mask of the decoding loop after k rounds. */
  const MASKS: seq<nat> := [0x40, 0x800, 0x1_0000, 0x20_0000, 0x400_0000, 0x8000_0000]

  /** The test (result & mask) != 0, for a mask with a single bit. */
  predicate HasBit(result: nat, mask: nat)
    requires mask > 0
  {
    result / mask % 2 == 1
  }

  /** The loop of the decoder, about to begin round k + 1 at byte k of e, delivers c at the end of e. */
  ghost predicate LoopDelivers(e: seq<Byte>, k: nat, result: nat, c: nat)
    decreases |e| - k
  {
    && k + 1 < |e| <= 6
    && var next := Push(result, e[k + 1]);
    if HasBit(next, MASKS[k + 1])
    then LoopDelivers(e, k + 1, next, c)
    else k + 2 == |e| && next % MASKS[k + 1] == c
  }

  /** The decoder, started at the first byte of e, stops behind the last one with c. */
  ghost predicate DecodesTo(e: seq<Byte>, c: nat) {
    && e != []
    && if HasBit(e[0], 0x80) then LoopDelivers(e, 0, e[0], c) else |e| == 1 && e[0] == c
  }

  /** The accumulator after k rounds, for a code point of n bytes. */
  function Accumulated(c: CodePoint, n: nat, k: nat): nat
    requires 2 <= n <= 6 && k < n
  {
    MARKS[n][k] + c / POWERS[n - 1 - k]
  }

  lemma {:induction false} EncodeAt(c: CodePoint, n: nat, k: nat)
    requires n == Length(c) && 0 < k < n
    ensures Encode(c)[0] == Accumulated(c, n, 0)
    ensures Encode(c)[k] == Tail(c / POWERS[n - 1 - k])
  {
    TailsAt(c, n - 1, k - 1);
  }

  lemma {:induction false} PushTail(mark: nat, next: nat, y: nat)
    requires mark * 0x40 % TWO_TO_THE_32 == next && next + y < TWO_TO_THE_32
    ensures Push(mark + y / 0x40, Tail(y)) == next + y
  {
    var r := mark + y / 0x40;
    var q := mark * 0x40 / TWO_TO_THE_32;
    assert r * 0x40 == q * TWO_TO_THE_32 + (next + y - y % 0x40);
    assert r * 0x40 % TWO_TO_THE_32 == next + y - y % 0x40;
  }

  lemma {:induction false} AccumulatedStep(c: CodePoint, n: nat, k: nat)
    requires n == Length(c) && 0 < k < n
    ensures Push(Accumulated(c, n, k - 1), Encode(c)[k]) == Accumulated(c, n, k)
  {
    EncodeAt(c, n, k);
    var y := c / POWERS[n - 1 - k];
    Quotient(c, n - 1 - k);
    MarkStep(n, k);
    Bounds(c, n, k);
    PushTail(MARKS[n][k - 1], MARKS[n][k], y);
  }

  lemma {:induction false} MarkStep(n: nat, k: nat)
    requires 2 <= n <= 6 && 0 < k < n
    ensures MARKS[n][k - 1] * 0x40 % TWO_TO_THE_32 == MARKS[n][k]
  {
  }

  lemma {:induction false} BoundsIn(c: CodePoint, n: nat, k: nat)
    requires 2 <= n <= 6 && LIMITS[n - 1] <= c < LIMITS[n] && 0 < k < n
    ensures Accumulated(c, n, k) < TWO_TO_THE_32
    ensures k == n - 1 ==> Accumulated(c, n, k) % MASKS[k] == c && !HasBit(Accumulated(c, n, k), MASKS[k])
  {
    var m, d, p := MARKS[n][k], POWERS[n - 1 - k], MASKS[k];
    if k == n - 1 {
      assert d == 1 && m % (2 * p) == 0 && c < p;
    }
  }

  lemma {:induction false} BitBeforeLast(c: CodePoint, n: nat, k: nat)
    requires 2 <= n <= 6 && LIMITS[n - 1] <= c < LIMITS[n] && 0 < k < n - 1
    ensures HasBit(Accumulated(c, n, k), MASKS[k])
  {
    var m, p, y := MARKS[n][k], MASKS[k], c / POWERS[n - 1 - k];
    assert p <= m % (2 * p) && m % (2 * p) + y < 2 * p;
  }

  lemma {:induction false} Bounds(c: CodePoint, n: nat, k: nat)
    requires n == Length(c) && 0 < k < n
    ensures Accumulated(c, n, k) < TWO_TO_THE_32
    ensures HasBit(Accumulated(c, n, k), MASKS[k]) <==> k < n - 1
    ensures k == n - 1 ==> Accumulated(c, n, k) % MASKS[k] == c
  {
    BoundsIn(c, n, k);
    if k < n - 1 {
      BitBeforeLast(c, n, k);
    }
  }

  lemma {:induction false} LoopFrom(c: CodePoint, k: nat)
    requires k + 1 < |Encode(c)|
    ensures LoopDelivers(Encode(c), k, Accumulated(c, |Encode(c)|, k), c)
    decreases |Encode(c)| - k
  {
    var n := |Encode(c)|;
    AccumulatedStep(c, n, k + 1);
    Bounds(c, n, k + 1);
    if k + 2 < n {
      LoopFrom(c, k + 1);
    }
  }

  lemma {:induction false} FirstRound(c: CodePoint, n: nat)
    requires n == Length(c)
    ensures HasBit(MARKS[n][0] + c / POWERS[n - 1], 0x80) <==> n > 1
  {
  }

  /** The decoding loop inverts Encode, for every code point below 2^31 and in 32 bits. */
  lemma {:induction false} EncodeDecodes(c: CodePoint)
    ensures DecodesTo(Encode(c), c)
  {
    var n := Length(c);
    FirstRound(c, n);
    if n > 1 {
      EncodeAt(c, n, 1);
      LoopFrom(c, 0);
    }
  }

  // ---- The table -------------------------------------------------------------------------

  /** The bytes of every code point, by the rows of the table: one to three bytes ... */
  lemma {:induction false} ShortRows(c: CodePoint)
    ensures c < 0x80 ==> Encode(c) == [c]
    ensures 0x80 <= c < 0x800 ==> Encode(c) == [0xC0 + c / 0x40, 0x80 + c % 0x40]
    ensures 0x800 <= c < 0x1_0000 ==>
              Encode(c) == [0xE0 + c / 0x1000, 0x80 + c / 0x40 % 0x40, 0x80 + c % 0x40]
  {
    TailsFrom(c);
  }

  /** ... and four to six bytes. */
  lemma {:induction false} LongRows(c: CodePoint)
    ensures 0x1_0000 <= c < 0x20_0000 ==>
              Encode(c) == [0xF0 + c / 0x4_0000, 0x80 + c / 0x1000 % 0x40, 0x80 + c / 0x40 % 0x40, 0x80 + c % 0x40]
    ensures 0x20_0000 <= c < 0x400_0000 ==>
              Encode(c) == [0xF8 + c / 0x100_0000, 0x80 + c / 0x4_0000 % 0x40, 0x80 + c / 0x1000 % 0x40,
                            0x80 + c / 0x40 % 0x40, 0x80 + c % 0x40]
    ensures 0x400_0000 <= c ==>
              Encode(c) == [0xFC + c / 0x4000_0000, 0x80 + c / 0x100_0000 % 0x40, 0x80 + c / 0x4_0000 % 0x40,
                            0x80 + c / 0x1000 % 0x40, 0x80 + c / 0x40 % 0x40, 0x80 + c % 0x40]
  {
    TailsFrom(c);
  }

  lemma {:induction false} TailsFrom(c: CodePoint)
    ensures forall k :: 0 < k < |Encode(c)| ==> Encode(c)[k] == 0x80 + c / POWERS[|Encode(c)| - 1 - k] % 0x40
  {
    var n := Length(c);
    forall k | 0 < k < n
      ensures Encode(c)[k] == 0x80 + c / POWERS[n - 1 - k] % 0x40
    {
      TailsAt(c, n - 1, k - 1);
    }
  }

  /** What the loop delivers from that many bytes has no more bits than they can hold. */
  lemma {:induction false} DeliveredFits(e: seq<Byte>, k: nat, result: nat, c: nat)
    requires LoopDelivers(e, k, result, c)
    ensures 2 <= |e| <= 6 && c < MASKS[|e| - 1]
    decreases |e| - k
  {
    var next := Push(result, e[k + 1]);
    if HasBit(next, MASKS[k + 1]) {
      DeliveredFits(e, k + 1, next, c);
    }
  }

  /** The encoding is the shortest string of bytes that is decoded to the code point. */
  lemma {:induction false} ShortestEncoding(e: seq<Byte>, c: CodePoint)
    requires DecodesTo(e, c)
    ensures |e| >= |Encode(c)|
  {
    if HasBit(e[0], 0x80) {
      DeliveredFits(e, 0, e[0], c);
      assert MASKS[|e| - 1] <= LIMITS[|e|];
    } else {
      assert e[0] < 0x80;
    }
  }

  lemma {:induction false} LoopDeliversOne(e: seq<Byte>, k: nat, result: nat, c: nat, d: nat)
    requires LoopDelivers(e, k, result, c) && LoopDelivers(e, k, result, d)
    ensures c == d
    decreases |e| - k
  {
    var next := Push(result, e[k + 1]);
    if HasBit(next, MASKS[k + 1]) {
      LoopDeliversOne(e, k + 1, next, c, d);
    }
  }

  lemma {:induction false} EncodeInjective(c: CodePoint, d: CodePoint)
    requires Encode(c) == Encode(d)
    ensures c == d
  {
    var e := Encode(c);
    EncodeDecodes(c);
    EncodeDecodes(d);
    if HasBit(e[0], 0x80) {
      LoopDeliversOne(e, 0, e[0], c, d);
    }
  }

  lemma {:induction false} MaskStep(k: nat)
    requires k < 5
    ensures MASKS[k] * 0x20 % TWO_TO_THE_32 == MASKS[k + 1]
  {
  }

  /**
    * get_unichar_from_std_iterator(), where s holds the bytes e of one character from position
    * pos on. The loop makes one round for every byte of the character after the first one.
    */
  method GetUnichar(s: seq<Byte>, pos: nat, ghost e: seq<Byte>, ghost c: nat)
    returns (result: nat, ghost rounds: nat)
    requires pos <= |s| && e <= s[pos..] && DecodesTo(e, c)
    ensures result == c
    ensures rounds == |e| - 1
  {
    assert forall k :: 0 <= k < |e| ==> s[pos + k] == e[k];
    var p := pos;
    rounds := 0;
    result := s[p];
    if HasBit(result, 0x80) {
      var mask := 0x40;
      while true
        invariant p == pos + rounds && rounds < 5 && mask == MASKS[rounds]
        invariant LoopDelivers(e, rounds, result, c)
        decreases |e| - rounds
      {
        MaskStep(rounds);
        result := result * 0x40 % TWO_TO_THE_32;
        p := p + 1;
        var byte := s[p];
        mask := mask * 0x20 % TWO_TO_THE_32;
        result := (result + (byte + TWO_TO_THE_32 - 0x80) % TWO_TO_THE_32) % TWO_TO_THE_32;
        rounds := rounds + 1;
        if !HasBit(result, mask) { break; }
      }
      result := result % mask;
    }
  }
}

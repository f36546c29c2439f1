/**
  * fdstreambuf: a stream buffer over a channel, with a buffer of two characters that is there
  * for one peek and one putback. It has to deliver what the channel produces, in order.
  */
module FdStreamBuf {
  import opened Wrappers

  // ---- The channel -----------------------------------------------------------------------

  /** Everything in these pieces. */
  function Flatten(pieces: seq<string>): string {
    if pieces == [] then "" else pieces[0] + Flatten(pieces[1..])
  }

  /** How many characters a read of this many gives; none at the end, or at an empty piece. */
  function Given(pieces: seq<string>, count: nat): nat {
    if pieces == [] then 0 else if count < |pieces[0]| then count else |pieces[0]|
  }

  /** The pieces that are left. */
  function After(pieces: seq<string>, count: nat): seq<string> {
    if pieces == [] then []
    else if count < |pieces[0]| then [pieces[0][count..]] + pieces[1..]
    else pieces[1..]
  }

  lemma {:induction false} ReadTakesPrefix(pieces: seq<string>, count: nat)
    ensures Given(pieces, count) <= |Flatten(pieces)|
    ensures Flatten(pieces) == Flatten(pieces)[..Given(pieces, count)] + Flatten(After(pieces, count))
    ensures pieces != [] ==> Flatten(pieces)[..Given(pieces, count)] == pieces[0][..Given(pieces, count)]
  {
    if pieces != [] && count < |pieces[0]| {
      var p, rest := pieces[0], pieces[1..];
      assert After(pieces, count) == [p[count..]] + rest && ([p[count..]] + rest)[1..] == rest;
      assert p == p[..count] + p[count..];
      assert Flatten(pieces)[..count] == p[..count];
    }
  }

  /** Glib::IOChannel, with the pieces that its reads will find; a piece may be read in parts. */
  class IOChannel {
    var pieces: seq<string>

    constructor (pieces: seq<string>)
      ensures this.pieces == pieces
    {
      this.pieces := pieces;
    }

    ghost function Rest(): string
      reads this
    {
      Flatten(pieces)
    }

    /** read(), of at most this many characters, to this position. */
    method Read(dest: array<char>, at: nat, count: nat) returns (result: nat)
      requires at + count <= dest.Length
      modifies this, dest
      ensures result == Given(old(pieces), count) <= count && pieces == After(old(pieces), count)
      ensures result <= |old(Rest())| && old(Rest()) == old(Rest())[..result] + Rest()
      ensures dest[..at + result] == old(dest[..at]) + old(Rest())[..result]
      ensures forall j :: at + result <= j < dest.Length ==> dest[j] == old(dest[j])
    {
      ReadTakesPrefix(pieces, count);
      result := 0;
      if pieces != [] {
        var piece := pieces[0];
        result := if count < |piece| then count else |piece|;
        Copy(dest, at, piece[..result]);
        pieces := if count < |piece| then [piece[count..]] + pieces[1..] else pieces[1..];
      }
    }
  }

  /** traits_type::copy() */
  method Copy(dest: array<char>, at: nat, source: string)
    requires at + |source| <= dest.Length
    modifies dest
    ensures dest[..at + |source|] == old(dest[..at]) + source
    ensures forall j :: at + |source| <= j < dest.Length ==> dest[j] == old(dest[j])
  {
    for i := 0 to |source|
      invariant forall j :: 0 <= j < i ==> dest[at + j] == source[j]
      invariant forall j :: 0 <= j < at || at + i <= j < dest.Length ==> dest[j] == old(dest[j])
    {
      dest[at + i] := source[i];
    }
    ghost var was := old(dest[..at]);
    forall j | 0 <= j < at + |source|
      ensures dest[j] == (was + source)[j]
    {
      assert j >= at ==> dest[at + (j - at)] == source[j - at];
    }
  }

  // ---- What xsgetn() reads ---------------------------------------------------------------

  /** The loop of xsgetn(): it goes on only if the read gave less than what is still missing. */
  function LoopReads(pieces: seq<string>, want: nat): (n: nat)
    ensures n <= want
    decreases want
  {
    var result := Given(pieces, want);
    if result > 0 && result < want - result then result + LoopReads(After(pieces, want), want - result) else result
  }

  /** Reading on until there is nothing missing or nothing more. */
  function AllReads(pieces: seq<string>, want: nat): (n: nat)
    ensures n <= want
    decreases want
  {
    var result := Given(pieces, want);
    if result > 0 && result < want then result + AllReads(After(pieces, want), want - result) else result
  }

  /** A read gives half or more of what is asked for, but not all, and there would have been more. */
  ghost predicate StopsShort(pieces: seq<string>, want: nat)
    decreases want
  {
    var result, rest := Given(pieces, want), After(pieces, want);
    0 < result < want
    && if result < want - result then StopsShort(rest, want - result) else Given(rest, want - result) > 0
  }

  /** So the loop reads all there is for it exactly if no read is like that. */
  lemma {:induction false} LoopReadsAll(pieces: seq<string>, want: nat)
    ensures LoopReads(pieces, want) <= AllReads(pieces, want)
    ensures LoopReads(pieces, want) == AllReads(pieces, want) <==> !StopsShort(pieces, want)
    decreases want
  {
    var result := Given(pieces, want);
    if 0 < result < want {
      LoopReadsAll(After(pieces, want), want - result);
    }
  }

  /**
    * It does happen: ten characters are wanted, and come as six and four. As the channel is buffered, this takes a
    * descriptor that does not block.
    */
  lemma {:induction false} ShortRead()
    ensures LoopReads(["abcdef", "ghij"], 10) == 6 && AllReads(["abcdef", "ghij"], 10) == 10
  {
    assert After(["abcdef", "ghij"], 10) == ["ghij"];
  }

  // ---- The buffer ------------------------------------------------------------------------

  /** The characters that were read and not delivered. */
  function AheadIn(buffer: string, gptr: nat, egptr: nat): (ahead: string)
    requires gptr <= egptr <= |buffer| == 2
    ensures ahead == buffer[gptr..egptr]
  {
    if gptr == egptr then "" else if gptr + 1 == egptr then [buffer[gptr]] else buffer
  }

  /** What was delivered, what is ahead and what the channel still has are what there was in all, in this order. */
  ghost predicate Conserved(delivered: string, ahead: string, rest: string, produced: string) {
    delivered + ahead + rest == produced
  }

  /** The character before the bump position is the one delivered last. */
  ghost predicate LastBehind(buffer: string, eback: nat, gptr: nat, delivered: string)
    requires gptr <= |buffer|
  {
    delivered != [] ==> gptr > eback && buffer[gptr - 1] == delivered[|delivered| - 1]
  }

  class StreamBuf {
    const channel: IOChannel
    const putbackBuffer: array<char>
    var eback: nat
    var gptr: nat
    var egptr: nat
    /** All that the channel has had to give, what was delivered of it, and whether one was put back since. */
    ghost const produced: string
    ghost var delivered: string
    ghost var putBack: bool

    function Ahead(): string
      reads this, putbackBuffer
      requires gptr <= egptr <= putbackBuffer.Length == 2
    {
      AheadIn(putbackBuffer[..], gptr, egptr)
    }

    /** The pointers are inside the buffer, with one character ahead at most, or two after a putback. */
    ghost predicate Pointers()
      reads this
    {
      && putbackBuffer.Length == 2
      && eback <= gptr <= egptr <= 2
      && (egptr == 2 || eback == gptr == egptr == 1)
      && (if putBack then gptr < egptr else egptr <= gptr + 1)
    }

    ghost predicate Valid()
      reads this, putbackBuffer, channel
    {
      && Pointers()
      && Conserved(delivered, Ahead(), channel.Rest(), produced)
      && (!putBack ==> LastBehind(putbackBuffer[..], eback, gptr, delivered))
    }

    /** fdstreambuf(), with reset(), on a channel. */
    constructor (channel: IOChannel)
      ensures Valid() && fresh(putbackBuffer) && this.channel == channel
      ensures delivered == [] && !putBack && eback == gptr && produced == channel.Rest()
    {
      this.channel := channel;
      putbackBuffer := new char[2];
      eback, gptr, egptr := 1, 1, 1;
      delivered, putBack, produced := [], false, channel.Rest();
      new;
      assert [] + channel.Rest() == channel.Rest();
    }

    /** underflow(): the next character, which is not delivered by this. */
    method Underflow() returns (c: Option<char>)
      requires Valid()
      modifies `eback, `gptr, `egptr, putbackBuffer, channel
      ensures Valid()
      ensures c.Some? ==> gptr < egptr && Ahead()[0] == c.value && NextIs(delivered, c.value, produced)
      ensures old(gptr == egptr)
          ==> if c.Some? then eback == 0 && gptr == 1 else eback == old(eback) && gptr == egptr == old(gptr)
      ensures c.None? <==> old(gptr == egptr) && Given(old(channel.pieces), 1) == 0
    {
      if gptr < egptr {
        c := Some(putbackBuffer[gptr]);
        AheadIsNext(delivered, Ahead(), channel.Rest(), produced);
        return;
      }
      if gptr > eback {
        putbackBuffer[0] := putbackBuffer[gptr - 1];
      }
      c := Fetch();
    }

    /** The rest of underflow(), once the character in bump position was copied to putback position. */
    method Fetch() returns (c: Option<char>)
      requires Pointers() && gptr == egptr && !putBack && Conserved(delivered, "", channel.Rest(), produced)
      requires LastBehind(putbackBuffer[..], eback, gptr, delivered) && LastBehind(putbackBuffer[..], 0, 1, delivered)
      modifies `eback, `gptr, `egptr, putbackBuffer, channel
      ensures Valid()
      ensures c.Some? ==> gptr < egptr && Ahead()[0] == c.value && NextIs(delivered, c.value, produced)
      ensures if c.Some? then eback == 0 && gptr == 1 else eback == old(eback) && gptr == egptr == old(gptr)
      ensures c.None? <==> Given(old(channel.pieces), 1) == 0
    {
      ghost var rest, first := channel.Rest(), putbackBuffer[0];
      var result := channel.Read(putbackBuffer, 1, 1);
      assert putbackBuffer[0] == putbackBuffer[..1 + result][0] == first;
      if result == 0 {
        assert rest == channel.Rest();
        return None;
      }
      assert putbackBuffer[1] == putbackBuffer[..2][1] == rest[..1][0];
      eback, gptr, egptr := 0, 1, 2;
      c := Some(putbackBuffer[gptr]);
      FetchConserves(delivered, c.value, rest, channel.Rest(), produced);
      AheadIsNext(delivered, [c.value], channel.Rest(), produced);
    }

    /** sgetc(): peek. */
    method Sgetc() returns (c: Option<char>)
      requires Valid()
      modifies `eback, `gptr, `egptr, putbackBuffer, channel
      ensures Valid()
      ensures c.Some? ==> gptr < egptr && Ahead()[0] == c.value && NextIs(delivered, c.value, produced)
      ensures old(gptr == egptr)
          ==> if c.Some? then eback == 0 && gptr == 1 else eback == old(eback) && gptr == egptr == old(gptr)
      ensures c.None? <==> old(gptr == egptr) && Given(old(channel.pieces), 1) == 0
    {
      if gptr < egptr {
        AheadIsNext(delivered, Ahead(), channel.Rest(), produced);
        c := Some(putbackBuffer[gptr]);
      } else {
        c := Underflow();
      }
    }

    /** sbumpc(), with uflow(): the next character is delivered. */
    method Sbumpc() returns (c: Option<char>)
      requires Valid()
      modifies this, putbackBuffer, channel
      ensures Valid()
      ensures c.Some? ==> delivered == old(delivered) + [c.value] && !putBack
      ensures c.None? ==> delivered == old(delivered)
      ensures c.None? <==> old(gptr == egptr) && Given(old(channel.pieces), 1) == 0
    {
      c := Sgetc();
      if c.Some? {
        Gbump(1);
      }
    }

    /** gbump(): characters that were read ahead are delivered. */
    method Gbump(n: nat)
      requires Valid() && n <= egptr - gptr
      modifies `gptr, `delivered, `putBack
      ensures Valid() && delivered == old(delivered) + old(Ahead()[..n])
      ensures n > 0 ==> !putBack
    {
      ghost var ahead := Ahead();
      gptr := gptr + n;
      BumpConserves(delivered, ahead, n, channel.Rest(), produced);
      assert Ahead() == ahead[n..];
      assert n > 0 ==> LastBehind(putbackBuffer[..], eback, gptr, delivered + ahead[..n]);
      assert n == 0 ==> delivered + ahead[..n] == delivered;
      delivered, putBack := delivered + ahead[..n], putBack && n == 0;
    }

    /** sungetc(): one character is put back. */
    method Sungetc() returns (c: Option<char>)
      requires Valid() && !putBack && delivered != []
      modifies `gptr, `delivered, `putBack
      ensures Valid() && putBack
      ensures c == Some(old(delivered[|delivered| - 1])) && delivered == old(delivered[..|delivered| - 1])
    {
      if gptr == eback { return None; }
      UnbumpConserves(delivered, Ahead(), channel.Rest(), produced);
      gptr := gptr - 1;
      c := Some(putbackBuffer[gptr]);
      delivered, putBack := delivered[..|delivered| - 1], true;
    }

    /** xsgetn(): the characters ahead, and then what the loop reads. */
    method Xsgetn(dest: array<char>, num: nat) returns (charsRead: nat)
      requires Valid() && num <= dest.Length && dest != putbackBuffer
      modifies this, putbackBuffer, channel, dest
      ensures Valid() && charsRead <= num
      ensures delivered == old(delivered) + dest[..charsRead]
      ensures charsRead
          == if num <= |old(Ahead())| then num
             else |old(Ahead())| + LoopReads(old(channel.pieces), num - |old(Ahead())|)
      ensures charsRead > 0 ==> !putBack
    {
      var available := egptr - gptr;
      if num <= available {
        Copy(dest, 0, Ahead()[..num]);
        Gbump(num);
        charsRead := num;
      } else {
        charsRead := CopyAndRead(dest, num);
      }
    }

    /** The branch of xsgetn() for more characters than there are ahead. */
    method CopyAndRead(dest: array<char>, num: nat) returns (charsRead: nat)
      requires Valid() && egptr - gptr < num <= dest.Length && dest != putbackBuffer
      modifies this, putbackBuffer, channel, dest
      ensures Valid() && charsRead <= num
      ensures delivered == old(delivered) + dest[..charsRead]
      ensures charsRead == |old(Ahead())| + LoopReads(old(channel.pieces), num - |old(Ahead())|)
      ensures charsRead > 0 ==> !putBack
    {
      charsRead := Gather(dest, num);
      if charsRead > 0 {
        Keep(dest, charsRead);
      }
    }

    /** The characters ahead, and those that the loop reads, in the destination. */
    method Gather(dest: array<char>, num: nat) returns (charsRead: nat)
      requires Valid() && egptr - gptr < num <= dest.Length && dest != putbackBuffer
      modifies channel, dest
      ensures charsRead == |old(Ahead())| + LoopReads(old(channel.pieces), num - |old(Ahead())|) <= num
      ensures Conserved(delivered, dest[..charsRead], channel.Rest(), produced)
      ensures charsRead == 0 ==> Valid()
    {
      var available := egptr - gptr;
      Copy(dest, 0, Ahead());
      assert [] + Ahead() == Ahead();
      charsRead := ReadMore(dest, available, num);
    }

    /** The loop of xsgetn(), behind the characters that are in the destination already. */
    method ReadMore(dest: array<char>, start: nat, num: nat) returns (charsRead: nat)
      requires start < num <= dest.Length && Conserved(delivered, dest[..start], channel.Rest(), produced)
      modifies channel, dest
      ensures charsRead == start + LoopReads(old(channel.pieces), num - start) <= num
      ensures Conserved(delivered, dest[..charsRead], channel.Rest(), produced)
      ensures charsRead == start ==> dest[..charsRead] == old(dest[..start])
      ensures charsRead == start ==> channel.Rest() == old(channel.Rest())
    {
      charsRead := start;
      var again := true;
      while again
        invariant start <= charsRead <= num && (again ==> charsRead < num)
        invariant LoopReads(old(channel.pieces), num - start)
               == charsRead - start + (if again then LoopReads(channel.pieces, num - charsRead) else 0)
        invariant Conserved(delivered, dest[..charsRead], channel.Rest(), produced)
        invariant charsRead == start ==>
                    dest[..charsRead] == old(dest[..start]) && channel.Rest() == old(channel.Rest())
        decreases num - charsRead, again
      {
        var result := ReadOnce(dest, charsRead, num - charsRead);
        if result > 0 {
          charsRead := charsRead + result;
        }
        again := result > 0 && result < num - charsRead;
      }
    }

    method ReadOnce(dest: array<char>, at: nat, count: nat) returns (result: nat)
      requires at + count <= dest.Length && Conserved(delivered, dest[..at], channel.Rest(), produced)
      modifies channel, dest
      ensures result == Given(old(channel.pieces), count) <= count
          && channel.pieces == After(old(channel.pieces), count)
      ensures Conserved(delivered, dest[..at + result], channel.Rest(), produced)
      ensures result == 0 ==> dest[..at] == old(dest[..at]) && channel.Rest() == old(channel.Rest())
    {
      ghost var before, rest := dest[..at], channel.Rest();
      result := channel.Read(dest, at, count);
      ReadConserves(delivered, before, rest[..result], rest, channel.Rest(), produced);
      assert result == 0 ==> before + rest[..result] == before && rest == channel.Rest();
    }

    /** Extraction of these characters by xsgetn(): the buffer keeps the last ones for a putback. */
    method Keep(dest: array<char>, charsRead: nat)
      requires Pointers() && 0 < charsRead <= dest.Length && dest != putbackBuffer
      requires Conserved(delivered, dest[..charsRead], channel.Rest(), produced)
      modifies `eback, `gptr, `egptr, `delivered, `putBack, putbackBuffer
      ensures Valid() && !putBack && gptr == egptr && delivered == old(delivered) + dest[..charsRead]
      ensures charsRead >= 2 ==> eback == 0 && putbackBuffer[0] == dest[charsRead - 2]
      ensures charsRead == 1 && old(gptr > eback) ==> eback == 0 && putbackBuffer[0] == old(putbackBuffer[gptr - 1])
    {
      var putbackCount: nat := 0;
      if charsRead >= 2 {
        putbackBuffer[0] := dest[charsRead - 2];
        putbackCount := 2;
      } else if gptr > eback {
        putbackBuffer[0] := putbackBuffer[gptr - 1];
        putbackCount := 2;
      } else {
        putbackCount := 1;
      }
      putbackBuffer[1] := dest[charsRead - 1];
      eback, gptr, egptr := 2 - putbackCount, 2, 2;
      AllConserves(delivered, dest[..charsRead], channel.Rest(), produced);
      delivered, putBack := delivered + dest[..charsRead], false;
    }
  }

  /** The next character to be delivered. */
  ghost predicate NextIs(delivered: string, c: char, produced: string) {
    |delivered| < |produced| && produced[..|delivered|] == delivered && produced[|delivered|] == c
  }

  /** What is delivered is always a prefix of what the channel produces. */
  lemma {:induction false} DeliveredIsPrefix(delivered: string, ahead: string, rest: string, produced: string)
    requires Conserved(delivered, ahead, rest, produced)
    ensures delivered <= produced
  {
  }

  lemma {:induction false} AheadIsNext(delivered: string, ahead: string, rest: string, produced: string)
    requires Conserved(delivered, ahead, rest, produced) && ahead != ""
    ensures NextIs(delivered, ahead[0], produced)
  {
  }

  lemma {:induction false} FetchConserves(delivered: string, c: char, rest: string, after: string, produced: string)
    requires Conserved(delivered, "", rest, produced) && |rest| > 0 && rest == rest[..1] + after && c == rest[0]
    ensures Conserved(delivered, [c], after, produced)
  {
    assert rest[..1] == [c];
    assert delivered + "" == delivered && delivered + ([c] + after) == delivered + [c] + after;
  }

  lemma {:induction false} BumpConserves(delivered: string, ahead: string, n: nat, rest: string, produced: string)
    requires Conserved(delivered, ahead, rest, produced) && n <= |ahead|
    ensures Conserved(delivered + ahead[..n], ahead[n..], rest, produced)
  {
    assert ahead == ahead[..n] + ahead[n..];
    assert delivered + (ahead[..n] + ahead[n..]) == delivered + ahead[..n] + ahead[n..];
  }

  lemma {:induction false} UnbumpConserves(delivered: string, ahead: string, rest: string, produced: string)
    requires Conserved(delivered, ahead, rest, produced) && delivered != ""
    ensures var n := |delivered| - 1; Conserved(delivered[..n], [delivered[n]] + ahead, rest, produced)
  {
    var n := |delivered| - 1;
    assert delivered == delivered[..n] + [delivered[n]];
    assert delivered[..n] + ([delivered[n]] + ahead) == delivered[..n] + [delivered[n]] + ahead;
  }

  lemma {:induction false} ReadConserves(delivered: string, got: string, more: string, rest: string, after: string,
                                         produced: string)
    requires Conserved(delivered, got, rest, produced) && rest == more + after
    ensures Conserved(delivered, got + more, after, produced)
  {
    assert delivered + got + (more + after) == delivered + (got + more) + after;
  }

  lemma {:induction false} AllConserves(delivered: string, got: string, rest: string, produced: string)
    requires Conserved(delivered, got, rest, produced)
    ensures Conserved(delivered + got, "", rest, produced)
  {
    assert delivered + got + "" == delivered + got;
  }

  /**
    * A peek before anything was delivered leaves room for a putback all the same, of a
    * character that never came from the channel: this is why Sungetc() asks for a delivery.
    */
  method FirstPeek(channel: IOChannel) returns (buf: StreamBuf, c: Option<char>)
    modifies channel
    ensures buf.Valid() && buf.delivered == []
    ensures c.Some? <==> buf.gptr > buf.eback
    ensures c.Some? <==> Given(old(channel.pieces), 1) > 0
  {
    buf := new StreamBuf(channel);
    c := buf.Sgetc();
  }
}

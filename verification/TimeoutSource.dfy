/** Glib::TimeoutSource: an expiration time in microseconds and the checks the main loop makes. */
module TimeoutSource {

  const G_MAXINT := 0x7FFF_FFFF
  const G_MAXUINT := 0xFFFF_FFFF

  /** Times that g_get_monotonic_time() can return, far from the end of the range of gint64. */
  const TIME_LIMIT := 0x4000_0000_0000_0000

  predicate IsTime(t: int) {
    0 <= t < TIME_LIMIT
  }

  predicate FitsInt64(t: int) {
    -0x8000_0000_0000_0000 <= t < 0x8000_0000_0000_0000
  }

  /** ms2us() */
  function Ms2us(ms: nat): nat {
    ms * 1000
  }

  function Least(a: int, b: int): (r: int)
    ensures r <= a && r <= b && (r == a || r == b)
  {
    if a < b then a else b
  }

  class TimeoutSource {
    const interval: nat
    var expiration: int

    /** The last time the source was armed, and how often prepare() had to reset the expiration. */
    ghost var armed: int
    ghost var resets: nat

    ghost function View(): State
      reads this
    {
      State(interval, armed, resets)
    }

    ghost predicate Valid()
      reads this
    {
      interval <= G_MAXUINT && IsTime(armed) && expiration == armed + Ms2us(interval) && FitsInt64(expiration)
    }

    constructor (interval: nat, now: int)
      requires interval <= G_MAXUINT && IsTime(now)
      ensures Valid() && this.interval == interval && armed == now && resets == 0
      ensures expiration == now + interval * 1000
    {
      this.interval := interval;
      expiration := now + Ms2us(interval);
      armed := now;
      resets := 0;
    }

    /** prepare(); the clock is read once, or twice when the expiration is reset. */
    method Prepare(now: int, now2: int) returns (ready: bool, timeout: int)
      requires Valid() && IsTime(now) && IsTime(now2)
      modifies this
      ensures Valid()
      ensures 0 <= timeout <= G_MAXINT
      ensures ready <==> timeout == 0
      ensures View() == Step(old(View()), Prepared(now, now2)) && ready == Ready(old(View()), Prepared(now, now2))
      // The deadline is not moved unless it is more than an interval away ...
      ensures now >= old(armed) ==> expiration == old(expiration) && armed == old(armed) && resets == old(resets)
      ensures now < old(armed) ==> armed == now2 && resets == old(resets) + 1
      // ... and afterwards it is at most an interval away from the clock reading that counts, and the
      // main loop may sleep up to then, in whole milliseconds.
      ensures var at := if now < old(armed) then now2 else now;
              && expiration <= at + interval * 1000
              && timeout == (if expiration <= at then 0 else Least((expiration - at) / 1000, 0x7FFF_FFFF))
    {
      var remaining := expiration - now;
      assert FitsInt64(remaining);
      if remaining <= 0 {
        timeout := 0;
      } else {
        timeout := Least(G_MAXINT, remaining / 1000);
        if remaining > Ms2us(interval) {
          expiration := now2 + Ms2us(interval);
          armed := now2;
          resets := resets + 1;
          timeout := Least(G_MAXINT, interval);
        }
      }
      ready := timeout == 0;
    }

    method Check(now: int) returns (ready: bool)
      requires Valid() && IsTime(now)
      ensures ready <==> now >= armed + interval * 1000
      ensures ready == Ready(View(), Checked(now))
    {
      ready := expiration <= now;
    }

    /** dispatch(), after the slot returned whether to go on. */
    method Dispatch(again: bool, now: int) returns (r: bool)
      requires Valid() && IsTime(now)
      modifies this
      ensures Valid() && r == again && resets == old(resets)
      ensures View() == Step(old(View()), Dispatched(now, again))
      ensures again ==> armed == now && expiration == now + interval * 1000
      ensures !again ==> armed == old(armed) && expiration == old(expiration)
    {
      if again {
        expiration := now + Ms2us(interval);
        armed := now;
      }
      r := again;
    }

    /** Any sequence of calls does what the model of it says. */
    method Run(calls: seq<Call>) returns (readies: seq<bool>)
      requires Valid() && forall i :: 0 <= i < |calls| ==> TimesFit(calls[i])
      modifies this
      ensures Valid() && View() == After(old(View()), calls)
      ensures |readies| == |calls| && forall i :: 0 <= i < |calls| ==> readies[i] == ReadsReady(old(View()), calls, i)
    {
      readies := [];
      for i := 0 to |calls|
        invariant Valid() && View() == After(old(View()), calls[..i]) && |readies| == i
        invariant forall k :: 0 <= k < i ==> readies[k] == ReadsReady(old(View()), calls, k)
      {
        AfterSnoc(old(View()), calls[..i], calls[i]);
        assert calls[..i + 1] == calls[..i] + [calls[i]];
        var ready := false;
        match calls[i] {
          case Prepared(now, now2) =>
            var timeout;
            ready, timeout := Prepare(now, now2);
          case Checked(now) =>
            ready := Check(now);
          case Dispatched(now, again) =>
            var _ := Dispatch(again, now);
        }
        readies := readies + [ready];
      }
      assert calls[..|calls|] == calls;
    }
  }

  // ---- Runs ------------------------------------------------------------------------------

  /** A call by the main loop, with the times that it reads: the second one only if it resets the deadline. */
  datatype Call = Prepared(now: int, now2: int) | Checked(now: int) | Dispatched(now: int, again: bool)

  /** The interval, when the source was armed last, and how often prepare() had to do that. */
  datatype State = State(interval: nat, armed: int, resets: nat) {
    function Deadline(): int {
      armed + Ms2us(interval)
    }
  }

  predicate TimesFit(c: Call) {
    IsTime(c.now) && (c.Prepared? ==> IsTime(c.now2))
  }

  function Step(s: State, c: Call): State {
    match c
    case Prepared(now, now2) => if now < s.armed then s.(armed := now2, resets := s.resets + 1) else s
    case Checked(_) => s
    case Dispatched(now, again) => if again then s.(armed := now) else s
  }

  /** What prepare() and check() report. */
  predicate Ready(s: State, c: Call) {
    match c
    case Prepared(now, _) => if now < s.armed then s.interval == 0 else s.Deadline() - now < 1000
    case Checked(now) => s.Deadline() <= now
    case Dispatched(_, _) => false
  }

  function After(s: State, calls: seq<Call>): State
    decreases |calls|
  {
    if calls == [] then s else After(Step(s, calls[0]), calls[1..])
  }

  predicate ReadsReady(s: State, calls: seq<Call>, i: nat)
    requires i < |calls|
  {
    Ready(After(s, calls[..i]), calls[i])
  }

  lemma {:induction false} AfterSnoc(s: State, calls: seq<Call>, c: Call)
    ensures After(s, calls + [c]) == Step(After(s, calls), c)
    decreases |calls|
  {
    if calls == [] {
      assert ([] + [c])[1..] == [];
    } else {
      assert (calls + [c])[1..] == calls[1..] + [c];
      AfterSnoc(Step(s, calls[0]), calls[1..], c);
    }
  }

  /** The clock never goes back: not from call to call, and not within one. */
  predicate Monotone(start: int, calls: seq<Call>)
    decreases |calls|
  {
    calls == [] ||
    (&& start <= calls[0].now && (calls[0].Prepared? ==> calls[0].now <= calls[0].now2)
     && Monotone(if calls[0].Prepared? then calls[0].now2 else calls[0].now, calls[1..]))
  }

  /** Then the time of arming is never in the future, and the deadline is never reset. */
  lemma {:induction false} ArmedInThePast(s: State, start: int, calls: seq<Call>, i: nat)
    requires s.armed <= start && Monotone(start, calls) && i < |calls|
    ensures var t := After(s, calls[..i]);
            t.interval == s.interval && t.resets == s.resets && t.armed <= calls[i].now
    decreases |calls|
  {
    if i > 0 {
      var t := Step(s, calls[0]);
      ArmedInThePast(t, if calls[0].Prepared? then calls[0].now2 else calls[0].now, calls[1..], i - 1);
      assert calls[..i][1..] == calls[1..][..i - 1];
    }
  }

  /**
    * In every run under such a clock, a call that reads ready comes more than interval - 1 ms after
    * the source was armed last, and no call resets the deadline.
    */
  lemma {:induction false} ReadyAfterInterval(s: State, start: int, calls: seq<Call>, i: nat)
    requires s.armed <= start && Monotone(start, calls) && i < |calls|
    ensures ReadsReady(s, calls, i) ==> calls[i].now - After(s, calls[..i]).armed > s.interval * 1000 - 1000
    ensures After(s, calls[..i + 1]).resets == s.resets
  {
    ArmedInThePast(s, start, calls, i);
    AfterSnoc(s, calls[..i], calls[i]);
    assert calls[..i + 1] == calls[..i] + [calls[i]];
  }

  /** In any run at all, after prepare() the deadline is at most one interval away. */
  lemma {:induction false} DeadlineIsNear(s: State, calls: seq<Call>, i: nat)
    requires i < |calls| && calls[i].Prepared?
    ensures var t, c := After(s, calls[..i + 1]), calls[i];
            t.Deadline() - s.interval * 1000 <= (if c.now < After(s, calls[..i]).armed then c.now2 else c.now)
  {
    AfterSnoc(s, calls[..i], calls[i]);
    assert calls[..i + 1] == calls[..i] + [calls[i]];
    IntervalKept(s, calls[..i + 1]);
  }

  lemma {:induction false} IntervalKept(s: State, calls: seq<Call>)
    ensures After(s, calls).interval == s.interval
    decreases |calls|
  {
    if calls != [] {
      IntervalKept(Step(s, calls[0]), calls[1..]);
    }
  }
}

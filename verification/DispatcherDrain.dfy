/** Letting the receiver of Glib::Dispatcher finish what it is in, and its handler run, when nobody sends any more. */
module DispatcherDrain {
  import opened Wrappers
  import opened DispatcherProtocol
  import opened DispatcherRuns
  import opened DispatcherDelivery
  import opened DispatcherNested
  import opened DispatcherNotifiers

  /** The receiver is back in its main loop. */
  predicate AtRest(w: World) {
    InLoop(w) && w.emissions == []
  }

  /** With the pipe empty and no handler open, no orphan is left. */
  lemma {:induction false} NoOrphansAtRest(w: World)
    requires Inv(w) && AtRest(w) && w.pipe == []
    ensures w.orphaned == []
  {
  }

  /** A state of a run that obeys both usage rules. */
  ghost predicate Orderly(w: World) {
    Inv(w) && SafePipe(w) && NoneStale(w) && !w.misled
  }

  /** A step that the receiver makes by itself when slots do nothing: of a handler or of a destructor. */
  predicate ByReceiver(e: Event) {
    ByHandler(e) || ByDestructor(e) || e.Unreference?
  }

  /** The receiver takes w to t on its own. */
  ghost predicate Handles(w: World, es: seq<Event>, t: World) {
    && (forall e :: e in es ==> ByReceiver(e))
    && CanRun(w, es) && After(w, es) == t
    && Orderly(t) && t.live == w.live && t.sent == w.sent
  }

  lemma {:induction false} ReceiverKeepsTargets(w: World, e: Event)
    requires Enabled(w, e) && ByReceiver(e)
    ensures Apply(w, e).live == w.live && Apply(w, e).sent == w.sent
  {
  }

  lemma {:induction false} OrderlyKept(w: World, e: Event)
    requires Orderly(w) && Enabled(w, e) && OwnsNone(w, e) && Obeys(w, e)
    ensures Orderly(Apply(w, e))
  {
    assert Inv(Apply(w, e)) by { InvKept(w, e); }
    assert SafePipe(Apply(w, e)) by { SafePipeKept(w, e); }
    assert NoneStale(Apply(w, e)) by { ObedientStep(w, e); }
    NotMisled(w, e);
  }

  lemma {:induction false} NotMisled(w: World, e: Event)
    requires SafePipe(w) && !w.misled && Enabled(w, e)
    ensures !Apply(w, e).misled
  {
  }

  lemma {:induction false} HandlesStep(w: World, e: Event, t: World)
    requires Orderly(w) && Enabled(w, e) && ByReceiver(e) && t == Apply(w, e)
    ensures Handles(w, [e], t)
  {
    ReceiverObeys(w, e);
    assert Orderly(t) by { OrderlyKept(w, e); }
    ReceiverKeepsTargets(w, e);
    assert CanRun(w, [e]) && After(w, [e]) == t by { RunOne(w, e); }
  }

  lemma {:induction false} ReceiverObeys(w: World, e: Event)
    requires ByReceiver(e)
    ensures OwnsNone(w, e) && Obeys(w, e)
  {
  }

  lemma {:induction false} HandlesJoin(w: World, a: seq<Event>, t: World, b: seq<Event>, u: World)
    requires Handles(w, a, t) && Handles(t, b, u)
    ensures Handles(w, a + b, u)
  {
    RunsJoin(w, a, b);
  }

  // ---- One call of the handler -----------------------------------------------------------

  /** What follows the end of an emission, until the handler returns. */
  lemma {:induction false} AfterTheEmission(w: World) returns (es: seq<Event>, t: World)
    requires Orderly(w) && (w.doing.Idle? || w.doing.CheckPipe?) && w.destructors == [] && w.emissions == []
    ensures Handles(w, es, t) && AtRest(t) && t.pipe == w.pipe
  {
    if w.doing.Idle? {
      es, t := [], w;
    } else {
      var w1 := Apply(w, PollAfterEmission);
      HandlesStep(w, PollAfterEmission, w1);
      es, t := [PollAfterEmission], w1;
      if w1.doing.ClearOrphans? {
        t := Apply(w1, ClearAfterEmission);
        HandlesStep(w1, ClearAfterEmission, t);
        HandlesJoin(w, es, w1, [ClearAfterEmission], t);
        es := es + [ClearAfterEmission];
      }
    }
  }

  lemma {:induction false} ReadAndBegin(w: World) returns (es: seq<Event>, t: World)
    requires Orderly(w) && AtRest(w) && w.pipe != []
    ensures Handles(w, es, t) && t.pipe == w.pipe[1..] && InLoop(t)
    ensures |t.emissions| == 1 && Some(t.emissions[0].notifier) == t.instance
  {
    var w1 := Apply(w, ReadPipe);
    HandlesStep(w, ReadPipe, w1);
    t := Apply(w1, BeginEmission);
    HandlesStep(w1, BeginEmission, t);
    HandlesJoin(w, [ReadPipe], w1, [BeginEmission], t);
    es := [ReadPipe] + [BeginEmission];
  }

  /** Reading a message and emitting it, up to the end of the emission. */
  lemma {:induction false} ReadAndEmit(w: World) returns (es: seq<Event>, t: World)
    requires Orderly(w) && AtRest(w) && w.pipe != []
    ensures Handles(w, es, t) && t.pipe == w.pipe[1..] && t.emissions == []
    ensures t.destructors == [] && (t.doing.Idle? || t.doing.CheckPipe?)
  {
    var first, w2 := ReadAndBegin(w);
    t := Apply(w2, EndEmission);
    HandlesStep(w2, EndEmission, t);
    HandlesJoin(w, first, w2, [EndEmission], t);
    es := first + [EndEmission];
  }

  /** One call of the handler. */
  lemma {:induction false} HandleOne(w: World) returns (es: seq<Event>, t: World)
    requires Orderly(w) && AtRest(w) && w.pipe != []
    ensures Handles(w, es, t) && AtRest(t) && t.pipe == w.pipe[1..]
  {
    var first, w3 := ReadAndEmit(w);
    var rest;
    rest, t := AfterTheEmission(w3);
    HandlesJoin(w, first, w3, rest, t);
    es := first + rest;
  }

  // ---- Returning from slots and destructors ----------------------------------------------

  /** What the receiver does next, when no slot does anything. */
  function Next(w: World): Event
    requires !AtRest(w)
  {
    match w.doing
    case Emit(_, _) => BeginEmission
    case CheckPipe(_) => PollAfterEmission
    case ClearOrphans(_) => ClearAfterEmission
    case Destroy(_) => PollInDestructor
    case DeleteImpl(_) => DeleteInDestructor
    case Release => Unreference
    case Idle =>
      if w.destructors == [] then EndEmission
      else if Innermost(w).Deleting? then ClearInDestructor
      else OrphanInDestructor
  }

  function OpenHandlers(w: World): nat {
    |w.emissions| + (if w.doing.Emit? then 1 else 0)
  }

  function OpenFrames(w: World): nat {
    |w.destructors| + (if w.doing.Destroy? || w.doing.DeleteImpl? then 1 else 0)
  }

  function Phase(w: World): nat {
    if w.doing.Idle? then 0
    else if w.doing.ClearOrphans? || w.doing.Release? then 1
    else if w.doing.CheckPipe? || w.doing.DeleteImpl? then 2
    else 3
  }

  predicate Closer(t: World, w: World) {
    || OpenHandlers(t) < OpenHandlers(w)
    || (OpenHandlers(t) == OpenHandlers(w)
        && (OpenFrames(t) < OpenFrames(w) || (OpenFrames(t) == OpenFrames(w) && Phase(t) < Phase(w))))
  }

  lemma {:induction false} NextIsCloser(w: World)
    requires Orderly(w) && !AtRest(w)
    ensures Enabled(w, Next(w)) && ByReceiver(Next(w)) && Closer(Apply(w, Next(w)), w)
  {
  }

  /** All that is open comes to its end, when slots do nothing more. */
  lemma {:induction false} Finish(w: World) returns (es: seq<Event>, t: World)
    requires Orderly(w)
    ensures Handles(w, es, t) && AtRest(t)
    decreases OpenHandlers(w), OpenFrames(w), Phase(w)
  {
    if AtRest(w) {
      es, t := [], w;
    } else {
      NextIsCloser(w);
      var w1 := Apply(w, Next(w));
      HandlesStep(w, Next(w), w1);
      es, t := Finish(w1);
      HandlesJoin(w, [Next(w)], w1, es, t);
      es := [Next(w)] + es;
    }
  }

  // ---- Draining the pipe -----------------------------------------------------------------

  /** From its main loop, the handler empties the pipe, frees every orphan, and serves every living Dispatcher. */
  lemma {:induction false} Drain(w: World) returns (es: seq<Event>, t: World)
    requires Orderly(w) && AtRest(w)
    ensures Handles(w, es, t) && AtRest(t) && t.pipe == [] && t.orphaned == []
    decreases |w.pipe|
  {
    if w.pipe == [] {
      NoOrphansAtRest(w);
      es, t := [], w;
    } else {
      var first, w1 := HandleOne(w);
      es, t := Drain(w1);
      HandlesJoin(w, first, w1, es, t);
      es := first + es;
    }
  }

  /**
    * After any run that obeys the usage rules, also with handlers and destructors open: once sending
    * stops, the receiver empties the pipe, frees every orphan, and serves every living Dispatcher.
    */
  lemma {:induction false} DrainFreesOrphans(start: seq<Event>) returns (es: seq<Event>, t: World)
    requires CanRun(START, start) && AllOwnNone(START, start) && AllObey(START, start)
    ensures Handles(After(START, start), es, t) && AtRest(t) && t.pipe == [] && t.orphaned == []
    ensures t.heap == t.live
    ensures CanRun(START, start + es) && After(START, start + es) == t
    ensures AllEmitted(Targets(start), t.live, Emitted(START, start + es))
  {
    StartInv();
    ObedientRunsAreOrderly(START, start);
    es, t := FinishAndDrain(After(START, start));
    NothingIsLeft(t);
    RunsJoin(START, start, es);
    AllServed(start, es);
  }

  /** For each call of emit() on a Dispatcher among these there is an emission, under its number. */
  ghost predicate AllEmitted(targets: seq<ImplId>, live: set<ImplId>, emitted: seq<Message>) {
    forall s :: 0 <= s < |targets| && targets[s] in live ==>
      exists m :: m in emitted && m.serial == s && m.impl == targets[s]
  }

  /** The emission of every notification to a living Dispatcher has begun. */
  ghost predicate ServesLiving(w: World) {
    forall s :: 0 <= s < |w.sent| && w.sent[s] in w.live ==> s in w.begun
  }

  lemma {:induction false} FinishAndDrain(w: World) returns (es: seq<Event>, t: World)
    requires Orderly(w)
    ensures Handles(w, es, t) && AtRest(t) && t.pipe == [] && t.orphaned == []
  {
    var first, w1 := Finish(w);
    es, t := Drain(w1);
    HandlesJoin(w, first, w1, es, t);
    es := first + es;
  }

  lemma {:induction false} AllServed(start: seq<Event>, es: seq<Event>)
    requires CanRun(START, start) && CanRun(START, start + es)
    requires After(START, start + es).sent == After(START, start).sent && ServesLiving(After(START, start + es))
    ensures AllEmitted(Targets(start), After(START, start + es).live, Emitted(START, start + es))
  {
    var t := After(START, start + es);
    SentIsTargets(START, start);
    SentIsTargets(START, start + es);
    assert [] + Targets(start) == Targets(start) && [] + Targets(start + es) == Targets(start + es);
    assert Targets(start) == Targets(start + es);
    forall s | 0 <= s < |Targets(start)| && Targets(start)[s] in t.live
      ensures exists m :: m in Emitted(START, start + es) && m.serial == s && m.impl == Targets(start)[s]
    {
      assert s in t.begun;
      Served(start + es, s);
    }
  }

  lemma {:induction false} Served(es: seq<Event>, s: nat)
    requires CanRun(START, es) && s < |Targets(es)| && s in After(START, es).begun
    ensures exists m :: m in Emitted(START, es) && m.serial == s && m.impl == Targets(es)[s]
  {
    EmittedIsBegun(START, es);
    SerialInBegun(Emitted(START, es), s);
    var m :| m in Emitted(START, es) && m.serial == s;
    EmissionsAreOfTargets(es, m);
  }

  lemma {:induction false} NothingIsLeft(w: World)
    requires Inv(w) && AtRest(w) && w.pipe == [] && w.orphaned == []
    ensures w.heap == w.live
    ensures ServesLiving(w)
  {
  }

  lemma {:induction false} ObedientRunsAreOrderly(w: World, es: seq<Event>)
    requires Orderly(w) && CanRun(w, es) && AllOwnNone(w, es) && AllObey(w, es)
    ensures Orderly(After(w, es))
    decreases es
  {
    if es != [] {
      OrderlyKept(w, es[0]);
      ObedientRunsAreOrderly(Apply(w, es[0]), es[1..]);
    }
  }
}

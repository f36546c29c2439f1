/**
  * What Glib::Dispatcher delivers, in terms of what the program does: for which calls of emit() a
  * signal is emitted, in which order, and whose slots run.
  */
module DispatcherDelivery {
  import opened Wrappers
  import opened DispatcherProtocol
  import opened DispatcherRuns

  // ---- What is sent, and what is emitted -------------------------------------------------

  /** The Dispatchers that emit() is called on, in the order of the calls. */
  function Targets(es: seq<Event>): seq<ImplId> {
    if es == [] then [] else (if es[0].Send? then [es[0].impl] else []) + Targets(es[1..])
  }

  /** The emissions that the run begins: each time, the message of the handler that has come onto the stack. */
  function Emitted(w: World, es: seq<Event>): seq<Message>
    requires CanRun(w, es)
    decreases es
  {
    if es == [] then []
    else
      var t := Apply(w, es[0]);
      (if |t.emissions| > |w.emissions| then [t.emissions[|t.emissions| - 1].msg] else []) + Emitted(t, es[1..])
  }

  function Serials(ms: seq<Message>): seq<nat> {
    if ms == [] then [] else [ms[0].serial] + Serials(ms[1..])
  }

  lemma {:induction false} SerialsAt(ms: seq<Message>, i: nat)
    requires i < |ms|
    ensures |Serials(ms)| == |ms| && Serials(ms)[i] == ms[i].serial
  {
    if i > 0 {
      SerialsAt(ms[1..], i - 1);
    } else if |ms| > 1 {
      SerialsAt(ms[1..], 0);
    }
  }

  /** What is recorded as sent is what emit() was called on. */
  lemma {:induction false} SentIsTargets(w: World, es: seq<Event>)
    requires CanRun(w, es)
    ensures After(w, es).sent == w.sent + Targets(es)
    decreases es
  {
    if es != [] {
      SentIsTargets(Apply(w, es[0]), es[1..]);
    }
  }

  /** Every step begins at most one emission, and records it. */
  lemma {:induction false} StepRecords(w: World, e: Event)
    requires Enabled(w, e)
    ensures var t := Apply(w, e);
            if |t.emissions| > |w.emissions|
            then t.begun == w.begun + [t.emissions[|t.emissions| - 1].msg.serial]
            else t.begun == w.begun
  {
  }

  lemma {:induction false} EmittedIsBegun(w: World, es: seq<Event>)
    requires CanRun(w, es)
    ensures After(w, es).begun == w.begun + Serials(Emitted(w, es))
    decreases es
  {
    if es != [] {
      var t := Apply(w, es[0]);
      StepRecords(w, es[0]);
      EmittedIsBegun(t, es[1..]);
      if |t.emissions| > |w.emissions| {
        SerialsCons(w.begun, t.emissions[|t.emissions| - 1].msg, Emitted(t, es[1..]));
      } else {
        assert [] + Emitted(t, es[1..]) == Emitted(t, es[1..]);
      }
    } else {
      assert w.begun + [] == w.begun;
    }
  }

  lemma {:induction false} SerialsCons(begun: seq<nat>, m: Message, ms: seq<Message>)
    ensures begun + Serials([m] + ms) == begun + [m.serial] + Serials(ms)
  {
    assert ([m] + ms)[1..] == ms;
  }

  lemma {:induction false} SentStaysSent(w: World, es: seq<Event>, m: Message)
    requires CanRun(w, es) && IsSent(w, m)
    ensures IsSent(After(w, es), m)
    decreases es
  {
    if es != [] {
      SentStaysSent(Apply(w, es[0]), es[1..], m);
    }
  }

  lemma {:induction false} EmittedIsSent(w: World, es: seq<Event>, m: Message)
    requires Inv(w) && CanRun(w, es) && m in Emitted(w, es)
    ensures IsSent(After(w, es), m)
    decreases es
  {
    var t := Apply(w, es[0]);
    InvKept(w, es[0]);
    if m in Emitted(t, es[1..]) {
      EmittedIsSent(t, es[1..], m);
    } else {
      assert IsSent(t, t.emissions[|t.emissions| - 1].msg);
      SentStaysSent(t, es[1..], m);
    }
  }

  /** In every run, every emission is one of the Dispatcher that emit() was called on, at the call of that number. */
  lemma {:induction false} EmissionsAreOfTargets(es: seq<Event>, m: Message)
    requires CanRun(START, es) && m in Emitted(START, es)
    ensures m.serial < |Targets(es)| && Targets(es)[m.serial] == m.impl
  {
    StartInv();
    EmittedIsSent(START, es, m);
    SentIsTargets(START, es);
  }

  /** Emissions begin in the order of the calls, each call has one at most, and what still waits comes later. */
  lemma {:induction false} EmissionsFollowSending(es: seq<Event>, i: nat, j: nat)
    requires CanRun(START, es) && i < j < |Emitted(START, es)|
    ensures Emitted(START, es)[i].serial < Emitted(START, es)[j].serial
    ensures forall s :: Waiting(After(START, es), s) ==> Emitted(START, es)[j].serial < s
  {
    Reachable(es);
    RecordedAt(es, i);
    RecordedAt(es, j);
    BegunInOrder(After(START, es), i, j);
  }

  lemma {:induction false} RecordedAt(es: seq<Event>, i: nat)
    requires CanRun(START, es) && i < |Emitted(START, es)|
    ensures |After(START, es).begun| == |Emitted(START, es)|
    ensures After(START, es).begun[i] == Emitted(START, es)[i].serial
  {
    EmittedIsBegun(START, es);
    SerialsAt(Emitted(START, es), i);
    assert [] + Serials(Emitted(START, es)) == Serials(Emitted(START, es));
  }

  lemma {:induction false} BegunInOrder(w: World, i: nat, j: nat)
    requires Inv(w) && i < j < |w.begun|
    ensures w.begun[i] < w.begun[j] && forall s :: Waiting(w, s) ==> w.begun[j] < s
  {
    forall s | Waiting(w, s)
      ensures w.begun[j] < s
    {
      WaitingIsLater(w, s, j);
    }
  }

  lemma {:induction false} WaitingIsLater(w: World, s: nat, j: nat)
    requires Inv(w) && Waiting(w, s) && j < |w.begun|
    ensures w.begun[j] < s
  {
    if m :| m in w.pipe && m.serial == s {
      var k :| 0 <= k < |w.pipe| && w.pipe[k] == m;
    }
  }

  /**
    * A call of emit() on a Dispatcher that still lives is waiting, or its emission has begun, never
    * both and never neither; and whatever waits or was emitted for it names that Dispatcher.
    */
  lemma {:induction false} NotificationsReachLiving(es: seq<Event>, s: nat)
    requires CanRun(START, es) && s < |Targets(es)| && Targets(es)[s] in After(START, es).live
    ensures Waiting(After(START, es), s) <==> !exists m :: m in Emitted(START, es) && m.serial == s
    ensures forall m :: (m in After(START, es).pipe || m in Emitted(START, es)) && m.serial == s ==>
              m.impl == Targets(es)[s]
  {
    Reachable(es);
    SentIsTargets(START, es);
    EmittedIsBegun(START, es);
    SerialInBegun(Emitted(START, es), s);
    WaitingOrBegun(After(START, es), s);
    forall m | (m in After(START, es).pipe || m in Emitted(START, es)) && m.serial == s
      ensures m.impl == Targets(es)[s]
    {
      if m in After(START, es).pipe {
        InPipeIsSent(After(START, es), m);
      } else {
        EmissionsAreOfTargets(es, m);
      }
    }
  }

  lemma {:induction false} InPipeIsSent(w: World, m: Message)
    requires History(w) && m in w.pipe
    ensures IsSent(w, m)
  {
    var k :| 0 <= k < |w.pipe| && w.pipe[k] == m;
  }

  lemma {:induction false} SerialInBegun(ms: seq<Message>, s: nat)
    ensures s in Serials(ms) <==> exists m :: m in ms && m.serial == s
  {
    if ms != [] {
      SerialInBegun(ms[1..], s);
      assert forall m :: m in ms <==> m == ms[0] || m in ms[1..];
    }
  }

  lemma {:induction false} WaitingOrBegun(w: World, s: nat)
    requires Inv(w) && s < |w.sent| && w.sent[s] in w.live
    ensures Waiting(w, s) <==> s !in w.begun
  {
    if s >= Gone(w) {
      assert w.pipe[s - Gone(w)] in w.pipe;
    }
  }

  /** What is emitted is what the handler has read last, with nothing but calls of emit() in between. */
  lemma {:induction false} EmitsWhatWasRead(es: seq<Event>) returns (a: seq<Event>, b: seq<Event>)
    requires CanRun(START, es) && Enabled(After(START, es), BeginEmission)
    ensures es == a + [ReadPipe] + b && (forall e :: e in b ==> e.Send?)
    ensures CanRun(START, a) && After(START, a).pipe != []
    ensures var w, t := After(START, es), Apply(After(START, es), BeginEmission);
            !t.misled ==> t.emissions == w.emissions + [Emission(w.doing.notifier, After(START, a).pipe[0])]
    decreases es
  {
    var n := |es| - 1;
    RunSplits(START, es);
    var pre, e := es[..n], es[n];
    assert es == pre + [e];
    if e.ReadPipe? {
      a, b := pre, [];
    } else {
      a, b := EmitsWhatWasRead(pre);
      assert a + [ReadPipe] + (b + [e]) == a + [ReadPipe] + b + [e];
      b := b + [e];
    }
  }

  // ---- Whose slots run -------------------------------------------------------------------

  lemma {:induction false} CreatedExactly(es: seq<Event>, d: ImplId)
    requires CanRun(START, es)
    ensures d in After(START, es).owner <==> Create(d) in es
    decreases es
  {
    if es != [] {
      var n := |es| - 1;
      RunSplits(START, es);
      CreatedExactly(es[..n], d);
      LastOrBefore(es, Create(d));
    }
  }

  lemma {:induction false} LastOrBefore(es: seq<Event>, e: Event)
    requires es != []
    ensures e in es <==> e == es[|es| - 1] || e in es[..|es| - 1]
  {
    assert es == es[..|es| - 1] + [es[|es| - 1]];
  }

  /** A Dispatcher lives from its construction to its destruction, and does not live again. */
  lemma {:induction false} LiveExactly(es: seq<Event>, d: ImplId)
    requires CanRun(START, es)
    ensures d in After(START, es).live <==> Create(d) in es && BeginDestroy(d) !in es
    ensures BeginDestroy(d) in es ==> Create(d) in es
    decreases es
  {
    if es != [] {
      var n := |es| - 1;
      RunSplits(START, es);
      LiveExactly(es[..n], d);
      CreatedExactly(es[..n], d);
      LastOrBefore(es, Create(d));
      LastOrBefore(es, BeginDestroy(d));
      LiveStep(After(START, es[..n]), es[n], d);
    }
  }

  lemma {:induction false} LiveStep(w: World, e: Event, d: ImplId)
    requires Enabled(w, e)
    ensures d in Apply(w, e).live <==> e == Create(d) || (d in w.live && e != BeginDestroy(d))
    ensures e == Create(d) ==> d !in w.owner
    ensures e == BeginDestroy(d) ==> d in w.live
  {
  }

  /** A Dispatcher can be emitted on exactly while it lives, and connected and destroyed unless a step is under way. */
  lemma {:induction false} UsableWhileAlive(es: seq<Event>, d: ImplId)
    requires CanRun(START, es) && !After(START, es).dangling && !After(START, es).misled
    ensures var w, alive := After(START, es), Create(d) in es && BeginDestroy(d) !in es;
            && (Enabled(w, Send(d)) <==> alive)
            && (Enabled(w, Connect(d)) <==> alive && w.doing.Idle?)
            && (Enabled(w, Disconnect(d)) <==> alive && w.doing.Idle?)
            && (Enabled(w, BeginDestroy(d)) <==> alive && w.doing.Idle?)
  {
    LiveExactly(es, d);
    CreatedExactly(es, d);
  }

  /** Whether slots are connected, by what the program connected and disconnected. */
  predicate HasSlots(es: seq<Event>, d: ImplId)
    decreases |es|
  {
    es != [] &&
    var e := es[|es| - 1];
    e == Connect(d) || (e != Disconnect(d) && HasSlots(es[..|es| - 1], d))
  }

  lemma {:induction false} ConnectedExactly(es: seq<Event>, d: ImplId)
    requires CanRun(START, es) && d in After(START, es).live
    ensures d in After(START, es).connected <==> HasSlots(es, d)
    decreases es
  {
    if es != [] {
      var n := |es| - 1;
      RunSplits(START, es);
      var w := After(START, es[..n]);
      Reachable(es[..n]);
      ConnectedStep(w, es[n], d);
      if d in w.live {
        ConnectedExactly(es[..n], d);
      } else {
        NotYetCreated(es[..n], d);
      }
    }
  }

  /** Slots of a living Dispatcher come and go by its own connections only. */
  lemma {:induction false} ConnectedStep(w: World, e: Event, d: ImplId)
    requires Inv(w) && Enabled(w, e) && d in Apply(w, e).live
    ensures d in Apply(w, e).connected <==> e == Connect(d) || (d in w.connected && e != Disconnect(d))
    ensures d in w.live || d !in w.owner
    ensures d !in w.live ==> e != Connect(d)
  {
  }

  lemma {:induction false} NotYetCreated(es: seq<Event>, d: ImplId)
    requires CanRun(START, es) && d !in After(START, es).owner
    ensures d !in After(START, es).connected && !HasSlots(es, d)
    decreases es
  {
    if es != [] {
      var n := |es| - 1;
      RunSplits(START, es);
      Reachable(es[..n]);
      NotOwnedStep(After(START, es[..n]), es[n], d);
      NotYetCreated(es[..n], d);
    }
  }

  lemma {:induction false} NotOwnedStep(w: World, e: Event, d: ImplId)
    requires Inv(w) && Enabled(w, e) && d !in Apply(w, e).owner
    ensures d !in w.owner && e != Connect(d)
    ensures d in Apply(w, e).connected ==> d in w.connected
  {
  }

  /**
    * A slot of a living Dispatcher is run exactly if slots are connected to it, the receiver is in no
    * destructor or handler, and the innermost emission is one of this Dispatcher.
    */
  lemma {:induction false} SlotsRunForNotified(es: seq<Event>, d: ImplId)
    requires CanRun(START, es) && !After(START, es).dangling && !After(START, es).misled
    requires d in After(START, es).live
    ensures var w := After(START, es);
            Enabled(w, RunSlot(d))
            <==> HasSlots(es, d) && InLoop(w) && w.emissions != [] && w.emissions[|w.emissions| - 1].msg.impl == d
  {
    ConnectedExactly(es, d);
  }

  /** No slot is ever run for a Dispatcher that emit() was not called on. */
  lemma {:induction false} SlotsRunForTargets(es: seq<Event>, d: ImplId)
    requires CanRun(START, es) && Enabled(After(START, es), RunSlot(d))
    ensures exists m :: m in Emitted(START, es) && m.impl == d
    ensures d in Targets(es)
  {
    var m := OpenWasEmitted(es);
    EmissionsAreOfTargets(es, m);
  }

  /** The innermost emission is one that was begun. */
  lemma {:induction false} OpenWasEmitted(es: seq<Event>) returns (m: Message)
    requires CanRun(START, es) && After(START, es).emissions != []
    ensures var w := After(START, es); m in Emitted(START, es) && m == w.emissions[|w.emissions| - 1].msg
  {
    var w := After(START, es);
    m := w.emissions[|w.emissions| - 1].msg;
    FramesWereEmitted(START, es, |w.emissions| - 1);
  }

  lemma {:induction false} FramesWereEmitted(w: World, es: seq<Event>, i: nat)
    requires CanRun(w, es) && i < |After(w, es).emissions|
    ensures After(w, es).emissions[i] in w.emissions || After(w, es).emissions[i].msg in Emitted(w, es)
    decreases es
  {
    if es != [] {
      StepKeepsFrames(w, es[0], After(w, es).emissions[i]);
      FramesWereEmitted(Apply(w, es[0]), es[1..], i);
    }
  }

  lemma {:induction false} StepKeepsFrames(w: World, e: Event, f: Emission)
    requires Enabled(w, e)
    ensures var t := Apply(w, e);
            f in t.emissions ==>
              f in w.emissions || (|t.emissions| > |w.emissions| && f == t.emissions[|t.emissions| - 1])
  {
  }
}

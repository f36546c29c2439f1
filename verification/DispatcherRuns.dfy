/**
  * What the protocol of Glib::Dispatcher promises for every run from the start, whatever the
  * threads do and in whatever order: the life of the notifier, and slots of Dispatchers that are gone.
  */
module DispatcherRuns {
  import opened Wrappers
  import opened DispatcherProtocol

  lemma {:induction false} Reachable(es: seq<Event>)
    requires CanRun(START, es)
    ensures Inv(After(START, es))
  {
    StartInv();
    RunsKeepInv(START, es);
  }

  /** Notification s is in the pipe, or was just read. */
  ghost predicate Waiting(w: World, s: nat) {
    (exists m :: m in w.pipe && m.serial == s) || (w.doing.Emit? && w.doing.msg.serial == s)
  }

  /** The notifier exists exactly while Dispatchers do, but for one that is being destroyed. */
  lemma {:induction false} NotifierServesLiving(es: seq<Event>)
    requires CanRun(START, es)
    ensures var w := After(START, es);
            && (w.instance.Some? <==> w.live != {} || InDestructor(w) || w.destructors != [])
            && (w.instance.Some? <==> w.refCount > 0)
  {
    Reachable(es);
  }

  // ---- Slots of a destroyed Dispatcher ---------------------------------------------------

  /** The signal of the Impl is in emission. */
  ghost predicate Emitting(w: World, d: ImplId) {
    exists i :: 0 <= i < |w.emissions| && w.emissions[i].msg.impl == d
  }

  /** ~Dispatcher deletes the Impl, as the pipe was empty, inside an emission of its own signal. */
  ghost predicate DeletesInOwnEmission(w: World, e: Event, d: ImplId) {
    e.DeleteInDestructor? && w.doing == DeleteImpl(d) && Emitting(w, d)
  }

  ghost predicate SomeDeletesInOwnEmission(w: World, es: seq<Event>, d: ImplId)
    requires CanRun(w, es)
    decreases es
  {
    es != [] && (DeletesInOwnEmission(w, es[0], d) || SomeDeletesInOwnEmission(Apply(w, es[0]), es[1..], d))
  }

  /** The Impl is gone, although its slots were not cleared and its signal is in emission. */
  ghost predicate GoneWhileEmitting(w: World, d: ImplId) {
    d in w.connected && d !in w.heap && Emitting(w, d)
  }

  /** An emission that is open after a step was open before it, or has just begun on an Impl in memory. */
  lemma {:induction false} OpenBefore(w: World, e: Event, i: nat)
    requires Inv(w) && Enabled(w, e) && i < |Apply(w, e).emissions|
    ensures var t := Apply(w, e);
            (i < |w.emissions| && t.emissions[i] == w.emissions[i]) || t.emissions[i].msg.impl in t.heap
  {
  }

  /** An Impl that a step deletes is none with slots, but for the one that a destructor deletes. */
  lemma {:induction false} DeletedWithSlots(w: World, e: Event, d: ImplId)
    requires Inv(w) && Enabled(w, e) && d in Apply(w, e).connected && d !in Apply(w, e).heap
    ensures (d in w.connected && d !in w.heap) || (e.DeleteInDestructor? && w.doing == DeleteImpl(d))
  {
  }

  lemma {:induction false} GoneByOwnEmission(w: World, e: Event, d: ImplId)
    requires Inv(w) && Enabled(w, e) && GoneWhileEmitting(Apply(w, e), d)
    ensures GoneWhileEmitting(w, d) || DeletesInOwnEmission(w, e, d)
  {
    var t := Apply(w, e);
    var i :| 0 <= i < |t.emissions| && t.emissions[i].msg.impl == d;
    OpenBefore(w, e, i);
    assert w.emissions[i].msg.impl == d;
    DeletedWithSlots(w, e, d);
  }

  lemma {:induction false} GoneInRun(w: World, es: seq<Event>, d: ImplId)
    requires Inv(w) && CanRun(w, es) && GoneWhileEmitting(After(w, es), d)
    ensures GoneWhileEmitting(w, d) || SomeDeletesInOwnEmission(w, es, d)
    decreases es
  {
    if es != [] {
      InvKept(w, es[0]);
      GoneInRun(Apply(w, es[0]), es[1..], d);
      if GoneWhileEmitting(Apply(w, es[0]), d) {
        GoneByOwnEmission(w, es[0], d);
      }
    }
  }

  /** An Impl that was created once is not created again. */
  lemma {:induction false} StaysGone(w: World, es: seq<Event>, d: ImplId)
    requires CanRun(w, es) && d in w.owner && d !in w.heap
    ensures d !in After(w, es).heap
    decreases es
  {
    if es != [] {
      StaysGone(Apply(w, es[0]), es[1..], d);
    }
  }

  lemma {:induction false} DeletedStaysGone(w: World, es: seq<Event>, d: ImplId)
    requires Inv(w) && CanRun(w, es) && SomeDeletesInOwnEmission(w, es, d)
    ensures d !in After(w, es).heap
    decreases es
  {
    InvKept(w, es[0]);
    var t := Apply(w, es[0]);
    if DeletesInOwnEmission(w, es[0], d) {
      StaysGone(t, es[1..], d);
    } else {
      DeletedStaysGone(t, es[1..], d);
    }
  }

  /**
    * A slot runs for a Dispatcher whose destructor has begun exactly if the Impl was deleted in
    * an emission of its own signal: only the branch that makes it an orphan clears the signal.
    */
  lemma {:induction false} SlotsRunForLiveDispatchers(es: seq<Event>, d: ImplId)
    requires CanRun(START, es) && Enabled(After(START, es), RunSlot(d))
    ensures d in After(START, es).live <==> !SomeDeletesInOwnEmission(START, es, d)
  {
    RunsOrGone(es, d);
    LiveUnlessDeleted(es, d);
  }

  lemma {:induction false} RunsOrGone(es: seq<Event>, d: ImplId)
    requires CanRun(START, es) && Enabled(After(START, es), RunSlot(d))
    ensures var w := After(START, es); if d in w.live then d in w.heap else GoneWhileEmitting(w, d)
  {
    Reachable(es);
  }

  lemma {:induction false} LiveUnlessDeleted(es: seq<Event>, d: ImplId)
    requires CanRun(START, es)
    requires var w := After(START, es); if d in w.live then d in w.heap else GoneWhileEmitting(w, d)
    ensures d in After(START, es).live <==> !SomeDeletesInOwnEmission(START, es, d)
  {
    StartInv();
    if SomeDeletesInOwnEmission(START, es, d) {
      DeletedStaysGone(START, es, d);
    } else if d !in After(START, es).live {
      GoneInRun(START, es, d);
    }
  }

  /** That happens: the first of two slots destroys its Dispatcher, and the second is still to run. */
  lemma {:induction false} SlotAfterDestruction()
    ensures var es := [Create(0), Connect(0), Send(0), ReadPipe, BeginEmission, RunSlot(0),
                       BeginDestroy(0), PollInDestructor, DeleteInDestructor, ClearInDestructor, Unreference];
            CanRun(START, es) && Enabled(After(START, es), RunSlot(0)) && 0 !in After(START, es).heap
  {
    IntoTheSlot();
    InTheSlot();
    var a := [Create(0), Connect(0), Send(0), ReadPipe, BeginEmission, RunSlot(0)];
    var b := [BeginDestroy(0), PollInDestructor, DeleteInDestructor, ClearInDestructor, Unreference];
    RunsJoin(START, a, b);
    assert a + b == [Create(0), Connect(0), Send(0), ReadPipe, BeginEmission, RunSlot(0),
                     BeginDestroy(0), PollInDestructor, DeleteInDestructor, ClearInDestructor, Unreference];
  }

  /** A notification was sent to the only Dispatcher. */
  const ONE_SENT := World({0}, {0}, {0}, map[0 := 0], Some(0), 1, [], [Message(0, 0, 0)], [], [], Idle,
                          1, {0}, [0], [], false, false)

  /** A slot of the only Dispatcher runs. */
  const IN_SLOT := World({0}, {0}, {0}, map[0 := 0], Some(0), 1, [], [], [Emission(0, Message(0, 0, 0))], [], Idle,
                         1, {0}, [0], [0], false, false)

  const DELETING := IN_SLOT.(heap := {}, live := {}, destructors := [Deleting(0)])

  /** The slot has destroyed the Dispatcher. */
  const GONE := IN_SLOT.(heap := {}, live := {}, instance := None, refCount := 0, memory := {})

  lemma {:induction false} IntoTheSlot()
    ensures var es := [Create(0), Connect(0), Send(0), ReadPipe, BeginEmission, RunSlot(0)];
            CanRun(START, es) && After(START, es) == IN_SLOT
  {
    SendOne();
    EmitOne();
    RunsJoin(START, [Create(0), Connect(0), Send(0)], [ReadPipe, BeginEmission, RunSlot(0)]);
    assert [Create(0), Connect(0), Send(0)] + [ReadPipe, BeginEmission, RunSlot(0)]
        == [Create(0), Connect(0), Send(0), ReadPipe, BeginEmission, RunSlot(0)];
  }

  lemma {:induction false} SendOne()
    ensures var es := [Create(0), Connect(0), Send(0)]; CanRun(START, es) && After(START, es) == ONE_SENT
  {
    var w1 := Apply(START, Create(0));
    var w2 := Apply(w1, Connect(0));
    assert Apply(w2, Send(0)) == ONE_SENT;
    ThreeSteps(START, Create(0), Connect(0), Send(0));
  }

  lemma {:induction false} EmitOne()
    ensures var es := [ReadPipe, BeginEmission, RunSlot(0)]; CanRun(ONE_SENT, es) && After(ONE_SENT, es) == IN_SLOT
  {
    var w1 := Apply(ONE_SENT, ReadPipe);
    assert w1.pipe == [];
    assert Apply(w1, BeginEmission) == IN_SLOT;
    ThreeSteps(ONE_SENT, ReadPipe, BeginEmission, RunSlot(0));
  }

  lemma {:induction false} InTheSlot()
    ensures var es := [BeginDestroy(0), PollInDestructor, DeleteInDestructor, ClearInDestructor, Unreference];
            CanRun(IN_SLOT, es) && After(IN_SLOT, es) == GONE
  {
    var w1 := Apply(IN_SLOT, BeginDestroy(0));
    assert w1 == IN_SLOT.(live := {}, doing := Destroy(0));
    var w2 := Apply(w1, PollInDestructor);
    var w3 := Apply(w2, DeleteInDestructor);
    assert w3 == DELETING;
    RunStep(w2, DeleteInDestructor, []);
    RunStep(w1, PollInDestructor, [DeleteInDestructor]);
    RunStep(IN_SLOT, BeginDestroy(0), [PollInDestructor, DeleteInDestructor]);
    InTheDeletion();
    RunsJoin(IN_SLOT, [BeginDestroy(0), PollInDestructor, DeleteInDestructor], [ClearInDestructor, Unreference]);
  }

  lemma {:induction false} InTheDeletion()
    ensures var es := [ClearInDestructor, Unreference]; CanRun(DELETING, es) && After(DELETING, es) == GONE
  {
    var w1 := Apply(DELETING, ClearInDestructor);
    assert w1 == IN_SLOT.(heap := {}, live := {}, doing := Release);
    RunStep(w1, Unreference, []);
    RunStep(DELETING, ClearInDestructor, [Unreference]);
  }

  // ---- Putting runs together -------------------------------------------------------------

  lemma {:induction false} JoinFirst(a: seq<Event>, b: seq<Event>)
    requires a != []
    ensures a + b != [] && (a + b)[0] == a[0] && (a + b)[1..] == a[1..] + b
  {
  }

  lemma {:induction false} RunsJoin(w: World, a: seq<Event>, b: seq<Event>)
    requires CanRun(w, a) && CanRun(After(w, a), b)
    ensures CanRun(w, a + b) && After(w, a + b) == After(After(w, a), b)
    decreases a
  {
    if a == [] {
      assert a + b == b;
    } else {
      JoinFirst(a, b);
      RunsJoin(Apply(w, a[0]), a[1..], b);
    }
  }

  lemma {:induction false} RunDivides(w: World, a: seq<Event>, b: seq<Event>)
    requires CanRun(w, a + b)
    ensures CanRun(w, a) && CanRun(After(w, a), b) && After(w, a + b) == After(After(w, a), b)
    decreases a
  {
    if a == [] {
      assert a + b == b;
    } else {
      JoinFirst(a, b);
      RunDivides(Apply(w, a[0]), a[1..], b);
    }
  }

  lemma {:induction false} RunStep(w: World, e: Event, es: seq<Event>)
    requires Enabled(w, e) && CanRun(Apply(w, e), es)
    ensures CanRun(w, [e] + es) && After(w, [e] + es) == After(Apply(w, e), es)
  {
    assert ([e] + es)[1..] == es;
  }

  lemma {:induction false} RunSplits(w: World, es: seq<Event>)
    requires CanRun(w, es) && es != []
    ensures var n := |es| - 1;
            CanRun(w, es[..n]) && Enabled(After(w, es[..n]), es[n]) && After(w, es) == Apply(After(w, es[..n]), es[n])
    decreases es
  {
    var n := |es| - 1;
    if n > 0 {
      RunSplits(Apply(w, es[0]), es[1..]);
      assert es[1..][..n - 1] == es[..n][1..] && es[1..][n - 1] == es[n];
    }
  }

  lemma {:induction false} ThreeSteps(w: World, a: Event, b: Event, c: Event)
    requires Enabled(w, a) && Enabled(Apply(w, a), b) && Enabled(Apply(Apply(w, a), b), c)
    ensures CanRun(w, [a, b, c]) && After(w, [a, b, c]) == Apply(Apply(Apply(w, a), b), c)
  {
    RunStep(Apply(Apply(w, a), b), c, []);
    RunStep(Apply(w, a), b, [c]);
    RunStep(w, a, [b, c]);
    assert [a] + [b, c] == [a, b, c] && [b] + [c] == [b, c] && [c] + [] == [c];
  }

  lemma {:induction false} RunOne(w: World, e: Event)
    requires Enabled(w, e)
    ensures CanRun(w, [e]) && After(w, [e]) == Apply(w, e)
  {
    assert [e][1..] == [];
  }

  /** While es runs from w on, the size stays at this or above it. */
  predicate Inside(w: World, es: seq<Event>, size: World -> nat, depth: nat)
    requires CanRun(w, es)
    decreases es
  {
    size(w) >= depth && (es == [] || Inside(Apply(w, es[0]), es[1..], size, depth))
  }

  lemma {:induction false} InsideSnoc(w: World, es: seq<Event>, e: Event, size: World -> nat, depth: nat)
    requires CanRun(w, es) && Inside(w, es, size, depth) && Enabled(After(w, es), e)
    requires size(Apply(After(w, es), e)) >= depth
    ensures CanRun(w, es + [e]) && Inside(w, es + [e], size, depth)
    decreases es
  {
    assert (es + [e])[0] == if es == [] then e else es[0];
    if es == [] {
      assert (es + [e])[1..] == [];
    } else {
      assert (es + [e])[1..] == es[1..] + [e];
      InsideSnoc(Apply(w, es[0]), es[1..], e, size, depth);
    }
  }
}

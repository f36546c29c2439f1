/**
  * Slots of Glib::Dispatcher may own other Dispatchers, which are destroyed with them, inside the
  * destructor of the first one: between its test of the pipe and its clearing of the orphans. What
  * that can do to Impls that messages are on their way to, and when nothing happens to them.
  */
module DispatcherNested {
  import opened Wrappers
  import opened DispatcherProtocol
  import opened DispatcherRuns

  // ---- Runs without nested destruction ---------------------------------------------------

  /** The usage rule: while slots of a deleted Impl are being destroyed, no Dispatcher is: they own none. */
  predicate OwnsNone(w: World, e: Event) {
    e.BeginDestroy? ==> forall f :: f in w.destructors ==> f.Clearing?
  }

  predicate AllOwnNone(w: World, es: seq<Event>)
    requires CanRun(w, es)
    decreases es
  {
    es == [] || (OwnsNone(w, es[0]) && AllOwnNone(Apply(w, es[0]), es[1..]))
  }

  /** Messages name Impls in memory; while a destructor will clear the orphans, they name living ones. */
  ghost predicate SafePipe(w: World) {
    && (forall m :: m in w.pipe ==> m.impl in w.heap)
    && (w.doing.Emit? ==> w.doing.msg.impl in w.heap)
    && (forall i :: 0 <= i < |w.destructors| && w.destructors[i].Deleting? ==>
          i == |w.destructors| - 1 && w.doing.Idle? && forall m :: m in w.pipe ==> m.impl in w.live)
  }

  lemma {:induction false} SafePipeOfPoll(w: World)
    requires Inv(w) && SafePipe(w) && Enabled(w, PollInDestructor)
    ensures SafePipe(Apply(w, PollInDestructor))
  {
  }

  lemma {:induction false} SafePipeOfDelete(w: World)
    requires Inv(w) && SafePipe(w) && Enabled(w, DeleteInDestructor)
    ensures SafePipe(Apply(w, DeleteInDestructor))
  {
  }

  lemma {:induction false} SafePipeOfClear(w: World)
    requires Inv(w) && SafePipe(w) && Enabled(w, ClearInDestructor)
    ensures SafePipe(Apply(w, ClearInDestructor))
  {
    assert forall i :: 0 <= i < |Outer(w)| ==> Outer(w)[i] == w.destructors[i];
  }

  lemma {:induction false} SafePipeOfOrphan(w: World)
    requires Inv(w) && SafePipe(w) && Enabled(w, OrphanInDestructor)
    ensures SafePipe(Apply(w, OrphanInDestructor))
  {
    assert forall i :: 0 <= i < |Outer(w)| ==> Outer(w)[i] == w.destructors[i];
  }

  lemma {:induction false} SafePipeOfHandler(w: World, e: Event)
    requires Inv(w) && SafePipe(w) && Enabled(w, e) && ByHandler(e)
    ensures SafePipe(Apply(w, e))
  {
    if e.ReadPipe? {
      assert w.pipe[0] in w.pipe;
    }
  }

  lemma {:induction false} SafePipeOfSlot(w: World, e: Event)
    requires Inv(w) && SafePipe(w) && Enabled(w, e) && OwnsNone(w, e) && !ByHandler(e) && !ByDestructor(e)
    ensures SafePipe(Apply(w, e))
  {
  }

  lemma {:induction false} SafePipeOfDestructor(w: World, e: Event)
    requires Inv(w) && SafePipe(w) && Enabled(w, e) && ByDestructor(e)
    ensures SafePipe(Apply(w, e))
  {
    match e
    case PollInDestructor => SafePipeOfPoll(w);
    case DeleteInDestructor => SafePipeOfDelete(w);
    case ClearInDestructor => SafePipeOfClear(w);
    case OrphanInDestructor => SafePipeOfOrphan(w);
  }

  lemma {:induction false} SafePipeKept(w: World, e: Event)
    requires Inv(w) && SafePipe(w) && Enabled(w, e) && OwnsNone(w, e)
    ensures SafePipe(Apply(w, e))
  {
    if ByHandler(e) {
      SafePipeOfHandler(w, e);
    } else if ByDestructor(e) {
      SafePipeOfDestructor(w, e);
    } else {
      SafePipeOfSlot(w, e);
    }
  }

  /** Under the rule, whatever is in the pipe or just read names an Impl in memory, in every state of every run. */
  lemma {:induction false} RunsAreSafe(w: World, es: seq<Event>)
    requires Inv(w) && SafePipe(w) && CanRun(w, es) && AllOwnNone(w, es)
    ensures Inv(After(w, es)) && SafePipe(After(w, es))
    decreases es
  {
    if es != [] {
      InvKept(w, es[0]);
      SafePipeKept(w, es[0]);
      RunsAreSafe(Apply(w, es[0]), es[1..]);
    }
  }

  /** So the next step of any thread only uses Impls in memory. */
  lemma {:induction false} ObedientStepIsSafe(es: seq<Event>, e: Event)
    requires CanRun(START, es) && AllOwnNone(START, es) && Enabled(After(START, es), e)
    ensures SafeStep(After(START, es), e) && Touched(After(START, es), e) <= After(START, es).heap
  {
    StartInv();
    RunsAreSafe(START, es);
    StepsAreSafe(After(START, es), e);
  }

  // ---- How an Impl is freed before its message -------------------------------------------

  /** Notification s is waiting for an Impl that is gone. */
  ghost predicate Lost(w: World, s: nat) {
    Waiting(w, s) && s < |w.sent| && w.sent[s] !in w.heap
  }

  lemma {:induction false} WaitingIsSent(w: World, s: nat)
    requires Inv(w) && Waiting(w, s)
    ensures s < |w.sent| && s >= Gone(w) - (if w.doing.Emit? then 1 else 0)
    ensures w.doing.Emit? && w.doing.msg.serial == s ==> w.doing.msg.impl == w.sent[s]
    ensures (exists m :: m in w.pipe && m.serial == s) ==>
              exists m :: m in w.pipe && m.serial == s && m.impl == w.sent[s]
  {
    if m :| m in w.pipe && m.serial == s {
      var k :| 0 <= k < |w.pipe| && w.pipe[k] == m;
    }
  }

  /** No message is on its way to a Dispatcher that is dead, so none ever will be. */
  ghost predicate NoWord(w: World, d: ImplId) {
    && d in w.owner && d !in w.live
    && (forall m :: m in w.pipe ==> m.impl != d)
    && (w.doing.Emit? ==> w.doing.msg.impl != d)
  }

  lemma {:induction false} NoWordEver(w: World, es: seq<Event>, d: ImplId)
    requires CanRun(w, es) && NoWord(w, d)
    ensures NoWord(After(w, es), d)
    decreases es
  {
    if es != [] {
      if es[0].ReadPipe? {
        assert w.pipe[0] in w.pipe;
      }
      NoWordEver(Apply(w, es[0]), es[1..], d);
    }
  }

  lemma {:induction false} NotSentToLost(w: World, d: ImplId, s: nat)
    requires Inv(w) && Enabled(w, Send(d)) && Lost(Apply(w, Send(d)), s)
    ensures Waiting(w, s) && s < |w.sent|
  {
    var t := Apply(w, Send(d));
    assert t.sent[|w.sent|] == d && d in w.heap;
    if !(w.doing.Emit? && w.doing.msg.serial == s) {
      var m :| m in t.pipe && m.serial == s;
      assert m in w.pipe;
    }
  }

  lemma {:induction false} LostWaited(w: World, e: Event, s: nat)
    requires Inv(w) && Enabled(w, e) && Lost(Apply(w, e), s)
    ensures Waiting(w, s) && s < |w.sent| && w.sent[s] == Apply(w, e).sent[s]
  {
    if e.Send? {
      NotSentToLost(w, e.impl, s);
    } else if e.ReadPipe? {
      assert w.pipe[0] in w.pipe;
    }
  }

  /** The Impl that a notification waits for is only freed by clearing the orphans. */
  lemma {:induction false} WaitedForIsFreed(w: World, e: Event, s: nat)
    requires Inv(w) && Enabled(w, e) && Waiting(w, s) && s < |w.sent| && w.sent[s] in w.heap
    requires !e.Unreference? && w.sent[s] !in Apply(w, e).heap
    ensures e.ClearInDestructor? && w.sent[s] in w.orphaned
  {
    WaitingIsSent(w, s);
  }

  /** A notification is lost when a destructor clears the orphans, and at no other step. */
  lemma {:induction false} LostByClearing(w: World, e: Event, s: nat)
    requires Inv(w) && Enabled(w, e) && Lost(Apply(w, e), s)
    ensures Waiting(w, s) && s < |w.sent| && w.sent[s] == Apply(w, e).sent[s]
    ensures Lost(w, s) || (e.ClearInDestructor? && w.sent[s] in w.orphaned)
  {
    LostWaited(w, e, s);
    if w.sent[s] in w.heap && !e.Unreference? {
      WaitedForIsFreed(w, e, s);
    }
  }

  // ---- Inside of a destructor ------------------------------------------------------------

  function OpenDestructors(w: World): nat {
    |w.destructors|
  }

  /** The run a, then the deletion of an Impl, and then b while its slots are being destroyed. */
  ghost predicate DeletionSpans(a: seq<Event>, b: seq<Event>) {
    && CanRun(START, a) && Enabled(After(START, a), DeleteInDestructor)
    && var w := Apply(After(START, a), DeleteInDestructor);
       CanRun(w, b) && Inside(w, b, OpenDestructors, |w.destructors|)
  }

  /** Where such a run gets to. */
  ghost function Spanned(a: seq<Event>, b: seq<Event>): World
    requires DeletionSpans(a, b)
  {
    After(Apply(After(START, a), DeleteInDestructor), b)
  }

  /** What a step can do to the stack of destructors. */
  lemma {:induction false} DestructorsChange(w: World, e: Event)
    requires Enabled(w, e)
    ensures var t := Apply(w, e);
            || t.destructors == w.destructors
            || (e.DeleteInDestructor? && t.destructors == w.destructors + [Deleting(w.doing.impl)])
            || (e.PollInDestructor? && t.destructors == w.destructors + [Clearing(w.doing.impl)])
            || (w.destructors != [] && t.destructors == Outer(w))
    ensures Apply(w, e).destructors == w.destructors ==> !e.DeleteInDestructor?
  {
  }

  /** The beginning of the deletion that is at this place of the stack. */
  lemma {:induction false} DeletionBegan(es: seq<Event>, k: nat) returns (a: seq<Event>, b: seq<Event>)
    requires CanRun(START, es) && k < |After(START, es).destructors| && After(START, es).destructors[k].Deleting?
    ensures es == a + [DeleteInDestructor] + b && DeletionSpans(a, b)
    ensures |After(START, a).destructors| == k && Spanned(a, b) == After(START, es)
    decreases es
  {
    var n := |es| - 1;
    RunSplits(START, es);
    var pre, e := es[..n], es[n];
    assert es == pre + [e];
    var v := After(START, pre);
    DestructorsChange(v, e);
    if e.DeleteInDestructor? && k == |v.destructors| {
      a, b := pre, [];
      assert a + [DeleteInDestructor] + b == es;
    } else {
      a, b := DeletionBegan(pre, k);
      var w := Apply(After(START, a), DeleteInDestructor);
      DestructorsChange(After(START, a), DeleteInDestructor);
      InsideSnoc(w, b, e, OpenDestructors, |w.destructors|);
      RunsJoin(w, b, [e]);
      assert a + [DeleteInDestructor] + (b + [e]) == a + [DeleteInDestructor] + b + [e];
      b := b + [e];
    }
  }

  lemma {:induction false} SpanJoins(a: seq<Event>, b: seq<Event>)
    requires DeletionSpans(a, b)
    ensures var es := a + [DeleteInDestructor] + b; CanRun(START, es) && After(START, es) == Spanned(a, b)
  {
    RunStep(After(START, a), DeleteInDestructor, []);
    RunsJoin(START, a, [DeleteInDestructor]);
    RunsJoin(START, a + [DeleteInDestructor], b);
  }

  /**
    * In es, a destructor deletes its Impl, the Impl of notification s is made an orphan inside of that
    * by another destructor, while s waits, and then the first destructor clears the orphans.
    */
  ghost predicate ClearsNested(es: seq<Event>, a: seq<Event>, b: seq<Event>, c: seq<Event>, s: nat) {
    && es == a + [DeleteInDestructor] + b + [ClearInDestructor] + c && DeletionSpans(a, b)
    && var w := Spanned(a, b);
       && |w.destructors| == |After(START, a).destructors| + 1
       && Waiting(w, s) && s < |w.sent|
       && w.sent[s] in w.orphaned && w.sent[s] !in After(START, a).orphaned
  }

  ghost predicate ClearedEarly(es: seq<Event>, s: nat) {
    exists a, b, c :: ClearsNested(es, a, b, c, s)
  }

  /** An orphan that a message is waiting for was not one when the pipe was seen empty. */
  lemma {:induction false} OrphanedInside(a: seq<Event>, b: seq<Event>, s: nat)
    requires DeletionSpans(a, b) && Inv(After(START, a)) && Inv(Spanned(a, b))
    requires var w := Spanned(a, b); Waiting(w, s) && s < |w.sent|
    ensures Spanned(a, b).sent[s] !in After(START, a).orphaned
  {
    var v, w := After(START, a), Spanned(a, b);
    var d := w.sent[s];
    WaitingIsSent(w, s);
    if d in v.orphaned {
      assert NoWord(Apply(v, DeleteInDestructor), d);
      NoWordEver(Apply(v, DeleteInDestructor), b, d);
    }
  }

  lemma {:induction false} EndsLater(a: seq<Event>, c: seq<Event>, e: Event)
    ensures a + (c + [e]) == a + c + [e]
  {
  }

  /** The deletion that a destructor is in that is about to clear the Impl of a waiting notification. */
  lemma {:induction false} InnermostDeletion(es: seq<Event>, s: nat) returns (a: seq<Event>, b: seq<Event>)
    requires CanRun(START, es) && Inv(After(START, es)) && Enabled(After(START, es), ClearInDestructor)
    requires var w := After(START, es); Waiting(w, s) && s < |w.sent| && w.sent[s] in w.orphaned
    ensures ClearsNested(es + [ClearInDestructor], a, b, [], s)
  {
    var w := After(START, es);
    a, b := DeletionBegan(es, |w.destructors| - 1);
    Reachable(a);
    OrphanedInside(a, b, s);
    EndsThere(es + [ClearInDestructor]);
  }

  lemma {:induction false} EndsThere(es: seq<Event>)
    ensures es + [] == es
  {
  }

  lemma {:induction false} FindClearing(es: seq<Event>, s: nat) returns (a: seq<Event>, b: seq<Event>, c: seq<Event>)
    requires CanRun(START, es) && Lost(After(START, es), s)
    ensures ClearsNested(es, a, b, c, s)
    decreases es
  {
    var n := |es| - 1;
    RunSplits(START, es);
    var pre, e := es[..n], es[n];
    assert es == pre + [e];
    Reachable(pre);
    var w := After(START, pre);
    LostByClearing(w, e, s);
    if Lost(w, s) {
      a, b, c := FindClearing(pre, s);
      EndsLater(a + [DeleteInDestructor] + b + [ClearInDestructor], c, e);
      c := c + [e];
    } else {
      a, b := InnermostDeletion(pre, s);
      c := [];
    }
  }

  lemma {:induction false} SentStays(w: World, es: seq<Event>, s: nat)
    requires CanRun(w, es) && s < |w.sent|
    ensures s < |After(w, es).sent| && After(w, es).sent[s] == w.sent[s]
    decreases es
  {
    if es != [] {
      SentStays(Apply(w, es[0]), es[1..], s);
    }
  }

  /** What was cleared like that is gone for good. */
  lemma {:induction false} ClearedIsGone(es: seq<Event>, a: seq<Event>, b: seq<Event>, c: seq<Event>, s: nat)
    requires CanRun(START, es) && ClearsNested(es, a, b, c, s)
    ensures var w := After(START, es); s < |w.sent| && w.sent[s] !in w.heap
  {
    var w, ab := Spanned(a, b), a + [DeleteInDestructor] + b;
    SpanJoins(a, b);
    Reachable(ab);
    assert es == ab + ([ClearInDestructor] + c);
    RunDivides(START, ab, [ClearInDestructor] + c);
    assert ([ClearInDestructor] + c)[1..] == c;
    var t := Apply(w, ClearInDestructor);
    InvKept(w, ClearInDestructor);
    assert w.sent[s] in w.heap;
    StaysGone(t, c, w.sent[s]);
    SentStays(t, c, s);
  }

  /** In every run, a waiting notification names an Impl that is gone exactly if that has happened. */
  lemma {:induction false} LostExactlyByClearing(es: seq<Event>, s: nat)
    requires CanRun(START, es) && Waiting(After(START, es), s)
    ensures Lost(After(START, es), s) <==> ClearedEarly(es, s)
  {
    if Lost(After(START, es), s) {
      var a, b, c := FindClearing(es, s);
    }
    if a, b, c :| ClearsNested(es, a, b, c, s) {
      ClearedIsGone(es, a, b, c, s);
    }
  }

  /**
    * Whatever happened before, the next step of any thread is safe, but for the beginning of an emission,
    * which uses an Impl that is gone exactly if that has happened to the notification.
    */
  lemma {:induction false} NextStepIsSafe(es: seq<Event>, e: Event)
    requires CanRun(START, es) && Enabled(After(START, es), e)
    ensures SafeStep(After(START, es), e)
    ensures var w := After(START, es);
            Touched(w, e) <= w.heap
            <==> !(e.BeginEmission? && ClearedEarly(es, w.doing.msg.serial))
  {
    Reachable(es);
    var w := After(START, es);
    StepsAreSafe(w, e);
    if e.BeginEmission? {
      var s := w.doing.msg.serial;
      assert Waiting(w, s);
      WaitingIsSent(w, s);
      LostExactlyByClearing(es, s);
    }
  }

  /** And a run comes to that exactly if its last step is one. */
  lemma {:induction false} RunMisledExactly(es: seq<Event>)
    requires CanRun(START, es)
    ensures After(START, es).misled <==>
              && es != [] && es[|es| - 1] == BeginEmission && CanRun(START, es[..|es| - 1])
              && After(START, es[..|es| - 1]).doing.Emit?
              && ClearedEarly(es[..|es| - 1], After(START, es[..|es| - 1]).doing.msg.serial)
  {
    if es != [] {
      RunSplits(START, es);
      NextStepIsSafe(es[..|es| - 1], es[|es| - 1]);
    }
  }

  // ---- That happens ----------------------------------------------------------------------

  /** A slot of Dispatcher 0 owns Dispatcher 1, and Dispatcher 2 keeps the notifier. */
  const THREE := World({0, 1, 2}, {0, 1, 2}, {0}, map[0 := 0, 1 := 0, 2 := 0], Some(0), 3, [], [], [], [], Idle,
                       1, {0}, [], [], false, false)

  /** Dispatcher 0 is being deleted, the pipe having been seen empty, and then 1 is sent a notification. */
  const SENT := THREE.(heap := {1, 2}, live := {1, 2}, pipe := [Message(1, 0, 0)],
                       destructors := [Deleting(0)], sent := [1])

  /** Dispatcher 1 is being destroyed with the slot. */
  const CLEARING := SENT.(live := {2}, destructors := [Deleting(0), Clearing(1)])

  /** It has been destroyed. */
  const NESTED := SENT.(live := {2}, orphaned := [1], refCount := 2)

  lemma {:induction false} MakeThree()
    ensures var es := [Create(0), Create(1), Create(2), Connect(0)]; CanRun(START, es) && After(START, es) == THREE
  {
    var w1 := Apply(START, Create(0));
    var w2 := Apply(w1, Create(1));
    var w3 := Apply(w2, Create(2));
    assert Apply(w3, Connect(0)) == THREE;
    RunStep(w3, Connect(0), []);
    RunStep(w2, Create(2), [Connect(0)]);
    RunStep(w1, Create(1), [Create(2), Connect(0)]);
    RunStep(START, Create(0), [Create(1), Create(2), Connect(0)]);
  }

  lemma {:induction false} DestroyFirst()
    ensures var es := [BeginDestroy(0), PollInDestructor, DeleteInDestructor] + [Send(1)];
            CanRun(THREE, es) && After(THREE, es) == SENT
  {
    var w1 := Apply(THREE, BeginDestroy(0));
    var w2 := Apply(w1, PollInDestructor);
    var w3 := THREE.(heap := {1, 2}, live := {1, 2}, destructors := [Deleting(0)]);
    assert Apply(w2, DeleteInDestructor) == w3;
    assert Apply(w3, Send(1)) == SENT;
    ThreeSteps(THREE, BeginDestroy(0), PollInDestructor, DeleteInDestructor);
    RunOne(w3, Send(1));
    RunsJoin(THREE, [BeginDestroy(0), PollInDestructor, DeleteInDestructor], [Send(1)]);
  }

  lemma {:induction false} DestroySecond()
    ensures var es := [BeginDestroy(1), PollInDestructor, OrphanInDestructor, Unreference];
            CanRun(SENT, es) && After(SENT, es) == NESTED
  {
    var w1 := Apply(SENT, BeginDestroy(1));
    assert Apply(w1, PollInDestructor) == CLEARING;
    RunStep(w1, PollInDestructor, []);
    RunStep(SENT, BeginDestroy(1), [PollInDestructor]);
    OrphanSecond();
    RunsJoin(SENT, [BeginDestroy(1), PollInDestructor], [OrphanInDestructor, Unreference]);
  }

  lemma {:induction false} OrphanSecond()
    ensures var es := [OrphanInDestructor, Unreference]; CanRun(CLEARING, es) && After(CLEARING, es) == NESTED
  {
    var w1 := Apply(CLEARING, OrphanInDestructor);
    assert w1 == NESTED.(refCount := 3, doing := Release);
    RunStep(w1, Unreference, []);
    RunStep(CLEARING, OrphanInDestructor, [Unreference]);
  }

  lemma {:induction false} ReadNested()
    ensures var es := [ClearInDestructor, Unreference, ReadPipe, BeginEmission];
            CanRun(NESTED, es) && After(NESTED, es).misled
  {
    var w1 := Apply(NESTED, ClearInDestructor);
    var w2 := Apply(w1, Unreference);
    var w3 := Apply(w2, ReadPipe);
    RunStep(w3, BeginEmission, []);
    RunStep(w2, ReadPipe, [BeginEmission]);
    RunStep(w1, Unreference, [ReadPipe, BeginEmission]);
    RunStep(NESTED, ClearInDestructor, [Unreference, ReadPipe, BeginEmission]);
  }

  /** So there is a run in which the handler uses an Impl that is gone. */
  lemma {:induction false} NestedRunMisleads()
    ensures var es := [Create(0), Create(1), Create(2), Connect(0)]
                      + ([BeginDestroy(0), PollInDestructor, DeleteInDestructor] + [Send(1)])
                      + [BeginDestroy(1), PollInDestructor, OrphanInDestructor, Unreference]
                      + [ClearInDestructor, Unreference, ReadPipe, BeginEmission];
            CanRun(START, es) && After(START, es).misled
  {
    MakeThree();
    DestroyFirst();
    DestroySecond();
    ReadNested();
    var a := [Create(0), Create(1), Create(2), Connect(0)];
    var b := [BeginDestroy(0), PollInDestructor, DeleteInDestructor] + [Send(1)];
    var c := [BeginDestroy(1), PollInDestructor, OrphanInDestructor, Unreference];
    RunsJoin(START, a, b);
    RunsJoin(START, a + b, c);
    RunsJoin(START, a + b + c, [ClearInDestructor, Unreference, ReadPipe, BeginEmission]);
  }
}

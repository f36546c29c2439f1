/**
  * The protocol of Glib::Dispatcher: senders in any thread, one receiver thread with nested
  * handlers and nested destructors, one FIFO pipe of pointers, and deletion of Dispatcher::Impl
  * objects that is put off while the pipe holds messages. Every step is atomic; senders may act
  * between any two steps of the receiver, in particular between "the pipe is empty" and the deletion.
  */
module DispatcherProtocol {
  import opened Wrappers

  type ImplId = nat
  type NotifierId = nat

  /** DispatchNotifyData. The serial number is history: it counts the notifications sent. */
  datatype Message = Message(impl: ImplId, notifier: NotifierId, serial: nat)

  /** pipe_io_handler() of one notifier, inside the signal emission for msg. */
  datatype Emission = Emission(notifier: NotifierId, msg: Message)

  /** Where the receiver thread stands between two atomic steps. */
  datatype Activity =
    | Idle                                             // in the main loop, in a slot, or in the destructor of a slot
    | Emit(notifier: NotifierId, msg: Message)         // msg is read; dispatcher_impl->signal_() is next
    | CheckPipe(notifier: NotifierId)                  // orphans found after an emission; pipe_is_empty() is next
    | ClearOrphans(notifier: NotifierId)               // pipe seen empty after an emission
    | Destroy(impl: ImplId)                            // in ~Dispatcher; pipe_is_empty() is next
    | DeleteImpl(impl: ImplId)                         // in ~Dispatcher; pipe seen empty
    | Release                                          // in ~Dispatcher; --ref_count_ is next

  /** ~Dispatcher while the slots of its signal_ are being destroyed; these may own other Dispatchers. */
  datatype Destructor =
    | Deleting(impl: ImplId)    // in delete of the Impl; clearing the orphans is next
    | Clearing(impl: ImplId)    // in signal_.clear(); push_front() is next

  datatype World = World(
    heap: set<ImplId>,              // the Impls in memory
    live: set<ImplId>,              // impl_ of the Dispatchers whose destructor has not begun
    connected: set<ImplId>,         // the Impls whose signal_ has slots and was not cleared
    owner: map<ImplId, NotifierId>, // Impl::notifier_
    instance: Option<NotifierId>,   // thread_specific_instance_, and the fields of that notifier:
    refCount: int,                  // ref_count_
    orphaned: seq<ImplId>,          // orphaned_dispatcher_impl_
    pipe: seq<Message>,
    emissions: seq<Emission>,       // handlers that are inside their emission, the innermost last
    destructors: seq<Destructor>,   // on top of these, destructors that destroy slots, the innermost last
    doing: Activity,
    notifiers: nat,                 // how many notifiers were created
    memory: set<NotifierId>,        // the notifiers in memory
    sent: seq<ImplId>,              // history: the target of every notification, by serial number
    begun: seq<nat>,                // history: the serial numbers of the emissions that were begun
    dangling: bool,                 // a notifier that is not in memory was used
    misled: bool                    // an Impl that is not in memory was used
  )

  const START := World({}, {}, {}, map[], None, 0, [], [], [], [], Idle, 0, {}, [], [], false, false)

  datatype Event =
    | Create(impl: ImplId)
    | Connect(impl: ImplId)
    | Disconnect(impl: ImplId)
    | Send(impl: ImplId)
    | ReadPipe
    | BeginEmission
    | RunSlot(impl: ImplId)
    | EndEmission
    | PollAfterEmission
    | ClearAfterEmission
    | BeginDestroy(impl: ImplId)
    | PollInDestructor
    | DeleteInDestructor
    | ClearInDestructor
    | OrphanInDestructor
    | Unreference

  /** The Impl whose Dispatcher is being destroyed, before it is deleted or its signal is cleared. */
  function Dying(w: World): set<ImplId> {
    match w.doing
    case Destroy(d) => {d}
    case DeleteImpl(d) => {d}
    case _ => {}
  }

  function Elements(s: seq<ImplId>): set<ImplId> {
    set d | d in s
  }

  /** The Impls whose signals are being cleared. */
  function Cleared(frames: seq<Destructor>): set<ImplId> {
    set f | f in frames && f.Clearing? :: f.impl
  }

  /** A destructor has the next step. */
  predicate InDestructor(w: World) {
    w.doing.Destroy? || w.doing.DeleteImpl? || w.doing.Release?
  }

  function Innermost(w: World): Destructor
    requires w.destructors != []
  {
    w.destructors[|w.destructors| - 1]
  }

  function Outer(w: World): seq<Destructor>
    requires w.destructors != []
  {
    w.destructors[..|w.destructors| - 1]
  }

  /** The receiver is in its main loop, or in a slot. */
  predicate InLoop(w: World) {
    w.doing.Idle? && w.destructors == []
  }

  /** The innermost emission belongs to one notifier, and another one is installed. */
  predicate Stale(w: World)
    requires w.emissions != []
  {
    w.instance.Some? && w.emissions[|w.emissions| - 1].notifier != w.instance.value
  }

  /** A step that a handler makes by itself. */
  predicate ByHandler(e: Event) {
    e.ReadPipe? || e.BeginEmission? || e.EndEmission? || e.PollAfterEmission? || e.ClearAfterEmission?
  }

  /** A step of a destructor before it gives up its reference. */
  predicate ByDestructor(e: Event) {
    e.PollInDestructor? || e.DeleteInDestructor? || e.ClearInDestructor? || e.OrphanInDestructor?
  }

  /** When the program can take a step. Sending needs a Dispatcher whose destructor has not begun. */
  predicate Enabled(w: World, e: Event) {
    && !w.dangling && !w.misled
    && match e
       case Create(d) => w.doing.Idle? && d !in w.owner
       case Connect(d) => w.doing.Idle? && d in w.live
       case Disconnect(d) => w.doing.Idle? && d in w.live
       case Send(d) => d in w.live && d in w.owner
       case ReadPipe => InLoop(w) && w.instance.Some? && w.pipe != []
       case BeginEmission => w.doing.Emit?
       case RunSlot(d) =>
         d in w.connected && InLoop(w) && w.emissions != [] && w.emissions[|w.emissions| - 1].msg.impl == d
       case EndEmission => InLoop(w) && w.emissions != []
       case PollAfterEmission => w.doing.CheckPipe?
       case ClearAfterEmission => w.doing.ClearOrphans?
       case BeginDestroy(d) => w.doing.Idle? && d in w.live
       case PollInDestructor => w.doing.Destroy?
       case DeleteInDestructor => w.doing.DeleteImpl?
       case ClearInDestructor => w.doing.Idle? && w.destructors != [] && Innermost(w).Deleting?
       case OrphanInDestructor => w.doing.Idle? && w.destructors != [] && Innermost(w).Clearing?
       case Unreference => w.doing.Release?
  }

  /** reference_instance() */
  function Referenced(w: World): (t: World)
    ensures t.instance.Some?
  {
    if w.instance.Some? then w.(refCount := w.refCount + 1)
    else w.(instance := Some(w.notifiers), refCount := 1, orphaned := [], pipe := [],
            notifiers := w.notifiers + 1, memory := w.memory + {w.notifiers})
  }

  /** delete thread_specific_instance_ */
  function WithoutNotifier(w: World): World {
    w.(instance := None, heap := w.heap - Elements(w.orphaned), orphaned := [], pipe := [],
       memory := w.memory - (if w.instance.Some? then {w.instance.value} else {}))
  }

  function Apply(w: World, e: Event): World
    requires Enabled(w, e)
  {
    match e
    case Create(d) =>
      var t := Referenced(w);
      t.(heap := w.heap + {d}, live := w.live + {d}, owner := w.owner[d := t.instance.value])
    case Connect(d) => w.(connected := w.connected + {d})
    case Disconnect(d) => w.(connected := w.connected - {d})
    case Send(d) => w.(pipe := w.pipe + [Message(d, w.owner[d], |w.sent|)], sent := w.sent + [d])
    case ReadPipe => w.(pipe := w.pipe[1..], doing := Emit(w.instance.value, w.pipe[0]))
    case BeginEmission =>
      if w.doing.msg.impl !in w.heap then w.(misled := true)
      else w.(emissions := w.emissions + [Emission(w.doing.notifier, w.doing.msg)], doing := Idle,
              begun := w.begun + [w.doing.msg.serial])
    case RunSlot(_) => w
    case EndEmission =>
      var n := |w.emissions| - 1;
      // The null test, and then a member of this.
      if w.instance.Some? && w.emissions[n].notifier !in w.memory then w.(dangling := true)
      else w.(emissions := w.emissions[..n],
              doing := if w.instance.Some? && w.orphaned != [] then CheckPipe(w.emissions[n].notifier) else Idle)
    case PollAfterEmission => w.(doing := if w.pipe == [] then ClearOrphans(w.doing.notifier) else Idle)
    case ClearAfterEmission => w.(heap := w.heap - Elements(w.orphaned), orphaned := [], doing := Idle)
    case BeginDestroy(d) => w.(live := w.live - {d}, doing := Destroy(d))
    case PollInDestructor =>
      var d := w.doing.impl;
      if w.pipe == [] then w.(doing := DeleteImpl(d))
      else w.(connected := w.connected - {d}, destructors := w.destructors + [Clearing(d)], doing := Idle)
    case DeleteInDestructor =>
      // signal_ is not cleared here. If it is in emission, its other slots may still run.
      w.(heap := w.heap - {w.doing.impl}, destructors := w.destructors + [Deleting(w.doing.impl)], doing := Idle)
    case ClearInDestructor =>
      w.(heap := w.heap - Elements(w.orphaned), orphaned := [], destructors := Outer(w), doing := Release)
    case OrphanInDestructor =>
      w.(orphaned := [Innermost(w).impl] + w.orphaned, destructors := Outer(w), doing := Release)
    case Unreference =>
      var t := w.(refCount := w.refCount - 1, doing := Idle);
      if t.refCount <= 0 then WithoutNotifier(t) else t
  }

  /** The Impls whose memory the step reads, writes or deletes. */
  function Touched(w: World, e: Event): set<ImplId> {
    match e
    case Connect(d) => {d}
    case Disconnect(d) => {d}
    case Send(d) => {d}
    case BeginEmission => if w.doing.Emit? then {w.doing.msg.impl} else {}
    case ClearAfterEmission => Elements(w.orphaned)
    case BeginDestroy(d) => {d}
    case PollInDestructor => Dying(w)
    case DeleteInDestructor => Dying(w)
    case ClearInDestructor => Elements(w.orphaned)
    case OrphanInDestructor => if w.destructors != [] then {Innermost(w).impl} else {}
    case Unreference => if w.refCount - 1 <= 0 then Elements(w.orphaned) else {}
    case _ => {}
  }

  /** The notifiers with members that the step uses. */
  function Uses(w: World, e: Event): set<NotifierId> {
    var installed := if w.instance.Some? then {w.instance.value} else {};
    match e
    case Create(_) => installed
    case Send(d) => if d in w.owner then {w.owner[d]} else {}
    case ReadPipe => installed
    case EndEmission => if w.instance.Some? && w.emissions != [] then {w.emissions[|w.emissions| - 1].notifier} else {}
    case PollAfterEmission => if w.doing.CheckPipe? then {w.doing.notifier} else {}
    case ClearAfterEmission => if w.doing.ClearOrphans? then {w.doing.notifier} else {}
    case PollInDestructor => installed
    case ClearInDestructor => installed
    case OrphanInDestructor => installed
    case Unreference => installed
    case _ => {}
  }

  // ---- Invariants ------------------------------------------------------------------------

  /** Every Impl in memory is owned once: by a Dispatcher, by the list of orphans, or by a destructor. */
  ghost predicate Ownership(w: World) {
    var cleared := Cleared(w.destructors);
    && (forall d :: d in w.heap <==> d in w.live || d in w.orphaned || d in Dying(w) || d in cleared)
    && (forall d :: d in w.live ==> d !in w.orphaned && d !in Dying(w) && d !in cleared)
    && (forall d :: d in Dying(w) ==> d !in w.orphaned && d !in cleared)
    && (forall d :: d in cleared ==> d !in w.orphaned)
    && Distinct(w.orphaned)
    && ClearedOnce(w.destructors)
    && (forall d :: d in w.connected && d in w.heap ==> d in w.live || d in Dying(w))
  }

  predicate Distinct(s: seq<ImplId>) {
    forall i, j :: 0 <= i < j < |s| ==> s[i] != s[j]
  }

  predicate ClearedOnce(frames: seq<Destructor>) {
    forall i, j :: 0 <= i < j < |frames| && frames[i].Clearing? && frames[j].Clearing? ==> frames[i] != frames[j]
  }

  /** The notifier exists exactly while it is referenced, once by each Dispatcher; all Impls are of this notifier. */
  ghost predicate Notifier(w: World) {
    && w.refCount == |w.live| + |w.destructors| + (if InDestructor(w) then 1 else 0)
    && (w.instance.Some? <==> w.refCount > 0)
    && (w.instance.Some? ==> w.instance.value < w.notifiers)
    && w.memory == (if w.instance.Some? then {w.instance.value} else {})
    && (w.instance.None? ==> w.orphaned == [] && w.pipe == [])
    && (forall d :: d in w.heap ==> d in w.owner && w.instance == Some(w.owner[d]))
    && (forall d :: d in w.sent ==> d in w.owner)
    && (InHandler(w) ==> w.instance == Some(w.doing.notifier) && w.destructors == [])
    && (forall i :: 0 <= i < |w.emissions| ==> w.emissions[i].notifier < w.notifiers)
  }

  /** A handler has the next step. */
  predicate InHandler(w: World) {
    w.doing.Emit? || w.doing.CheckPipe? || w.doing.ClearOrphans?
  }

  /**
    * Messages are those of the current notifier. A pipe seen empty has had messages to living
    * Dispatchers only, and one seen with messages still has them.
    */
  ghost predicate PipeAsSeen(w: World) {
    && (forall m :: m in w.pipe ==> w.instance == Some(m.notifier))
    && (w.doing.Emit? ==> w.instance == Some(w.doing.msg.notifier))
    && (w.doing.ClearOrphans? || w.doing.DeleteImpl? ==> forall m :: m in w.pipe ==> m.impl in w.live)
    && (Cleared(w.destructors) != {} ==> w.pipe != [])
  }

  /** Orphans are only kept while a message, a handler or a destructor is left that will have them cleared. */
  ghost predicate OrphansAttended(w: World) {
    w.orphaned != [] ==>
      || w.pipe != []
      || InHandler(w) || w.doing.DeleteImpl?
      || (exists f :: f in w.destructors && f.Deleting?)
      || exists i :: 0 <= i < |w.emissions| && Some(w.emissions[i].notifier) == w.instance
  }

  /** How many notifications have left the pipe, one way or another. */
  function Gone(w: World): int {
    |w.sent| - |w.pipe|
  }

  /** The pipe holds the notifications sent last; emissions begin in the order of sending, each once. */
  ghost predicate History(w: World) {
    && |w.pipe| <= |w.sent|
    && (forall i :: 0 <= i < |w.pipe| ==> w.pipe[i].serial == Gone(w) + i && w.pipe[i].impl == w.sent[Gone(w) + i])
    && (forall i, j :: 0 <= i < j < |w.begun| ==> w.begun[i] < w.begun[j])
    && (forall i :: 0 <= i < |w.begun| ==> w.begun[i] < Gone(w))
    && (w.doing.Emit? ==>
          && w.doing.msg.serial == Gone(w) - 1 && w.doing.msg.impl == w.sent[Gone(w) - 1]
          && forall i :: 0 <= i < |w.begun| ==> w.begun[i] < w.doing.msg.serial)
    && (forall s :: 0 <= s < Gone(w) && w.sent[s] in w.live ==>
          s in w.begun || (w.doing.Emit? && w.doing.msg.serial == s))
  }

  /** Every handler is in the emission of a notification that was sent to the Impl, and was read. */
  ghost predicate FramesAreSent(w: World) {
    forall i :: 0 <= i < |w.emissions| ==> IsSent(w, w.emissions[i].msg) && w.emissions[i].msg.serial in w.begun
  }

  predicate IsSent(w: World, m: Message) {
    m.serial < |w.sent| && w.sent[m.serial] == m.impl
  }

  ghost predicate Inv(w: World) {
    Ownership(w) && Notifier(w) && PipeAsSeen(w) && OrphansAttended(w) && History(w) && FramesAreSent(w)
  }

  lemma {:induction false} StartInv()
    ensures Inv(START)
  {
  }

  // ---- The stack of destructors ----------------------------------------------------------

  lemma {:induction false} ClearedPush(frames: seq<Destructor>, f: Destructor)
    ensures Cleared(frames + [f]) == Cleared(frames) + (if f.Clearing? then {f.impl} else {})
    ensures ClearedOnce(frames) && (f.Clearing? ==> f.impl !in Cleared(frames)) ==> ClearedOnce(frames + [f])
  {
    assert forall g :: g in frames + [f] <==> g in frames || g == f;
  }

  lemma {:induction false} ClearedPop(w: World)
    requires w.destructors != [] && ClearedOnce(w.destructors)
    ensures w.destructors == Outer(w) + [Innermost(w)] && ClearedOnce(Outer(w))
    ensures Cleared(w.destructors) == Cleared(Outer(w)) + (if Innermost(w).Clearing? then {Innermost(w).impl} else {})
    ensures Innermost(w).Clearing? ==> Innermost(w).impl !in Cleared(Outer(w))
  {
    assert w.destructors == Outer(w) + [Innermost(w)];
    ClearedPush(Outer(w), Innermost(w));
  }

  // ---- Ownership -------------------------------------------------------------------------

  lemma {:induction false} OwnershipOfCreate(w: World, d: ImplId)
    requires Ownership(w) && d !in w.heap && Enabled(w, Create(d))
    requires w.instance.None? ==> w.orphaned == []
    ensures Ownership(Apply(w, Create(d)))
  {
  }

  lemma {:induction false} OwnershipOfDestroy(w: World, d: ImplId)
    requires Ownership(w) && Enabled(w, BeginDestroy(d))
    ensures Ownership(Apply(w, BeginDestroy(d)))
  {
  }

  lemma {:induction false} OwnershipOfPoll(w: World)
    requires Ownership(w) && Enabled(w, PollInDestructor)
    ensures Ownership(Apply(w, PollInDestructor))
  {
    ClearedPush(w.destructors, Clearing(w.doing.impl));
  }

  lemma {:induction false} OwnershipOfDelete(w: World)
    requires Ownership(w) && Enabled(w, DeleteInDestructor)
    ensures Ownership(Apply(w, DeleteInDestructor))
  {
    ClearedPush(w.destructors, Deleting(w.doing.impl));
  }

  lemma {:induction false} OwnershipOfClearing(w: World)
    requires Ownership(w) && Enabled(w, ClearInDestructor)
    ensures Ownership(Apply(w, ClearInDestructor))
  {
    ClearedPop(w);
  }

  lemma {:induction false} OwnershipOfOrphan(w: World)
    requires Ownership(w) && Enabled(w, OrphanInDestructor)
    ensures Ownership(Apply(w, OrphanInDestructor))
  {
    ClearedPop(w);
  }

  lemma {:induction false} OwnershipOfClear(w: World)
    requires Ownership(w) && Enabled(w, ClearAfterEmission)
    ensures Ownership(Apply(w, ClearAfterEmission))
  {
  }

  lemma {:induction false} OwnershipOfUnreference(w: World)
    requires Ownership(w) && Enabled(w, Unreference)
    ensures Ownership(Apply(w, Unreference))
  {
  }

  lemma {:induction false} OwnershipUnchanged(w: World, t: World)
    requires Ownership(w) && t.heap == w.heap && t.live == w.live && t.orphaned == w.orphaned && Dying(t) == Dying(w)
    requires t.connected <= w.connected + w.live && t.destructors == w.destructors
    ensures Ownership(t)
  {
  }

  lemma {:induction false} OwnershipKept(w: World, e: Event)
    requires Ownership(w) && Notifier(w) && Enabled(w, e)
    ensures Ownership(Apply(w, e))
  {
    match e
    case Create(d) => OwnershipOfCreate(w, d);
    case BeginDestroy(d) => OwnershipOfDestroy(w, d);
    case PollInDestructor => OwnershipOfPoll(w);
    case DeleteInDestructor => OwnershipOfDelete(w);
    case ClearInDestructor => OwnershipOfClearing(w);
    case OrphanInDestructor => OwnershipOfOrphan(w);
    case ClearAfterEmission => OwnershipOfClear(w);
    case Unreference => OwnershipOfUnreference(w);
    case _ => OwnershipUnchanged(w, Apply(w, e));
  }

  // ---- The notifier ----------------------------------------------------------------------

  lemma {:induction false} NotifierOfCreate(w: World, d: ImplId)
    requires w.live <= w.heap && Notifier(w) && Enabled(w, Create(d))
    ensures Notifier(Apply(w, Create(d)))
  {
    assert d !in w.live;
    if w.instance.None? {
      NotifierOfFirst(w, d);
    } else {
      NotifierOfNext(w, d);
    }
  }

  lemma {:induction false} NotifierOfFirst(w: World, d: ImplId)
    requires w.instance.None? && Notifier(w) && Enabled(w, Create(d))
    ensures Notifier(Apply(w, Create(d)))
  {
    assert w.refCount == 0 && w.live == {} && w.heap == {} && w.memory == {};
  }

  lemma {:induction false} NotifierOfNext(w: World, d: ImplId)
    requires w.instance.Some? && d !in w.live && Notifier(w) && Enabled(w, Create(d))
    ensures Notifier(Apply(w, Create(d)))
  {
    var t := Apply(w, Create(d));
    assert |t.live| == |w.live| + 1;
  }

  lemma {:induction false} NotifierOfDestructor(w: World, t: World)
    requires Notifier(w) && w.instance.Some? && t.heap <= w.heap
    requires t.refCount == w.refCount && t.instance == w.instance && t.memory == w.memory && t.owner == w.owner
    requires t.sent == w.sent && t.emissions == w.emissions && t.notifiers == w.notifiers && !InHandler(t)
    requires |t.live| + |t.destructors| + (if InDestructor(t) then 1 else 0)
          == |w.live| + |w.destructors| + (if InDestructor(w) then 1 else 0)
    ensures Notifier(t)
  {
  }

  lemma {:induction false} NotifierOfDestroy(w: World, d: ImplId)
    requires Notifier(w) && Enabled(w, BeginDestroy(d)) && d in w.heap
    ensures Notifier(Apply(w, BeginDestroy(d)))
  {
    assert |w.live - {d}| == |w.live| - 1;
    NotifierOfDestructor(w, Apply(w, BeginDestroy(d)));
  }

  lemma {:induction false} NotifierOfHandler(w: World, e: Event)
    requires Notifier(w) && Enabled(w, e) && ByHandler(e)
    ensures Notifier(Apply(w, e))
  {
  }

  lemma {:induction false} NotifierOfDestructorStep(w: World, e: Event)
    requires Notifier(w) && Enabled(w, e) && ByDestructor(e)
    ensures Notifier(Apply(w, e))
  {
    NotifierOfDestructor(w, Apply(w, e));
  }

  lemma {:induction false} NotifierOfSlot(w: World, e: Event)
    requires Ownership(w) && Notifier(w) && Enabled(w, e)
    requires e.Connect? || e.Disconnect? || e.Send? || e.RunSlot?
    ensures Notifier(Apply(w, e))
  {
  }

  lemma {:induction false} NotifierOfUnreference(w: World)
    requires Ownership(w) && Notifier(w) && Enabled(w, Unreference)
    ensures Notifier(Apply(w, Unreference))
  {
    if w.refCount == 1 {
      assert w.live == {} && w.destructors == [];
    }
  }

  lemma {:induction false} NotifierKept(w: World, e: Event)
    requires Ownership(w) && Notifier(w) && Enabled(w, e)
    ensures Notifier(Apply(w, e))
  {
    match e
    case Create(d) => assert w.live <= w.heap; NotifierOfCreate(w, d);
    case BeginDestroy(d) => NotifierOfDestroy(w, d);
    case Unreference => NotifierOfUnreference(w);
    case _ =>
      if ByHandler(e) {
        NotifierOfHandler(w, e);
      } else if ByDestructor(e) {
        NotifierOfDestructorStep(w, e);
      } else {
        NotifierOfSlot(w, e);
      }
  }

  // ---- The pipe --------------------------------------------------------------------------

  lemma {:induction false} PipeOfHandler(w: World, e: Event)
    requires Notifier(w) && PipeAsSeen(w) && Enabled(w, e) && ByHandler(e)
    ensures PipeAsSeen(Apply(w, e))
  {
    if e.ReadPipe? {
      assert w.pipe[0] in w.pipe;
    }
  }

  lemma {:induction false} PipeOfSlot(w: World, e: Event)
    requires Ownership(w) && Notifier(w) && PipeAsSeen(w) && Enabled(w, e)
    requires !e.Unreference? && !ByHandler(e) && !ByDestructor(e)
    ensures PipeAsSeen(Apply(w, e))
  {
  }

  lemma {:induction false} PipeOfDestructor(w: World, e: Event)
    requires Ownership(w) && Notifier(w) && PipeAsSeen(w) && Enabled(w, e)
    requires ByDestructor(e)
    ensures PipeAsSeen(Apply(w, e))
  {
    if e.PollInDestructor? || e.DeleteInDestructor? {
      ClearedPush(w.destructors, if e.PollInDestructor? then Clearing(w.doing.impl) else Deleting(w.doing.impl));
    } else {
      ClearedPop(w);
    }
  }

  lemma {:induction false} PipeOfUnreference(w: World)
    requires Notifier(w) && PipeAsSeen(w) && Enabled(w, Unreference)
    ensures PipeAsSeen(Apply(w, Unreference))
  {
    if w.refCount == 1 {
      assert w.destructors == [];
    }
  }

  lemma {:induction false} PipeAsSeenKept(w: World, e: Event)
    requires Ownership(w) && Notifier(w) && PipeAsSeen(w) && Enabled(w, e)
    ensures PipeAsSeen(Apply(w, e))
  {
    if e.Unreference? {
      PipeOfUnreference(w);
    } else if ByHandler(e) {
      PipeOfHandler(w, e);
    } else if ByDestructor(e) {
      PipeOfDestructor(w, e);
    } else {
      PipeOfSlot(w, e);
    }
  }

  // ---- Orphans ---------------------------------------------------------------------------

  lemma {:induction false} OrphansOfDestructor(w: World, e: Event)
    requires Inv(w) && Enabled(w, e)
    requires ByDestructor(e)
    ensures OrphansAttended(Apply(w, e))
  {
    var t := Apply(w, e);
    if e.OrphanInDestructor? {
      assert Innermost(w).impl in Cleared(w.destructors);
    } else if e.DeleteInDestructor? {
      assert t.destructors[|w.destructors|].Deleting?;
    } else if f :| f in w.destructors && f.Deleting? {
      assert e.PollInDestructor? ==> f in t.destructors;
    }
  }

  lemma {:induction false} OrphansAttendedKept(w: World, e: Event)
    requires Inv(w) && Enabled(w, e)
    ensures OrphansAttended(Apply(w, e))
  {
    var t := Apply(w, e);
    if ByDestructor(e) {
      OrphansOfDestructor(w, e);
    } else if e.BeginEmission? && !t.misled {
      assert t.emissions[|w.emissions|].notifier == w.doing.notifier;
    } else if i :| 0 <= i < |w.emissions| && Some(w.emissions[i].notifier) == w.instance {
      assert t.emissions != w.emissions || Some(t.emissions[i].notifier) == w.instance;
    }
  }

  // ---- History ---------------------------------------------------------------------------

  lemma {:induction false} HistoryOfSend(w: World, d: ImplId)
    requires Ownership(w) && Notifier(w) && PipeAsSeen(w) && History(w) && Enabled(w, Send(d))
    ensures History(Apply(w, Send(d)))
  {
  }

  lemma {:induction false} HistoryOfRead(w: World)
    requires Ownership(w) && Notifier(w) && PipeAsSeen(w) && History(w) && Enabled(w, ReadPipe)
    ensures History(Apply(w, ReadPipe))
  {
    var t := Apply(w, ReadPipe);
    assert w.pipe[0].serial == Gone(w) && w.pipe[0].impl == w.sent[Gone(w)];
    forall i | 0 <= i < |t.pipe|
      ensures t.pipe[i].serial == Gone(t) + i && t.pipe[i].impl == t.sent[Gone(t) + i]
    {
      assert t.pipe[i] == w.pipe[i + 1];
    }
  }

  lemma {:induction false} HistoryOfBegin(w: World)
    requires Ownership(w) && Notifier(w) && PipeAsSeen(w) && History(w) && Enabled(w, BeginEmission)
    requires w.doing.msg.impl in w.heap
    ensures History(Apply(w, BeginEmission))
  {
    var t, s := Apply(w, BeginEmission), w.doing.msg.serial;
    assert t.begun[|w.begun|] == s;
    forall i | 0 <= i < |w.begun|
      ensures t.begun[i] == w.begun[i] < s
    {
    }
    forall k | 0 <= k < Gone(t) && t.sent[k] in t.live
      ensures k in t.begun
    {
      if k != s {
        assert k in w.begun;
      }
    }
  }

  lemma {:induction false} HistoryOfUnreference(w: World)
    requires Ownership(w) && Notifier(w) && PipeAsSeen(w) && History(w) && Enabled(w, Unreference)
    ensures History(Apply(w, Unreference))
  {
  }

  lemma {:induction false} HistoryUnchanged(w: World, t: World)
    requires History(w) && t.sent == w.sent && t.begun == w.begun && t.pipe == w.pipe
    requires t.doing == w.doing || (!w.doing.Emit? && !t.doing.Emit?)
    requires forall d :: d in t.live && d in w.sent ==> d in w.live
    ensures History(t)
  {
  }

  lemma {:induction false} HistoryKept(w: World, e: Event)
    requires Ownership(w) && Notifier(w) && PipeAsSeen(w) && History(w) && Enabled(w, e)
    ensures History(Apply(w, e))
  {
    match e
    case Send(d) => HistoryOfSend(w, d);
    case ReadPipe => HistoryOfRead(w);
    case BeginEmission =>
      if w.doing.msg.impl in w.heap {
        HistoryOfBegin(w);
      } else {
        HistoryUnchanged(w, Apply(w, e));
      }
    case Unreference => HistoryOfUnreference(w);
    case _ => HistoryUnchanged(w, Apply(w, e));
  }

  lemma {:induction false} FramesAreSentKept(w: World, e: Event)
    requires History(w) && FramesAreSent(w) && Enabled(w, e)
    ensures FramesAreSent(Apply(w, e))
  {
    var t := Apply(w, e);
    if e.BeginEmission? && !t.misled {
      assert t.begun[|w.begun|] == w.doing.msg.serial;
    }
    forall i | 0 <= i < |t.emissions|
      ensures IsSent(t, t.emissions[i].msg) && t.emissions[i].msg.serial in t.begun
    {
      assert i < |w.emissions| ==> t.emissions[i] == w.emissions[i] && IsSent(w, w.emissions[i].msg);
    }
  }

  lemma {:induction false} InvKept(w: World, e: Event)
    requires Inv(w) && Enabled(w, e)
    ensures Inv(Apply(w, e))
  {
    OwnershipKept(w, e);
    NotifierKept(w, e);
    PipeAsSeenKept(w, e);
    OrphansAttendedKept(w, e);
    HistoryKept(w, e);
    FramesAreSentKept(w, e);
  }

  // ---- Runs ------------------------------------------------------------------------------

  predicate CanRun(w: World, es: seq<Event>)
    decreases es
  {
    es == [] || (Enabled(w, es[0]) && CanRun(Apply(w, es[0]), es[1..]))
  }

  function After(w: World, es: seq<Event>): World
    requires CanRun(w, es)
    decreases es
  {
    if es == [] then w else After(Apply(w, es[0]), es[1..])
  }

  lemma {:induction false} RunsKeepInv(w: World, es: seq<Event>)
    requires Inv(w) && CanRun(w, es)
    ensures Inv(After(w, es))
    decreases es
  {
    if es != [] {
      InvKept(w, es[0]);
      RunsKeepInv(Apply(w, es[0]), es[1..]);
    }
  }

  /**
    * The step follows and deletes only pointers to Impls in memory, except perhaps at the beginning
    * of an emission, deletes none twice, uses a notifier in memory, except perhaps at the end of an
    * emission, and passes the sanity checks (g_return_if_fail) on the notifier.
    */
  ghost predicate SafeStep(w: World, e: Event) {
    && Enabled(w, e)
    && w.heap <= w.owner.Keys
    && (Touched(w, e) <= w.heap || e.BeginEmission?)
    && (Uses(w, e) <= w.memory || e.EndEmission?)
    && Distinct(w.orphaned)
    && (e.Create? && w.instance.None? ==> w.refCount == 0 && w.orphaned == [] && w.pipe == [])
    && (e.ReadPipe? ==> w.instance == Some(w.pipe[0].notifier))
    && (e.BeginDestroy? ==> w.instance == Some(w.owner[e.impl]))
    && (e.PollInDestructor? || e.ClearInDestructor? || e.OrphanInDestructor? || e.Unreference? ==>
          w.instance.Some? && w.refCount >= 1)
    && (w.instance.Some? ==> w.instance.value in w.memory)
  }

  lemma {:induction false} StepsAreSafe(w: World, e: Event)
    requires Inv(w) && Enabled(w, e)
    ensures SafeStep(w, e)
  {
    if w.pipe != [] {
      assert w.pipe[0] in w.pipe;
    }
    if w.destructors != [] {
      assert Innermost(w).Clearing? ==> Innermost(w).impl in Cleared(w.destructors);
    }
  }
}

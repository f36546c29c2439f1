/**
  * Who deletes a Glib::Source: the C++ wrapper is owned by its references and by the callback
  * data of the GSource, and goes with the later of the two. Any number of threads may act; a
  * step is what they cannot interrupt, which is one operation on an atomic counter at most.
  */
module SourceLifetime {

  /** How far the last unreference() has come. */
  datatype Release =
    | Referenced     // ref_count_ > 0
    | Noted          // ref_count_ reached 0 and gobject_ was copied; destroy_notify_callback2() is next
    | Dropped        // keep_wrapper_ was decremented; g_source_unref() is next
    | Released

  /** How far SourceCallbackData::destroy_notify_callback(), which GLib calls once, has come. */
  datatype Notify =
    | Attached       // not called yet
    | Called         // the connection node is gone; destroy_notify_callback2() is next
    | Finished       // keep_wrapper_ was decremented if wrapper is set; deleting the data is next
    | Freed

  datatype State = State(
    inMemory: bool,      // the wrapper is in memory
    gobject: bool,       // gobject_ is not null
    refCount: int,       // ref_count_
    keepWrapper: int,    // keep_wrapper_
    dataWrapper: bool,   // SourceCallbackData::wrapper is not null
    release: Release,
    notify: Notify,
    aborted: bool,       // the constructor of a derived class threw
    others: nat,         // references to the GSource, other than that of the wrapper
    destroyed: bool,     // the GSource was destroyed
    ready: bool,         // prepare() or check() said that it is to be dispatched, and it was not yet
    queries: nat,        // running calls of prepare() and check() of the wrapper
    dispatches: nat,     // running dispatches, which keep GLib from calling the notification
    unrefs: nat,         // history: calls of g_source_unref() by the wrapper
    deletions: nat,      // history: deletions of the wrapper
    misused: bool        // a wrapper that is gone was used
  )

  /** A wrapper just constructed. */
  const NEW := State(true, true, 1, 2, true, Referenced, Attached, false, 0, false, false, 0, 0, 0, 0, false)

  datatype Event =
    | Reference | Unreference | DropByReferences | UnrefSource
    | TakeSource | LeaveSource | DestroySource
    | BeginQuery            // prepare_vfunc() or check_vfunc(), which tests the wrapper for null
    | EndQuery(found: bool) // it returns this
    | GiveUp                // the main loop does not dispatch what was found ready
    | BeginDispatch | EndDispatch
    | CallNotify | DropByData | FreeData
    | Abort

  /** The GSource is in memory. */
  predicate SourceAlive(s: State) {
    s.unrefs == 0 || s.others > 0
  }

  /** A main loop can find the source in its context. */
  predicate InContext(s: State) {
    SourceAlive(s) && s.others > 0 && !s.destroyed && s.notify.Attached?
  }

  /**
    * When a step can happen. A caller of reference() or unreference() has a reference; a throwing
    * constructor has not passed the object on; GLib calls the notification when the source is
    * destroyed, or freed, and not while it dispatches. It does not wait for a query.
    */
  predicate Enabled(s: State, e: Event) {
    && !s.misused
    && match e
       case Reference => s.refCount > 0 && !s.aborted
       case Unreference => s.refCount > 0 && !s.aborted
       case DropByReferences => s.release.Noted?
       case UnrefSource => s.release.Dropped?
       case TakeSource => SourceAlive(s)
       case LeaveSource => s.others > (if s.dispatches > 0 || s.queries > 0 || s.ready then 1 else 0)
       case DestroySource => SourceAlive(s)
       case BeginQuery => InContext(s)
       case EndQuery(_) => s.queries > 0
       case GiveUp => s.ready
       case BeginDispatch => InContext(s) && s.ready
       case EndDispatch => s.dispatches > 0
       case CallNotify => s.notify.Attached? && (s.destroyed || !SourceAlive(s)) && s.dispatches == 0
       case DropByData => s.notify.Called?
       case FreeData => s.notify.Finished?
       case Abort => !s.aborted && s.refCount == 1
  }

  /**
    * The step uses the wrapper's memory. A query and a dispatch do so from beginning to end, and the
    * dispatch does not test the wrapper for null: TimeoutSource::dispatch() sets a member after the slot.
    */
  predicate UsesWrapper(s: State, e: Event) {
    || e.Reference? || e.Unreference? || e.DropByReferences? || e.Abort?
    || ((e.DropByData? || e.BeginQuery?) && s.dataWrapper)
    || e.EndQuery? || e.BeginDispatch? || e.EndDispatch?
  }

  /** destroy_notify_callback2(): the second call deletes the wrapper. */
  function Drop(s: State): State {
    var keep := s.keepWrapper - 1;
    if keep == 0 then s.(keepWrapper := keep, gobject := false, inMemory := false, deletions := s.deletions + 1)
    else s.(keepWrapper := keep)
  }

  function Apply(s: State, e: Event): State
    requires Enabled(s, e)
  {
    if UsesWrapper(s, e) && !s.inMemory then s.(misused := true)
    else match e
      case Reference => s.(refCount := s.refCount + 1)
      case Unreference => s.(refCount := s.refCount - 1, release := if s.refCount - 1 == 0 then Noted else s.release)
      case DropByReferences => Drop(s).(release := Dropped)
      case UnrefSource => s.(release := Released, unrefs := s.unrefs + 1)
      case TakeSource => s.(others := s.others + 1)
      case LeaveSource => s.(others := s.others - 1)
      case DestroySource => s.(destroyed := true)
      case BeginQuery => if s.dataWrapper then s.(queries := s.queries + 1) else s
      case EndQuery(found) => s.(queries := s.queries - 1, ready := s.ready || found)
      case GiveUp => s.(ready := false)
      case BeginDispatch => s.(ready := false, dispatches := s.dispatches + 1)
      case EndDispatch => s.(dispatches := s.dispatches - 1)
      case CallNotify => s.(notify := Called)
      case DropByData => (if s.dataWrapper then Drop(s) else s).(notify := Finished)
      case FreeData => s.(notify := Freed)
      // ~Source(): gobject_ is set, so the GSource is released. The data forgets the wrapper if it is
      // found, which it is unless the GSource was destroyed.
      case Abort => s.(aborted := true, dataWrapper := s.dataWrapper && s.destroyed, gobject := false,
                       unrefs := s.unrefs + 1, inMemory := false, deletions := s.deletions + 1)
  }

  predicate CanRun(s: State, es: seq<Event>)
    decreases es
  {
    es == [] || (Enabled(s, es[0]) && CanRun(Apply(s, es[0]), es[1..]))
  }

  function After(s: State, es: seq<Event>): State
    requires CanRun(s, es)
    decreases es
  {
    if es == [] then s else After(Apply(s, es[0]), es[1..])
  }

  // ---- The invariant ---------------------------------------------------------------------

  /** The last C++ reference is gone and has done its part. */
  predicate ReferencesGone(s: State) {
    s.release.Dropped? || s.release.Released?
  }

  /** The callback data is gone as far as the wrapper is concerned. */
  predicate DataGone(s: State) {
    s.notify.Finished? || s.notify.Freed?
  }

  /** The owners of a wrapper that was constructed. */
  ghost predicate Owned(s: State) {
    && s.dataWrapper
    && s.keepWrapper == (if ReferencesGone(s) then 0 else 1) + (if DataGone(s) then 0 else 1)
    && s.inMemory == (s.keepWrapper > 0)
    && s.deletions == (if s.inMemory then 0 else 1)
    && s.unrefs == (if s.release.Released? then 1 else 0)
  }

  /** A constructor has thrown. */
  ghost predicate Thrown(s: State) {
    s.release.Referenced? && !s.inMemory && s.deletions == 1 && s.unrefs == 1 && (s.dataWrapper ==> s.destroyed)
  }

  ghost predicate Inv(s: State) {
    && (if s.aborted then Thrown(s) else Owned(s))
    && (s.gobject <==> s.inMemory)
    && (s.release.Referenced? <==> s.refCount > 0)
    && s.refCount >= 0
    && (s.dispatches > 0 ==> s.notify.Attached?)
    && (s.dispatches > 0 || s.queries > 0 || s.ready ==> s.others > 0)
    && (s.notify.Attached? || s.destroyed || !SourceAlive(s))
    && (s.misused ==> !s.inMemory)
  }

  /** A step of the wrapper's own functions. */
  predicate ByWrapper(e: Event) {
    e.Reference? || e.Unreference? || e.DropByReferences? || e.UnrefSource? || e.Abort?
  }

  /** A step of the destroy notification. */
  predicate ByData(e: Event) {
    e.CallNotify? || e.DropByData? || e.FreeData?
  }

  /** A step of a main loop. */
  predicate ByLoop(e: Event) {
    e.BeginQuery? || e.EndQuery? || e.GiveUp? || e.BeginDispatch? || e.EndDispatch?
  }

  lemma {:induction false} InvOfWrapper(s: State, e: Event)
    requires Inv(s) && Enabled(s, e) && ByWrapper(e)
    ensures Inv(Apply(s, e))
  {
  }

  lemma {:induction false} InvOfData(s: State, e: Event)
    requires Inv(s) && Enabled(s, e) && ByData(e)
    ensures Inv(Apply(s, e))
  {
  }

  lemma {:induction false} InvOfLoop(s: State, e: Event)
    requires Inv(s) && Enabled(s, e) && ByLoop(e)
    ensures Inv(Apply(s, e))
  {
  }

  lemma {:induction false} InvOfHolder(s: State, e: Event)
    requires Inv(s) && Enabled(s, e)
    requires e.TakeSource? || e.LeaveSource? || e.DestroySource?
    ensures Inv(Apply(s, e))
  {
  }

  lemma {:induction false} InvKept(s: State, e: Event)
    requires Inv(s) && Enabled(s, e)
    ensures Inv(Apply(s, e))
  {
    if ByWrapper(e) {
      InvOfWrapper(s, e);
    } else if ByData(e) {
      InvOfData(s, e);
    } else if ByLoop(e) {
      InvOfLoop(s, e);
    } else {
      InvOfHolder(s, e);
    }
  }

  lemma {:induction false} RunsKeepInv(s: State, es: seq<Event>)
    requires Inv(s) && CanRun(s, es)
    ensures Inv(After(s, es))
    decreases es
  {
    if es != [] {
      InvKept(s, es[0]);
      RunsKeepInv(Apply(s, es[0]), es[1..]);
    }
  }

  /**
    * In every run the wrapper is deleted at most once, and is gone exactly when the constructor
    * threw or both its references and the callback data are gone; it drops at most one GSource
    * reference, and only while it holds it; and an open dispatch has its wrapper in memory exactly
    * if no constructor threw.
    */
  lemma {:induction false} WrapperLifetime(es: seq<Event>)
    requires CanRun(NEW, es)
    ensures var s := After(NEW, es);
            && s.deletions == (if s.inMemory then 0 else 1)
            && (!s.inMemory <==> s.aborted || (ReferencesGone(s) && DataGone(s)))
            && s.unrefs == (if s.aborted || s.release.Released? then 1 else 0)
            && (s.dispatches > 0 ==> (s.inMemory <==> !s.aborted))
  {
    RunsKeepInv(NEW, es);
  }

  // ---- What the state is, in terms of what happens ---------------------------------------

  /** How often that happens. */
  function Count(es: seq<Event>, e: Event): int {
    if es == [] then 0 else (if es[0] == e then 1 else 0) + Count(es[1..], e)
  }

  function One(e: Event, f: Event): int {
    if e == f then 1 else 0
  }

  /** What that step makes of being found ready. */
  predicate ReadyBy(before: bool, e: Event) {
    e == EndQuery(true) || (before && e != BeginDispatch && e != GiveUp)
  }

  /** What a step does to the counters. */
  ghost predicate Counts(s: State, e: Event, t: State) {
    && t.refCount == s.refCount + One(e, Reference) - One(e, Unreference)
    && t.others == s.others + One(e, TakeSource) - One(e, LeaveSource)
    && t.dispatches == s.dispatches + One(e, BeginDispatch) - One(e, EndDispatch)
    && (t.destroyed <==> s.destroyed || e == DestroySource)
    && (t.ready <==> ReadyBy(s.ready, e))
    && (s.dataWrapper && e != Abort ==>
          && t.queries == s.queries + One(e, BeginQuery) - One(e, EndQuery(true)) - One(e, EndQuery(false))
          && t.dataWrapper)
  }

  lemma {:induction false} ReferenceCounts(s: State, e: Event)
    requires Enabled(s, e) && !Apply(s, e).misused && (e.Reference? || e.Unreference?)
    ensures Counts(s, e, Apply(s, e))
  {
  }

  lemma {:induction false} DropCounts(s: State, e: Event)
    requires Enabled(s, e) && !Apply(s, e).misused && (e.DropByReferences? || e.DropByData?)
    ensures Counts(s, e, Apply(s, e))
  {
    DropKeeps(s);
    if e.DropByReferences? {
      assert Apply(s, e) == Drop(s).(release := Dropped);
    } else {
      assert Apply(s, e) == (if s.dataWrapper then Drop(s) else s).(notify := Finished);
    }
  }

  lemma {:induction false} DropKeeps(s: State)
    ensures var t := Drop(s);
            && t.refCount == s.refCount && t.others == s.others && t.dispatches == s.dispatches
            && t.destroyed == s.destroyed && t.ready == s.ready && t.queries == s.queries
            && t.dataWrapper == s.dataWrapper
  {
  }

  lemma {:induction false} EndCounts(s: State, e: Event)
    requires Enabled(s, e) && !Apply(s, e).misused
    requires e.UnrefSource? || e.CallNotify? || e.FreeData? || e.Abort?
    ensures Counts(s, e, Apply(s, e))
  {
  }

  lemma {:induction false} LoopCounts(s: State, e: Event)
    requires Enabled(s, e) && !Apply(s, e).misused && ByLoop(e)
    ensures Counts(s, e, Apply(s, e))
  {
  }

  lemma {:induction false} HolderCounts(s: State, e: Event)
    requires Enabled(s, e) && !Apply(s, e).misused && (e.TakeSource? || e.LeaveSource? || e.DestroySource?)
    ensures Counts(s, e, Apply(s, e))
  {
  }

  lemma {:induction false} StepCounts(s: State, e: Event)
    requires Enabled(s, e) && !Apply(s, e).misused
    ensures Counts(s, e, Apply(s, e))
  {
    if e.Reference? || e.Unreference? {
      ReferenceCounts(s, e);
    } else if e.DropByReferences? || e.DropByData? {
      DropCounts(s, e);
    } else if ByWrapper(e) || ByData(e) {
      EndCounts(s, e);
    } else if ByLoop(e) {
      LoopCounts(s, e);
    } else {
      HolderCounts(s, e);
    }
  }

  /** After the use of a wrapper that is gone, nothing is said any more. */
  lemma {:induction false} NotMisusedYet(s: State, es: seq<Event>)
    requires es != [] && CanRun(s, es) && !After(s, es).misused
    ensures !Apply(s, es[0]).misused
  {
    assert After(s, es) == After(Apply(s, es[0]), es[1..]);
    if es[1..] != [] {
      assert Enabled(Apply(s, es[0]), es[1..][0]);
    }
  }

  /** The counters count references, holders of the GSource and open dispatches, each event once. */
  lemma {:induction false} CountersAreExact(s: State, es: seq<Event>)
    requires CanRun(s, es) && !After(s, es).misused
    ensures var t := After(s, es);
            && t.refCount == s.refCount + Count(es, Reference) - Count(es, Unreference)
            && t.others == s.others + Count(es, TakeSource) - Count(es, LeaveSource)
            && t.dispatches == s.dispatches + Count(es, BeginDispatch) - Count(es, EndDispatch)
            && (t.destroyed <==> s.destroyed || DestroySource in es)
    decreases es
  {
    if es != [] {
      NotMisusedYet(s, es);
      StepCounts(s, es[0]);
      CountersAreExact(Apply(s, es[0]), es[1..]);
      HeadOrTail(es, DestroySource);
    }
  }

  /** reference() and unreference() can be called exactly while a reference is held. */
  lemma {:induction false} UsableWhileReferenced(es: seq<Event>)
    requires CanRun(NEW, es) && !After(NEW, es).misused
    ensures var held := Abort !in es && 1 + Count(es, Reference) - Count(es, Unreference) > 0;
            && (Enabled(After(NEW, es), Reference) <==> held)
            && (Enabled(After(NEW, es), Unreference) <==> held)
  {
    CountersAreExact(NEW, es);
    AbortedExactly(NEW, es);
  }

  lemma {:induction false} HeadOrTail(es: seq<Event>, e: Event)
    requires es != []
    ensures e in es <==> e == es[0] || e in es[1..]
  {
    assert es == [es[0]] + es[1..];
  }

  /** Before a throw, each call of prepare() or check() is open until it ends. */
  lemma {:induction false} QueriesAreExact(s: State, es: seq<Event>)
    requires CanRun(s, es) && !After(s, es).misused && s.dataWrapper && Abort !in es
    ensures After(s, es).queries
         == s.queries + Count(es, BeginQuery) - Count(es, EndQuery(true)) - Count(es, EndQuery(false))
    decreases es
  {
    if es != [] {
      NotMisusedYet(s, es);
      HeadOrTail(es, Abort);
      StepCounts(s, es[0]);
      QueriesAreExact(Apply(s, es[0]), es[1..]);
    }
  }

  /** The source was found ready, and then neither dispatched nor given up. */
  predicate FoundReady(before: bool, es: seq<Event>)
    decreases |es|
  {
    if es == [] then before else FoundReady(ReadyBy(before, es[0]), es[1..])
  }

  lemma {:induction false} ReadyExactly(s: State, es: seq<Event>)
    requires CanRun(s, es) && !After(s, es).misused
    ensures After(s, es).ready <==> FoundReady(s.ready, es)
    decreases es
  {
    if es != [] {
      NotMisusedYet(s, es);
      StepCounts(s, es[0]);
      ReadyExactly(Apply(s, es[0]), es[1..]);
    }
  }

  /** A dispatch that begins reaches a wrapper in memory exactly if no constructor threw. */
  lemma {:induction false} DispatchReachesWrapper(es: seq<Event>)
    requires CanRun(NEW, es) && Enabled(After(NEW, es), BeginDispatch)
    ensures var s := After(NEW, es); s.dataWrapper && s.inMemory <==> !s.aborted
  {
    RunsKeepInv(NEW, es);
  }

  // ---- The usage rule --------------------------------------------------------------------

  /**
    * The rule: nobody destroys the GSource while its prepare() or check() is running; and a constructor
    * of a derived class does not throw while one of these or a dispatch is running, nor when the source
    * was found ready, nor between its destruction and the notification of the callback data.
    */
  predicate Obeys(s: State, e: Event) {
    && (e.DestroySource? && !s.destroyed ==> s.queries == 0)
    && (e.Abort? ==> s.queries == 0 && s.dispatches == 0 && if s.destroyed then DataGone(s) else !s.ready)
  }

  predicate AllObey(s: State, es: seq<Event>)
    requires CanRun(s, es)
    decreases es
  {
    es == [] || (Obeys(s, es[0]) && AllObey(Apply(s, es[0]), es[1..]))
  }

  /** Nobody is left who would use a wrapper that is gone. */
  ghost predicate Orderly(s: State) {
    && !s.misused
    && (s.queries > 0 ==> !s.destroyed)
    && (s.aborted ==> s.queries == 0 && s.dispatches == 0 && (s.dataWrapper ==> DataGone(s))
                      && (s.ready ==> s.destroyed))
  }

  /** Under the rule, no step uses a wrapper that is gone. */
  lemma {:induction false} StepsAreSafe(s: State, e: Event)
    requires Inv(s) && Orderly(s) && Enabled(s, e) && Obeys(s, e)
    ensures UsesWrapper(s, e) ==> s.inMemory
    ensures e.Unreference? ==> s.gobject
    ensures e.UnrefSource? || e.Abort? ==> s.unrefs == 0
    ensures Inv(Apply(s, e)) && Orderly(Apply(s, e))
  {
    InvKept(s, e);
    UsesAreSafe(s, e);
    OrderlyKept(s, e);
  }

  lemma {:induction false} UsesAreSafe(s: State, e: Event)
    requires Inv(s) && Orderly(s) && Enabled(s, e)
    ensures UsesWrapper(s, e) ==> s.inMemory
    ensures e.Unreference? ==> s.gobject
    ensures e.UnrefSource? || e.Abort? ==> s.unrefs == 0
  {
  }

  lemma {:induction false} OrderlyKept(s: State, e: Event)
    requires Inv(s) && Orderly(s) && Enabled(s, e) && Obeys(s, e) && (UsesWrapper(s, e) ==> s.inMemory)
    ensures Orderly(Apply(s, e))
  {
  }

  lemma {:induction false} RunsAreOrderly(s: State, es: seq<Event>)
    requires Inv(s) && Orderly(s) && CanRun(s, es) && AllObey(s, es)
    ensures Inv(After(s, es)) && Orderly(After(s, es))
    decreases es
  {
    if es != [] {
      StepsAreSafe(s, es[0]);
      RunsAreOrderly(Apply(s, es[0]), es[1..]);
    }
  }

  /** Whatever happened before, the next step of any thread uses the wrapper only while it is in memory. */
  lemma {:induction false} NextStepIsSafe(es: seq<Event>, e: Event)
    requires CanRun(NEW, es) && AllObey(NEW, es)
    requires Enabled(After(NEW, es), e) && Obeys(After(NEW, es), e)
    ensures var s := After(NEW, es);
            && (UsesWrapper(s, e) ==> s.inMemory)
            && (e.Unreference? ==> s.gobject)
            && (e.UnrefSource? || e.Abort? ==> s.unrefs == 0)
  {
    RunsAreOrderly(NEW, es);
    StepsAreSafe(After(NEW, es), e);
  }

  /** Some thread can get to use a wrapper that is gone, although from now on everybody obeys the rule. */
  ghost predicate CanMisuse(s: State) {
    exists es :: CanRun(s, es) && AllObey(s, es) && After(s, es).misused
  }

  /** The rule asks for no more than is needed: a step makes that possible exactly if it breaks the rule. */
  lemma {:induction false} RuleIsExact(s: State, e: Event)
    requires Inv(s) && Orderly(s) && Enabled(s, e)
    ensures CanMisuse(Apply(s, e)) <==> !Obeys(s, e)
  {
    var t := Apply(s, e);
    if Obeys(s, e) {
      StepsAreSafe(s, e);
      forall es | CanRun(t, es) && AllObey(t, es)
        ensures !After(t, es).misused
      {
        RunsAreOrderly(t, es);
      }
    } else {
      InvKept(s, e);
      if e.Abort? {
        var es := MisuseAfterThrow(t);
      } else {
        var es := MisuseByQuery(t);
      }
    }
  }

  /** Who is left after a throw uses the wrapper: a query, a dispatch, one that is to begin, or the notification. */
  lemma {:induction false} MisuseAfterThrow(s: State) returns (es: seq<Event>)
    requires Inv(s) && !s.misused && s.aborted
    requires s.queries > 0 || s.dispatches > 0 || (if s.destroyed then s.dataWrapper && !DataGone(s) else s.ready)
    ensures CanRun(s, es) && AllObey(s, es) && After(s, es).misused
  {
    if s.queries > 0 {
      es := OneStep(s, EndQuery(false));
    } else if s.dispatches > 0 {
      es := OneStep(s, EndDispatch);
    } else if !s.destroyed {
      es := OneStep(s, BeginDispatch);
    } else if s.notify.Called? {
      es := OneStep(s, DropByData);
    } else {
      es := OneStep(Apply(s, CallNotify), DropByData);
      es := FirstStep(s, CallNotify, es);
    }
  }

  /** The next step to the deletion of a wrapper whose source was destroyed. */
  function ToDeletion(s: State): Event {
    if s.dispatches > 0 then EndDispatch
    else if s.notify.Attached? then CallNotify
    else if s.notify.Called? then DropByData
    else if s.release.Noted? then DropByReferences
    else Unreference
  }

  lemma {:induction false} CloserToDeletion(s: State)
    requires Inv(s) && !s.misused && !s.aborted && s.inMemory && s.destroyed
    ensures var e := ToDeletion(s); Enabled(s, e) && Obeys(s, e)
    ensures var t := Apply(s, ToDeletion(s));
            && !t.misused && !t.aborted && t.destroyed && t.queries == s.queries
            && (0 <= Held(t) < Held(s) || (0 <= Held(t) == Held(s) && Phase(t) < Phase(s)))
  {
  }

  /** When the source was destroyed, a query may end after the wrapper was deleted. */
  lemma {:induction false} MisuseByQuery(s: State) returns (es: seq<Event>)
    requires Inv(s) && !s.misused && !s.aborted && s.destroyed && s.queries > 0
    ensures CanRun(s, es) && AllObey(s, es) && After(s, es).misused
    decreases Held(s), Phase(s)
  {
    if s.inMemory {
      var e := ToDeletion(s);
      CloserToDeletion(s);
      InvKept(s, e);
      es := MisuseByQuery(Apply(s, e));
      es := FirstStep(s, e, es);
    } else {
      es := OneStep(s, EndQuery(false));
    }
  }

  lemma {:induction false} FirstStep(s: State, e: Event, es: seq<Event>) returns (all: seq<Event>)
    requires Enabled(s, e) && Obeys(s, e) && CanRun(Apply(s, e), es) && AllObey(Apply(s, e), es)
    ensures CanRun(s, all) && AllObey(s, all) && After(s, all) == After(Apply(s, e), es)
  {
    all := [e] + es;
    assert all[1..] == es;
  }

  lemma {:induction false} OneStep(s: State, e: Event) returns (es: seq<Event>)
    requires Enabled(s, e) && Obeys(s, e)
    ensures CanRun(s, es) && AllObey(s, es) && After(s, es) == Apply(s, e)
  {
    es := [e];
    assert es[1..] == [];
  }

  /**
    * In every run, a wrapper that is gone is used exactly if a step uses the wrapper after a throw, or
    * a query ends after both owners of the wrapper are gone.
    */
  lemma {:induction false} MisusedExactly(es: seq<Event>, e: Event)
    requires CanRun(NEW, es) && Enabled(After(NEW, es), e)
    ensures var s := After(NEW, es);
            Apply(s, e).misused
            <==> (Abort in es && UsesWrapper(s, e)) || (e.EndQuery? && ReferencesGone(s) && DataGone(s))
  {
    RunsKeepInv(NEW, es);
    AbortedExactly(NEW, es);
  }

  lemma {:induction false} AbortedExactly(s: State, es: seq<Event>)
    requires Inv(s) && CanRun(s, es) && !After(s, es).misused
    ensures After(s, es).aborted <==> s.aborted || Abort in es
    decreases es
  {
    if es != [] {
      var t := Apply(s, es[0]);
      InvKept(s, es[0]);
      assert t.misused ==> es[1..] == [];
      AbortedExactly(t, es[1..]);
      assert Abort in es <==> es[0] == Abort || Abort in es[1..];
    }
  }

  /** A source whose constructor threw is only dispatched if it was found ready before that. */
  lemma {:induction false} NullDispatchWasReady(s: State, es: seq<Event>)
    requires Inv(s) && Enabled(s, Abort) && CanRun(Apply(s, Abort), es)
    requires Enabled(After(Apply(s, Abort), es), BeginDispatch)
    ensures s.ready && !s.destroyed
  {
    InvKept(s, Abort);
    ReadyIsKept(Apply(s, Abort), es);
  }

  lemma {:induction false} ReadyIsKept(s: State, es: seq<Event>)
    requires Inv(s) && s.aborted && CanRun(s, es) && !After(s, es).misused
    requires After(s, es).ready && !After(s, es).destroyed
    ensures s.ready && !s.destroyed
    decreases es
  {
    if es != [] {
      InvKept(s, es[0]);
      ReadyIsKept(Apply(s, es[0]), es[1..]);
    }
  }

  /** The callback data will use a wrapper that is gone. */
  predicate KnowsGone(s: State) {
    s.dataWrapper && !DataGone(s) && !s.inMemory
  }

  /** A throw leaves the data like that exactly if the GSource was destroyed and the data not yet notified. */
  lemma {:induction false} AbortLeavesDangling(s: State)
    requires Inv(s) && Enabled(s, Abort)
    ensures KnowsGone(Apply(s, Abort)) <==> s.destroyed && !DataGone(s)
  {
  }

  /** The GSource is in a context, is being asked, and was found ready. */
  const TAKEN := NEW.(others := 1)
  const ASKED := TAKEN.(queries := 1)
  const FOUND := TAKEN.(ready := true)

  lemma {:induction false} Found()
    ensures var es := [TakeSource, BeginQuery, EndQuery(true)]; CanRun(NEW, es) && After(NEW, es) == FOUND
  {
    assert Apply(NEW, TakeSource) == TAKEN && Apply(TAKEN, BeginQuery) == ASKED;
    assert Apply(ASKED, EndQuery(true)) == FOUND;
    ThreeSteps(NEW, TakeSource, BeginQuery, EndQuery(true));
  }

  /** Throwing while a dispatch is open: it uses a wrapper that is gone. */
  lemma {:induction false} ThrowInDispatch()
    ensures var es := [TakeSource, BeginQuery, EndQuery(true)] + [BeginDispatch, Abort, EndDispatch];
            CanRun(NEW, es) && After(NEW, es).misused
  {
    var begun := FOUND.(ready := false, dispatches := 1);
    assert Apply(FOUND, BeginDispatch) == begun;
    assert Apply(begun, Abort).dispatches == 1 && !Apply(begun, Abort).inMemory;
    ThreeSteps(FOUND, BeginDispatch, Abort, EndDispatch);
    Found();
    RunsJoin(NEW, [TakeSource, BeginQuery, EndQuery(true)], [BeginDispatch, Abort, EndDispatch]);
  }

  /** Throwing before a dispatch. */
  lemma {:induction false} ThrowBeforeDispatch()
    ensures var es := [TakeSource, BeginQuery, EndQuery(true)] + [Abort, BeginDispatch];
            CanRun(NEW, es) && After(NEW, es).misused
  {
    RunStep(Apply(FOUND, Abort), BeginDispatch, []);
    RunStep(FOUND, Abort, [BeginDispatch]);
    Found();
    RunsJoin(NEW, [TakeSource, BeginQuery, EndQuery(true)], [Abort, BeginDispatch]);
  }

  /** Throwing between the destruction of the GSource and the notification: that one uses a wrapper that is gone. */
  lemma {:induction false} ThrowWhenDestroyed()
    ensures var es := [TakeSource, DestroySource, Abort] + [CallNotify, DropByData];
            CanRun(NEW, es) && After(NEW, es).misused
  {
    assert Apply(NEW, TakeSource) == TAKEN && Apply(TAKEN, DestroySource) == TAKEN.(destroyed := true);
    var thrown := Apply(TAKEN.(destroyed := true), Abort);
    ThreeSteps(NEW, TakeSource, DestroySource, Abort);
    RunStep(Apply(thrown, CallNotify), DropByData, []);
    RunStep(thrown, CallNotify, [DropByData]);
    RunsJoin(NEW, [TakeSource, DestroySource, Abort], [CallNotify, DropByData]);
  }

  /** The source was destroyed while check() is running, and then the callback data was notified. */
  const DESTROYED := ASKED.(destroyed := true)
  const NOTIFIED := DESTROYED.(keepWrapper := 1, notify := Finished)

  /** Destroying the GSource while check() is running, and giving up the wrapper: check() uses one that is gone. */
  lemma {:induction false} DestroyInQuery()
    ensures var es := [TakeSource, BeginQuery, DestroySource] + [CallNotify, DropByData]
                      + [Unreference, DropByReferences, EndQuery(false)];
            CanRun(NEW, es) && After(NEW, es).misused
  {
    ToDestroyed();
    ToNotified();
    FromNotified();
    RunsJoin(NEW, [TakeSource, BeginQuery, DestroySource], [CallNotify, DropByData]);
    RunsJoin(NEW, [TakeSource, BeginQuery, DestroySource] + [CallNotify, DropByData],
             [Unreference, DropByReferences, EndQuery(false)]);
  }

  lemma {:induction false} ToDestroyed()
    ensures var es := [TakeSource, BeginQuery, DestroySource]; CanRun(NEW, es) && After(NEW, es) == DESTROYED
  {
    assert Apply(NEW, TakeSource) == TAKEN && Apply(TAKEN, BeginQuery) == ASKED;
    assert Apply(ASKED, DestroySource) == DESTROYED;
    ThreeSteps(NEW, TakeSource, BeginQuery, DestroySource);
  }

  lemma {:induction false} ToNotified()
    ensures var es := [CallNotify, DropByData]; CanRun(DESTROYED, es) && After(DESTROYED, es) == NOTIFIED
  {
    var called := Apply(DESTROYED, CallNotify);
    assert Apply(called, DropByData) == NOTIFIED;
    RunStep(called, DropByData, []);
    RunStep(DESTROYED, CallNotify, [DropByData]);
  }

  lemma {:induction false} FromNotified()
    ensures var es := [Unreference, DropByReferences, EndQuery(false)];
            CanRun(NOTIFIED, es) && After(NOTIFIED, es).misused
  {
    var noted := NOTIFIED.(refCount := 0, release := Noted);
    assert Apply(NOTIFIED, Unreference) == noted;
    assert Apply(noted, DropByReferences) == Drop(noted).(release := Dropped);
    assert Enabled(Drop(noted).(release := Dropped), EndQuery(false));
    ThreeSteps(NOTIFIED, Unreference, DropByReferences, EndQuery(false));
  }

  lemma {:induction false} ThreeSteps(s: State, a: Event, b: Event, c: Event)
    requires Enabled(s, a) && Enabled(Apply(s, a), b) && Enabled(Apply(Apply(s, a), b), c)
    ensures CanRun(s, [a, b, c]) && After(s, [a, b, c]) == Apply(Apply(Apply(s, a), b), c)
  {
    RunStep(Apply(Apply(s, a), b), c, []);
    RunStep(Apply(s, a), b, [c]);
    RunStep(s, a, [b, c]);
    assert [a] + [b, c] == [a, b, c] && [b] + [c] == [b, c] && [c] + [] == [c];
  }

  lemma {:induction false} RunsJoin(s: State, a: seq<Event>, b: seq<Event>)
    requires CanRun(s, a) && CanRun(After(s, a), b)
    ensures CanRun(s, a + b) && After(s, a + b) == After(After(s, a), b)
    decreases a
  {
    if a == [] {
      assert a + b == b;
    } else {
      JoinFirst(a, b);
      RunsJoin(Apply(s, a[0]), a[1..], b);
    }
  }

  lemma {:induction false} JoinFirst(a: seq<Event>, b: seq<Event>)
    requires a != []
    ensures a + b != [] && (a + b)[0] == a[0] && (a + b)[1..] == a[1..] + b
  {
  }

  lemma {:induction false} RunStep(s: State, e: Event, es: seq<Event>)
    requires Enabled(s, e) && CanRun(Apply(s, e), es)
    ensures CanRun(s, [e] + es) && After(s, [e] + es) == After(Apply(s, e), es)
  {
    assert ([e] + es)[1..] == es;
  }

  // ---- Giving everything up --------------------------------------------------------------

  /** A step that gives something up, if anything is left. */
  function Next(s: State): Event {
    if s.queries > 0 then EndQuery(false)
    else if s.dispatches > 0 then EndDispatch
    else if s.ready then GiveUp
    else if s.others > 0 then LeaveSource
    else if !s.aborted && s.refCount > 0 then Unreference
    else if s.release.Noted? then DropByReferences
    else if s.release.Dropped? then UnrefSource
    else if s.notify.Attached? then CallNotify
    else if s.notify.Called? then DropByData
    else FreeData
  }

  predicate AllGivenUp(s: State) {
    && s.queries == 0 && s.dispatches == 0 && !s.ready && s.others == 0 && (s.aborted || s.refCount <= 0)
    && !s.release.Noted? && !s.release.Dropped? && s.notify.Freed?
  }

  function Phase(s: State): nat {
    (match s.release case Referenced => 3 case Noted => 2 case Dropped => 1 case Released => 0)
    + (match s.notify case Attached => 3 case Called => 2 case Finished => 1 case Freed => 0)
    + (if s.ready then 1 else 0)
  }

  function Held(s: State): int {
    s.refCount + s.queries + s.dispatches + s.others
  }

  lemma {:induction false} NextGivesUp(s: State)
    requires Inv(s) && Orderly(s) && !AllGivenUp(s)
    ensures Enabled(s, Next(s)) && Obeys(s, Next(s))
    ensures var t := Apply(s, Next(s));
            0 <= Held(t) < Held(s) || (0 <= Held(t) == Held(s) && Phase(t) < Phase(s))
  {
  }

  lemma {:induction false} NothingIsLeft(s: State)
    requires Inv(s) && AllGivenUp(s)
    ensures !s.inMemory && s.deletions == 1 && s.unrefs == 1
  {
  }

  /** From any state, giving up all references and destroying the source gets the wrapper deleted. */
  lemma {:induction false} EverythingIsFreed(s: State) returns (es: seq<Event>)
    requires Inv(s) && Orderly(s)
    ensures CanRun(s, es) && AllObey(s, es)
    ensures var t := After(s, es); !t.inMemory && t.deletions == 1 && t.unrefs == 1 && AllGivenUp(t)
    decreases Held(s), Phase(s)
  {
    if AllGivenUp(s) {
      es := [];
      NothingIsLeft(s);
    } else {
      var e := Next(s);
      NextGivesUp(s);
      StepsAreSafe(s, e);
      es := EverythingIsFreed(Apply(s, e));
      assert ([e] + es)[1..] == es;
      es := [e] + es;
    }
  }
}

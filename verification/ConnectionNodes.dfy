/**
  * The nodes between a sigc++ slot and a GLib signal handler or event source. Either side may
  * end the connection, also while the slot runs, perhaps nested; the node is freed by the
  * destroy notification that GLib gives, at once or when the last run has returned.
  */
module ConnectionNodes {

  // ---- A connection as a state machine ---------------------------------------------------

  /** What can happen to a connection. */
  datatype Event =
    | SlotDisconnected  // sigc++ calls notify(): the connection was disconnected, or an object bound to the slot died
    | GLibDisconnects   // the emitting object dies, or GLib ends the handler or the source by itself
    | RunStarts
    | RunEnds

  datatype State = State(
    held: bool,      // object_ or source_ is not null
    attached: bool,  // the handler is connected, or the source is not destroyed
    running: nat,    // how many runs of the slot are open
    freed: bool,     // the node is deleted
    frees: nat,      // history: how often that happened
    requests: nat    // history: how often the node asked GLib to disconnect or destroy
  )

  /** The two kinds of nodes: the one for signals asks whether the handler is connected. */
  datatype Kind = ForSignal | ForSource

  const NEW := State(true, true, 0, false, 0, 0)

  /** sigc++ knows the node while its slot exists, which is as long as the node does. */
  predicate Enabled(s: State, e: Event) {
    match e
    case SlotDisconnected => !s.freed
    case GLibDisconnects => s.attached
    case RunStarts => s.attached
    case RunEnds => s.running > 0
  }

  /** destroy_notify_handler() or destroy_notify_callback() */
  function Free(s: State): State {
    s.(held := false, freed := true, frees := s.frees + 1)
  }

  /** GLib ends the handler or the source, and gives the notification unless a run is open. */
  function Detach(s: State): State {
    var t := s.(attached := false);
    if s.running == 0 then Free(t) else t
  }

  /** What g_signal_handler_disconnect() or g_source_destroy() does; the latter only does it once. */
  function Request(s: State): State {
    var t := s.(requests := s.requests + 1);
    if s.attached then Detach(t) else t
  }

  /** notify() */
  function Notified(s: State, kind: Kind): State {
    if !s.held then s
    else if kind.ForSignal? && !s.attached then s.(held := false)
    else Request(s.(held := false))
  }

  function Apply(s: State, e: Event, kind: Kind): State
    requires Enabled(s, e)
  {
    match e
    case SlotDisconnected => Notified(s, kind)
    case GLibDisconnects => Detach(s)
    case RunStarts => s.(running := s.running + 1)
    case RunEnds =>
      var t := s.(running := s.running - 1);
      if t.running == 0 && !t.attached then Free(t) else t
  }

  predicate CanRun(s: State, es: seq<Event>, kind: Kind)
    decreases es
  {
    es == [] || (Enabled(s, es[0]) && CanRun(Apply(s, es[0], kind), es[1..], kind))
  }

  function After(s: State, es: seq<Event>, kind: Kind): State
    requires CanRun(s, es, kind)
    decreases es
  {
    if es == [] then s else After(Apply(s, es[0], kind), es[1..], kind)
  }

  ghost predicate Inv(s: State) {
    && s.frees == (if s.freed then 1 else 0)
    && (s.freed <==> !s.attached && s.running == 0)
    && (s.held ==> !s.freed && s.requests == 0)
    && (s.requests > 0 ==> s.requests == 1 && !s.attached)
  }

  lemma {:induction false} InvKept(s: State, e: Event, kind: Kind)
    requires Inv(s) && Enabled(s, e)
    ensures Inv(Apply(s, e, kind))
  {
  }

  lemma {:induction false} RunsKeepInv(s: State, es: seq<Event>, kind: Kind)
    requires Inv(s) && CanRun(s, es, kind)
    ensures Inv(After(s, es, kind))
    decreases es
  {
    if es != [] {
      InvKept(s, es[0], kind);
      RunsKeepInv(Apply(s, es[0], kind), es[1..], kind);
    }
  }

  /**
    * In every run of a connection, the node is freed once at most, and is freed exactly when GLib's
    * side has ended and no run of the slot is open; GLib is asked to end it once at most.
    */
  lemma {:induction false} FreedOnce(es: seq<Event>, kind: Kind)
    requires CanRun(NEW, es, kind)
    ensures var s := After(NEW, es, kind);
            && s.frees <= 1 && s.requests <= 1
            && (s.frees == 1 <==> !s.attached && s.running == 0)
            && (s.freed <==> s.frees == 1)
  {
    RunsKeepInv(NEW, es, kind);
  }

  lemma {:induction false} EventsCons(es: seq<Event>, e: Event)
    requires es != []
    ensures multiset(es)[e] == (if es[0] == e then 1 else 0) + multiset(es[1..])[e]
    ensures e in es <==> e == es[0] || e in es[1..]
  {
    assert es == [es[0]] + es[1..];
  }

  /** The open runs are those that have started and not ended. */
  lemma {:induction false} RunsAreCounted(s: State, es: seq<Event>, kind: Kind)
    requires CanRun(s, es, kind)
    ensures After(s, es, kind).running == s.running + multiset(es)[RunStarts] - multiset(es)[RunEnds]
    decreases es
  {
    if es != [] {
      EventsCons(es, RunStarts);
      EventsCons(es, RunEnds);
      RunsAreCounted(Apply(s, es[0], kind), es[1..], kind);
    }
  }

  /** The connection lasts until either side ends it. */
  lemma {:induction false} LastsUntilEnded(s: State, es: seq<Event>, kind: Kind)
    requires CanRun(s, es, kind) && (s.attached ==> s.held)
    ensures After(s, es, kind).attached <==> s.attached && SlotDisconnected !in es && GLibDisconnects !in es
    decreases es
  {
    if es != [] {
      EventsCons(es, SlotDisconnected);
      EventsCons(es, GLibDisconnects);
      LastsUntilEnded(Apply(s, es[0], kind), es[1..], kind);
    }
  }

  /** In terms of what happens: the node is freed exactly when either side has ended it and every run has returned. */
  lemma {:induction false} FreedExactly(es: seq<Event>, kind: Kind)
    requires CanRun(NEW, es, kind)
    ensures After(NEW, es, kind).frees
         == if (SlotDisconnected in es || GLibDisconnects in es) && multiset(es)[RunStarts] == multiset(es)[RunEnds]
            then 1 else 0
  {
    FreedOnce(es, kind);
    RunsAreCounted(NEW, es, kind);
    LastsUntilEnded(NEW, es, kind);
  }

  /**
    * Whatever happened before, the next event frees a node only if it is in memory, asks GLib to
    * disconnect only a connected handler, and to destroy only a source that is not freed yet.
    */
  lemma {:induction false} NextEventIsSafe(es: seq<Event>, e: Event, kind: Kind)
    requires CanRun(NEW, es, kind) && Enabled(After(NEW, es, kind), e)
    ensures var s, t := After(NEW, es, kind), Apply(After(NEW, es, kind), e, kind);
            && (t.frees > s.frees ==> !s.freed)
            && (t.requests > s.requests ==> !s.freed && s.requests == 0 && (kind.ForSignal? ==> s.attached))
            && (e.SlotDisconnected? && s.held ==> !t.attached)
  {
    RunsKeepInv(NEW, es, kind);
  }

  /** A slot that disconnects itself in a nested run: the node stays until the outer run has returned. */
  lemma {:induction false} NestedRun(kind: Kind)
    ensures var es := [RunStarts, RunStarts, SlotDisconnected, RunEnds];
            CanRun(NEW, es, kind) && After(NEW, es, kind) == NEW.(held := false, attached := false, running := 1,
                                                                  requests := 1)
            && After(NEW, es, kind).frees == 0 && Apply(After(NEW, es, kind), RunEnds, kind).frees == 1
  {
    var s := NEW.(running := 2);
    var t := s.(held := false, attached := false, requests := 1);
    assert Apply(NEW, RunStarts, kind) == NEW.(running := 1) && Apply(NEW.(running := 1), RunStarts, kind) == s;
    assert Apply(s, SlotDisconnected, kind) == t && Apply(t, RunEnds, kind) == t.(running := 1);
    OneEvent(t, RunEnds, [], kind);
    OneEvent(s, SlotDisconnected, [RunEnds], kind);
    OneEvent(NEW.(running := 1), RunStarts, [SlotDisconnected, RunEnds], kind);
    OneEvent(NEW, RunStarts, [RunStarts, SlotDisconnected, RunEnds], kind);
  }

  lemma {:induction false} OneEvent(s: State, e: Event, es: seq<Event>, kind: Kind)
    requires Enabled(s, e) && CanRun(Apply(s, e, kind), es, kind)
    ensures CanRun(s, [e] + es, kind) && After(s, [e] + es, kind) == After(Apply(s, e, kind), es, kind)
  {
    assert ([e] + es)[1..] == es;
  }

  /** Whatever happened before, ending GLib's side and all runs frees the node. */
  lemma {:induction false} EndsFreed(s: State, kind: Kind) returns (es: seq<Event>)
    requires Inv(s)
    ensures CanRun(s, es, kind) && After(s, es, kind).frees == 1
    decreases s.attached, s.running
  {
    es := [];
    if s.attached || s.running > 0 {
      var e := if s.attached then GLibDisconnects else RunEnds;
      InvKept(s, e, kind);
      es := EndsFreed(Apply(s, e, kind), kind);
      assert ([e] + es)[1..] == es;
      es := [e] + es;
    }
  }

  // ---- The nodes -------------------------------------------------------------------------

  /** SignalProxyConnectionNode, with the signal handler that GLib has for it. */
  class SignalProxyConnectionNode {
    /** object_ is not null; connection_id_. */
    var object_: bool
    var connectionId: nat
    ghost var freed: bool
    ghost var frees: nat
    /** The handler in GLib: its id, whether it is connected, how many runs are open. */
    const handlerId: nat
    var connected: bool
    var running: nat
    ghost var requests: nat

    ghost function View(): State
      reads this
    {
      State(object_, connected, running, freed, frees, requests)
    }

    ghost predicate Valid()
      reads this
    {
      Inv(View()) && (object_ ==> connectionId == handlerId)
    }

    constructor (handlerId: nat)
      ensures Valid() && View() == NEW
    {
      this.handlerId := handlerId;
      object_, connectionId, freed, frees := true, handlerId, false, 0;
      connected, running, requests := true, 0, 0;
    }

    // The fields of the node can only be used while it is in memory.

    method GetObject() returns (o: bool)
      requires !freed
      ensures o == object_
    {
      o := object_;
    }

    method ClearObject()
      requires !freed
      modifies `object_
      ensures !object_
    {
      object_ := false;
    }

    method TakeConnectionId() returns (id: nat)
      requires !freed
      modifies `connectionId
      ensures id == old(connectionId) && connectionId == 0
    {
      id := connectionId;
      connectionId := 0;
    }

    /** notify() */
    method Notify()
      requires Valid() && !freed
      modifies this
      ensures Valid() && View() == Notified(old(View()), ForSignal)
    {
      var o := GetObject();
      if o {
        ClearObject();
        // g_signal_handler_is_connected()
        if connected {
          var id := TakeConnectionId();
          Disconnect(id);
          // The node may be gone here.
        }
      }
    }

    /** g_signal_handler_disconnect(): the handler must still be connected. */
    method Disconnect(id: nat)
      requires !freed && connected && id == handlerId
      modifies `requests, `connected, `object_, `freed, `frees
      ensures View() == Request(old(View()))
    {
      requests := requests + 1;
      connected := false;
      if running == 0 {
        DestroyNotifyHandler();
      }
    }

    /** destroy_notify_handler(): the handler is gone. */
    method DestroyNotifyHandler()
      requires !freed
      modifies `object_, `freed, `frees
      ensures View() == Free(old(View()))
    {
      ClearObject();
      // Deleting the node deletes slot_, which may call notify() for the last time.
      var o := GetObject();
      freed := true;
      frees := frees + 1;
    }

    method Happens(e: Event)
      requires Valid() && Enabled(View(), e)
      modifies this
      ensures Valid() && View() == Apply(old(View()), e, ForSignal)
    {
      match e
      case SlotDisconnected =>
        Notify();
      case GLibDisconnects =>
        connected := false;
        if running == 0 { DestroyNotifyHandler(); }
      case RunStarts =>
        running := running + 1;
      case RunEnds =>
        running := running - 1;
        if running == 0 && !connected { DestroyNotifyHandler(); }
    }

    /** Any run of events gets where the state machine says. */
    method AllHappen(es: seq<Event>)
      requires Valid() && View() == NEW && CanRun(NEW, es, ForSignal)
      modifies this
      ensures Valid() && View() == After(NEW, es, ForSignal)
    {
      assert es[0..] == es;
      for i := 0 to |es|
        invariant Valid() && CanRun(View(), es[i..], ForSignal)
        invariant After(View(), es[i..], ForSignal) == After(NEW, es, ForSignal)
      {
        assert es[i..][0] == es[i] && es[i..][1..] == es[i + 1..];
        Happens(es[i]);
      }
    }
  }

  /** SourceConnectionNode, with the GSource that holds it. */
  class SourceConnectionNode {
    /** source_ is not null. */
    var source: bool
    ghost var freed: bool
    ghost var frees: nat
    /** The GSource: whether it was destroyed, how many dispatches are open. */
    var destroyed: bool
    var running: nat
    ghost var requests: nat

    ghost function View(): State
      reads this
    {
      State(source, !destroyed, running, freed, frees, requests)
    }

    /** The constructor and install() */
    constructor ()
      ensures View() == NEW
    {
      source, freed, frees, destroyed, running, requests := true, false, 0, false, 0, 0;
    }

    method GetSource() returns (s: bool)
      requires !freed
      ensures s == source
    {
      s := source;
    }

    method ClearSource()
      requires !freed
      modifies `source
      ensures !source
    {
      source := false;
    }

    /** notify() */
    method Notify()
      requires Inv(View()) && !freed
      modifies this
      ensures View() == Notified(old(View()), ForSource)
    {
      var s := GetSource();
      if s {
        ClearSource();
        Destroy();
        // The node may be gone here.
      }
    }

    /** g_source_destroy(), on a GSource that has not notified the node of its end. */
    method Destroy()
      requires !freed
      modifies `requests, `destroyed, `source, `freed, `frees
      ensures View() == Request(old(View()))
    {
      requests := requests + 1;
      if !destroyed {
        destroyed := true;
        if running == 0 {
          DestroyNotifyCallback();
        }
      }
    }

    /** destroy_notify_callback() */
    method DestroyNotifyCallback()
      requires !freed
      modifies `source, `freed, `frees
      ensures View() == Free(old(View()))
    {
      ClearSource();
      // Deleting the node deletes slot_, which may call notify() for the last time.
      var s := GetSource();
      freed := true;
      frees := frees + 1;
    }

    method Happens(e: Event)
      requires Inv(View()) && Enabled(View(), e)
      modifies this
      ensures Inv(View()) && View() == Apply(old(View()), e, ForSource)
    {
      match e
      case SlotDisconnected =>
        Notify();
      case GLibDisconnects =>
        destroyed := true;
        if running == 0 { DestroyNotifyCallback(); }
      case RunStarts =>
        running := running + 1;
      case RunEnds =>
        running := running - 1;
        if running == 0 && destroyed { DestroyNotifyCallback(); }
    }

    /** Any run of events gets where the state machine says. */
    method AllHappen(es: seq<Event>)
      requires View() == NEW && CanRun(NEW, es, ForSource)
      modifies this
      ensures Inv(View()) && View() == After(NEW, es, ForSource)
    {
      assert es[0..] == es;
      for i := 0 to |es|
        invariant Inv(View()) && CanRun(View(), es[i..], ForSource)
        invariant After(View(), es[i..], ForSource) == After(NEW, es, ForSource)
      {
        assert es[i..][0] == es[i] && es[i..][1..] == es[i + 1..];
        Happens(es[i]);
      }
    }
  }
}

/**
  * Dispatcher, Dispatcher::Impl and DispatchNotifier in the form of the code: each method is
  * one atomic section of a function, and is the protocol's step of the same name.
  */
module Dispatcher {
  import opened Wrappers
  import opened DispatcherProtocol

  class Receiver {
    /** The Impls in memory, and impl_ of the Dispatchers that are not being destroyed. */
    var heap: set<ImplId>
    var live: set<ImplId>
    /** The Impls whose signal_ has slots; notifier_ of each Impl. */
    var connected: set<ImplId>
    var owner: map<ImplId, NotifierId>
    /** thread_specific_instance_, and the fields of that notifier. */
    var instance: Option<NotifierId>
    var refCount: int
    var orphaned: seq<ImplId>
    var pipe: seq<Message>
    /** The stack of the thread. */
    var emissions: seq<Emission>
    var destructors: seq<Destructor>
    var doing: Activity
    /** Where new notifiers get their identity from, the notifiers in memory, and history. */
    var notifiers: nat
    var memory: set<NotifierId>
    var sent: seq<ImplId>
    ghost var begun: seq<nat>
    /** Something was used that is not in memory: anything may happen. */
    ghost var dangling: bool
    ghost var misled: bool

    ghost function View(): World
      reads this
    {
      World(heap, live, connected, owner, instance, refCount, orphaned, pipe, emissions, destructors, doing,
            notifiers, memory, sent, begun, dangling, misled)
    }

    /** What the protocol guarantees for every step that is enabled (StepsAreSafe). */
    ghost predicate Ready(e: Event)
      reads this
    {
      SafeStep(View(), e)
    }

    constructor ()
      ensures View() == START
    {
      heap, live, connected, owner, instance, refCount := {}, {}, {}, map[], None, 0;
      orphaned, pipe, emissions, destructors, doing := [], [], [], [], Idle;
      notifiers, memory, sent, begun, dangling, misled := 0, {}, [], [], false, false;
    }

    /** Following a pointer to an Impl, which must not dangle. */
    method Follow(d: ImplId) returns (notifier: NotifierId)
      requires d in heap && d in owner
      ensures notifier == owner[d]
    {
      notifier := owner[d];
    }

    /** delete of an Impl, which must not be gone already. */
    method Delete(d: ImplId)
      requires d in heap
      modifies `heap
      ensures heap == old(heap) - {d}
    {
      heap := heap - {d};
    }

    /** orphaned_dispatcher_impl_.clear() */
    method ClearOrphanList()
      requires Distinct(orphaned)
      requires Elements(orphaned) <= heap
      modifies `heap, `orphaned
      ensures heap == old(heap) - Elements(old(orphaned)) && orphaned == []
    {
      while orphaned != []
        invariant Distinct(orphaned)
        invariant Elements(orphaned) <= heap
        invariant heap - Elements(orphaned) == old(heap) - Elements(old(orphaned))
        decreases orphaned
      {
        var d, rest := orphaned[0], orphaned[1..];
        assert Elements(orphaned) == {d} + Elements(rest);
        assert d !in rest;
        Delete(d);
        orphaned := rest;
      }
    }

    method ReferenceInstance() returns (notifier: NotifierId)
      modifies `instance, `refCount, `orphaned, `pipe, `notifiers, `memory
      ensures instance == Some(notifier) && View() == Referenced(old(View()))
    {
      if instance.None? {
        instance := Some(notifiers);
        memory := memory + {notifiers};
        notifiers := notifiers + 1;
        refCount, orphaned, pipe := 0, [], [];
      }
      refCount := refCount + 1;
      notifier := instance.value;
    }

    /** Dispatcher() and Impl() */
    method Create(d: ImplId)
      requires Ready(Event.Create(d))
      modifies `heap, `live, `owner, `instance, `refCount, `orphaned, `pipe, `notifiers, `memory
      ensures View() == Apply(old(View()), Event.Create(d))
    {
      heap := heap + {d};
      var notifier := ReferenceInstance();
      owner := owner[d := notifier];
      live := live + {d};
    }

    /** emit() and send_notification(), in any thread */
    method Send(d: ImplId)
      requires Ready(Event.Send(d))
      modifies `pipe, `sent
      ensures View() == Apply(old(View()), Event.Send(d))
    {
      var notifier := Follow(d);
      pipe := pipe + [Message(d, notifier, |sent|)];
      sent := sent + [d];
    }

    /** The first half of pipe_io_handler(): reading a message. */
    method ReadPipe()
      requires Ready(Event.ReadPipe)
      modifies `pipe, `doing
      ensures View() == Apply(old(View()), Event.ReadPipe)
    {
      var data := pipe[0];
      pipe := pipe[1..];
      // g_return_val_if_fail(data.notifier == this, true) never returns.
      assert Some(data.notifier) == instance;
      doing := Emit(instance.value, data);
    }

    /** data.dispatcher_impl->signal_() */
    method BeginEmission()
      requires Ready(Event.BeginEmission)
      modifies `doing, `emissions, `begun, `misled
      ensures View() == Apply(old(View()), Event.BeginEmission)
    {
      if doing.msg.impl !in heap {
        // data.dispatcher_impl is a pointer to a deleted Impl.
        misled := true;
      } else {
        var notifier := Follow(doing.msg.impl);
        emissions := emissions + [Emission(doing.notifier, doing.msg)];
        begun := begun + [doing.msg.serial];
        doing := Idle;
      }
    }

    /** The emission returns: the tests before pipe_is_empty(). */
    method EndEmission()
      requires Ready(Event.EndEmission)
      modifies `doing, `emissions, `dangling
      ensures View() == Apply(old(View()), Event.EndEmission)
    {
      var notifier := emissions[|emissions| - 1].notifier;
      if instance.None? {
        emissions := emissions[..|emissions| - 1];
      } else if notifier !in memory {
        // this->orphaned_dispatcher_impl_ is a member of a deleted notifier.
        dangling := true;
      } else {
        emissions := emissions[..|emissions| - 1];
        if orphaned != [] {
          doing := CheckPipe(notifier);
        }
      }
    }

    method PollAfterEmission()
      requires Ready(Event.PollAfterEmission)
      modifies `doing
      ensures View() == Apply(old(View()), Event.PollAfterEmission)
    {
      doing := if pipe == [] then ClearOrphans(doing.notifier) else Idle;
    }

    method ClearAfterEmission()
      requires Ready(Event.ClearAfterEmission)
      modifies `doing, `heap, `orphaned
      ensures View() == Apply(old(View()), Event.ClearAfterEmission)
    {
      ClearOrphanList();
      doing := Idle;
    }

    /** ~Dispatcher() begins. */
    method BeginDestroy(d: ImplId)
      requires Ready(Event.BeginDestroy(d))
      modifies `doing, `live
      ensures View() == Apply(old(View()), Event.BeginDestroy(d))
    {
      var notifier := Follow(d);
      // g_return_if_fail(instance == notifier) never returns.
      assert instance == Some(notifier);
      live := live - {d};
      doing := Destroy(d);
    }

    /** The test of unreference_instance(), and the beginning of signal_.clear() when messages are left. */
    method PollInDestructor()
      requires Ready(Event.PollInDestructor)
      modifies `doing, `connected, `destructors
      ensures View() == Apply(old(View()), Event.PollInDestructor)
    {
      var d := doing.impl;
      if pipe == [] {
        doing := Activity.DeleteImpl(d);
      } else {
        var _ := Follow(d);
        connected := connected - {d};
        destructors := destructors + [Clearing(d)];
        doing := Idle;
      }
    }

    /** delete of the Impl, up to the destruction of its slots. */
    method DeleteInDestructor()
      requires Ready(Event.DeleteInDestructor)
      modifies `doing, `heap, `destructors
      ensures View() == Apply(old(View()), Event.DeleteInDestructor)
    {
      Delete(doing.impl);
      destructors := destructors + [Deleting(doing.impl)];
      doing := Idle;
    }

    method ClearInDestructor()
      requires Ready(Event.ClearInDestructor)
      modifies `doing, `heap, `orphaned, `destructors
      ensures View() == Apply(old(View()), Event.ClearInDestructor)
    {
      ClearOrphanList();
      destructors := destructors[..|destructors| - 1];
      doing := Release;
    }

    /** orphaned_dispatcher_impl_.push_front(), once the slots are destroyed. */
    method OrphanInDestructor()
      requires Ready(Event.OrphanInDestructor)
      modifies `doing, `orphaned, `destructors
      ensures View() == Apply(old(View()), Event.OrphanInDestructor)
    {
      orphaned := [destructors[|destructors| - 1].impl] + orphaned;
      destructors := destructors[..|destructors| - 1];
      doing := Release;
    }

    /** --ref_count_, and deleting the notifier, its orphans and its pipe with the last reference. */
    method Unreference()
      requires Ready(Event.Unreference)
      modifies `doing, `refCount, `instance, `heap, `orphaned, `pipe, `memory
      ensures View() == Apply(old(View()), Event.Unreference)
      ensures instance.Some? <==> refCount > 0
    {
      refCount := refCount - 1;
      doing := Idle;
      if refCount <= 0 {
        DeleteNotifier();
      }
    }

    /** delete thread_specific_instance_ */
    method DeleteNotifier()
      requires instance.Some? && Distinct(orphaned) && Elements(orphaned) <= heap
      modifies `instance, `heap, `orphaned, `pipe, `memory
      ensures View() == WithoutNotifier(old(View()))
    {
      ClearOrphanList();
      pipe := [];
      memory := memory - {instance.value};
      instance := None;
    }

    /** A step of any thread; the slots' own doings are steps of their own. */
    method Perform(e: Event)
      requires Ready(e)
      modifies this
      ensures View() == Apply(old(View()), e)
    {
      match e
      case Create(d) => Create(d);
      case Connect(d) => connected := connected + {d};
      case Disconnect(d) => connected := connected - {d};
      case Send(d) => Send(d);
      case ReadPipe => ReadPipe();
      case BeginEmission => BeginEmission();
      case RunSlot(_) =>
      case EndEmission => EndEmission();
      case PollAfterEmission => PollAfterEmission();
      case ClearAfterEmission => ClearAfterEmission();
      case BeginDestroy(d) => BeginDestroy(d);
      case PollInDestructor => PollInDestructor();
      case DeleteInDestructor => DeleteInDestructor();
      case ClearInDestructor => ClearInDestructor();
      case OrphanInDestructor => OrphanInDestructor();
      case Unreference => Unreference();
    }

    /** Any run of the protocol can be performed, and gets where the protocol says. */
    method PerformAll(es: seq<Event>)
      requires View() == START && CanRun(START, es)
      modifies this
      ensures View() == After(START, es) && Inv(View())
    {
      StartInv();
      assert es[0..] == es;
      for i := 0 to |es|
        invariant Inv(View()) && CanRun(View(), es[i..]) && After(View(), es[i..]) == After(START, es)
      {
        ghost var w := View();
        assert es[i..][0] == es[i] && es[i..][1..] == es[i + 1..];
        StepsAreSafe(w, es[i]);
        InvKept(w, es[i]);
        Perform(es[i]);
      }
    }
  }
}

/** Glib::Source and its SourceCallbackData in the form of the code; each method is an uninterruptible step. */
module Source {
  import opened SourceLifetime

  class Source {
    /** The fields of the wrapper, while it is in memory. */
    var gobject: bool
    var refCount: int
    var keepWrapper: int
    /** The wrapper is in memory. */
    var inMemory: bool
    /** SourceCallbackData::wrapper is not null. */
    var dataWrapper: bool
    /** Where the threads stand that release the wrapper and run the destroy notification. */
    var release: Release
    var notify: Notify
    /** g_source_is_destroyed() */
    var destroyed: bool
    ghost var aborted: bool
    ghost var others: nat
    ghost var ready: bool
    ghost var queries: nat
    ghost var dispatches: nat
    ghost var unrefs: nat
    ghost var deletions: nat
    /** A wrapper that is gone was used: anything may happen. */
    ghost var misused: bool

    ghost function View(): State
      reads this
    {
      State(inMemory, gobject, refCount, keepWrapper, dataWrapper, release, notify, aborted, others, destroyed,
            ready, queries, dispatches, unrefs, deletions, misused)
    }

    constructor ()
      ensures View() == NEW
    {
      gobject, refCount, keepWrapper, dataWrapper := true, 1, 2, true;
      release, notify := Referenced, Attached;
      inMemory, aborted, others, destroyed, ready := true, false, 0, false, false;
      queries, dispatches, unrefs, deletions, misused := 0, 0, 0, 0, false;
    }

    method Reference()
      requires Inv(View()) && Enabled(View(), Event.Reference)
      modifies `refCount
      ensures View() == Apply(old(View()), Event.Reference)
    {
      assert inMemory;
      refCount := refCount + 1;
    }

    /** unreference(), up to the copy of gobject_ */
    method Unreference()
      requires Inv(View()) && Enabled(View(), Event.Unreference)
      modifies `refCount, `release
      ensures View() == Apply(old(View()), Event.Unreference)
    {
      assert inMemory;
      refCount := refCount - 1;
      if refCount == 0 {
        // The copy of gobject_ is not null.
        assert gobject;
        release := Noted;
      }
    }

    /** destroy_notify_callback2(), for a wrapper that is not null */
    method DestroyNotifyCallback2()
      requires inMemory
      modifies `keepWrapper, `gobject, `inMemory, `deletions
      ensures View() == Drop(old(View()))
    {
      keepWrapper := keepWrapper - 1;
      if keepWrapper == 0 {
        gobject := false;
        // delete self
        inMemory := false;
        deletions := deletions + 1;
      }
    }

    /** unreference(): the call of destroy_notify_callback2() */
    method DropByReferences()
      requires Inv(View()) && Enabled(View(), Event.DropByReferences)
      modifies `keepWrapper, `gobject, `inMemory, `deletions, `release
      ensures View() == Apply(old(View()), Event.DropByReferences)
    {
      DestroyNotifyCallback2();
      release := Dropped;
    }

    /** unreference(): g_source_unref() on the copy */
    method UnrefSource()
      requires Inv(View()) && Enabled(View(), Event.UnrefSource)
      modifies `release, `unrefs
      ensures View() == Apply(old(View()), Event.UnrefSource)
    {
      assert unrefs == 0;
      release, unrefs := Released, unrefs + 1;
    }

    /** SourceCallbackData::destroy_notify_callback(): the node goes first */
    method CallNotify()
      requires Inv(View()) && Enabled(View(), Event.CallNotify)
      modifies `notify
      ensures View() == Apply(old(View()), Event.CallNotify)
    {
      notify := Called;
    }

    /** SourceCallbackData::destroy_notify_callback(): the call of destroy_notify_callback2() */
    method DropByData()
      requires Inv(View()) && Enabled(View(), Event.DropByData)
      modifies `keepWrapper, `gobject, `inMemory, `deletions, `notify, `misused
      ensures View() == Apply(old(View()), Event.DropByData)
    {
      if dataWrapper && !inMemory {
        misused := true;
        return;
      }
      if dataWrapper {
        DestroyNotifyCallback2();
      }
      notify := Finished;
    }

    /** prepare_vfunc() and check_vfunc(), up to the call of prepare() or check(); a null wrapper is not asked. */
    method BeginQuery()
      requires Inv(View()) && Enabled(View(), Event.BeginQuery)
      modifies `queries, `misused
      ensures View() == Apply(old(View()), Event.BeginQuery)
      ensures !misused && queries == old(queries) + (if dataWrapper then 1 else 0)
    {
      if dataWrapper {
        assert inMemory;
        queries := queries + 1;
      }
    }

    /** prepare() and check() return this. */
    method EndQuery(found: bool)
      requires Inv(View()) && Enabled(View(), Event.EndQuery(found))
      modifies `queries, `ready, `misused
      ensures View() == Apply(old(View()), Event.EndQuery(found))
      ensures misused <==> aborted || (ReferencesGone(View()) && DataGone(View()))
    {
      if !inMemory {
        misused := true;
        return;
      }
      queries := queries - 1;
      ready := ready || found;
    }

    /** dispatch_vfunc(), up to the slot: the wrapper is used without a test for null. */
    method Dispatch()
      requires Inv(View()) && Enabled(View(), BeginDispatch)
      modifies `ready, `dispatches, `misused
      ensures View() == Apply(old(View()), BeginDispatch)
      ensures misused <==> aborted
      ensures !misused ==> dataWrapper && inMemory
    {
      if !dataWrapper || !inMemory {
        misused := true;
        return;
      }
      ready := false;
      dispatches := dispatches + 1;
    }

    /** dispatch_vfunc(), from the slot on: the wrapper is still used. */
    method Dispatched()
      requires Inv(View()) && Enabled(View(), EndDispatch)
      modifies `dispatches, `misused
      ensures View() == Apply(old(View()), EndDispatch)
      ensures misused <==> aborted
    {
      if !inMemory {
        misused := true;
        return;
      }
      dispatches := dispatches - 1;
    }

    /** ~Source(), when the constructor of a derived class threw */
    method Abort()
      requires Inv(View()) && Enabled(View(), Event.Abort)
      modifies `dataWrapper, `gobject, `unrefs, `inMemory, `deletions, `aborted
      ensures View() == Apply(old(View()), Event.Abort)
    {
      // glibmm_source_get_callback_data() gives null for a GSource that was destroyed
      if !destroyed {
        dataWrapper := false;
      }
      gobject := false;
      unrefs := unrefs + 1;
      inMemory, deletions, aborted := false, deletions + 1, true;
    }

    /** A step of a main loop. */
    method PerformInLoop(e: Event)
      requires Inv(View()) && Enabled(View(), e) && ByLoop(e)
      modifies this
      ensures View() == Apply(old(View()), e)
    {
      match e
      case BeginQuery => BeginQuery();
      case EndQuery(found) => EndQuery(found);
      case GiveUp => ready := false;
      case BeginDispatch => Dispatch();
      case EndDispatch => Dispatched();
    }

    /** Any step; those of GLib only count what others do. */
    method Perform(e: Event)
      requires Inv(View()) && Enabled(View(), e)
      modifies this
      ensures View() == Apply(old(View()), e)
    {
      match e
      case Reference => Reference();
      case Unreference => Unreference();
      case DropByReferences =>
        assert inMemory;
        DropByReferences();
      case UnrefSource => UnrefSource();
      case TakeSource => others := others + 1;
      case LeaveSource => others := others - 1;
      case DestroySource => destroyed := true;
      case CallNotify => CallNotify();
      case DropByData => DropByData();
      case FreeData => notify := Freed;
      case Abort => Abort();
      case _ => PerformInLoop(e);
    }

    /** Any run can be performed, and gets where the model says. */
    method PerformAll(es: seq<Event>)
      requires View() == NEW && CanRun(NEW, es)
      modifies this
      ensures View() == After(NEW, es) && Inv(View())
    {
      assert es[0..] == es;
      for i := 0 to |es|
        invariant Inv(View()) && CanRun(View(), es[i..]) && After(View(), es[i..]) == After(NEW, es)
      {
        assert es[i..][0] == es[i] && es[i..][1..] == es[i + 1..];
        InvKept(View(), es[i]);
        Perform(es[i]);
      }
    }
  }
}

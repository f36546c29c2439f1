/**
  * Wrapper identity: a GObject stores the wrapper it has, and a wrapper stores the GObject it
  * is for. The two have to agree through wrapping, moving and destruction.
  */
module ObjectBase {
  import opened Wrappers

  /** A registered type, with the type it is derived from; Invalid is the GType 0. */
  datatype GType = Invalid | Registered(id: nat, parent: GType)

  /** A wrap_new() function: it makes a wrapper of a certain C++ class. */
  type WrapNew = nat

  // ---- GObjects and their wrappers -------------------------------------------------------

  class GObject {
    const gtype: GType
    var refCount: nat
    /** The data stored under quark_, whose destroy notification is destroy_notify_callback_(). */
    var wrapper: Wrapper?
    /** Something is stored under quark_cpp_wrapper_deleted_. */
    var wrapperDeleted: bool

    constructor (gtype: GType)
      ensures this.gtype == gtype && refCount == 1 && wrapper == null && !wrapperDeleted
    {
      this.gtype, refCount, wrapper, wrapperDeleted := gtype, 1, null, false;
    }

    /** g_object_unref(): the last one clears the stored data, which deletes the wrapper. */
    method Unref(ghost gs: set<GObject>, ghost ws: set<Wrapper>)
      requires Inverse(gs, ws) && this in gs && refCount > 0
      modifies `refCount, `wrapper, if wrapper == null then {} else {wrapper}
      ensures Inverse(gs, ws) && refCount == old(refCount) - 1
      ensures refCount > 0 ==> wrapper == old(wrapper) && (wrapper != null ==> unchanged(wrapper))
      ensures refCount == 0 ==>
                wrapper == null && (old(wrapper) != null ==> old(wrapper).deleted && old(wrapper).gobject == null)
    {
      refCount := refCount - 1;
      if refCount == 0 && wrapper != null {
        var data := wrapper;
        wrapper := null;
        data.DestroyNotify();
      }
    }
  }

  /** Glib::ObjectBase */
  class Wrapper {
    /** gobject_, custom_type_name_ and cpp_destruction_in_progress_ */
    var gobject: GObject?
    var customTypeName: Option<string>
    var inDestruction: bool
    /** The wrap_new() function that made this wrapper, if one did. */
    const madeBy: Option<WrapNew>
    ghost var deleted: bool
    /** A null GObject was dereferenced, when this wrapper was to be moved into: anything may happen. */
    ghost var undefined: bool

    constructor (customTypeName: string, madeBy: Option<WrapNew>)
      ensures gobject == null && this.customTypeName == Some(customTypeName) && !inDestruction && this.madeBy == madeBy
      ensures !deleted && !undefined
    {
      gobject, this.customTypeName, inDestruction, this.madeBy := null, Some(customTypeName), false, madeBy;
      deleted, undefined := false, false;
    }

    /** initialize(): the slots still agree exactly if the GObject had no wrapper. */
    method Initialize(castitem: GObject?, ghost gs: set<GObject>, ghost ws: set<Wrapper>)
      requires Inverse(gs, ws) && this in ws && !deleted
          && (castitem != null ==> castitem in gs && castitem.refCount > 0)
      requires gobject != null ==> gobject == castitem
      modifies `gobject, if castitem == null then {} else {castitem}
      ensures gobject == castitem
      ensures castitem != null ==>
                && castitem.wrapper == (if old(castitem.wrapper) == null then this else old(castitem.wrapper))
                && castitem.refCount == old(castitem.refCount)
                && castitem.wrapperDeleted == old(castitem.wrapperDeleted)
      ensures Inverse(gs, ws) <==> castitem == null || old(castitem.wrapper) == null || old(castitem.wrapper) == this
    {
      if gobject != null { return; }
      gobject := castitem;
      // _set_current_wrapper()
      if castitem != null && castitem.wrapper == null {
        castitem.wrapper := this;
      }
    }

    /** initialize_move(); a wrapper that has the GObject already stays as it is. */
    method InitializeMove(castitem: GObject?, previous: Wrapper, ghost gs: set<GObject>, ghost ws: set<Wrapper>)
      requires Inverse(gs, ws) && this in ws && !deleted && previous in ws && previous.gobject == castitem
      requires gobject != null ==> gobject == castitem
      modifies this, previous, if castitem == null then {} else {castitem}
      ensures Inverse(gs, ws) && deleted == old(deleted) && previous.deleted == old(previous.deleted)
      ensures castitem != null ==>
                castitem.refCount == old(castitem.refCount)
                && castitem.wrapperDeleted == old(castitem.wrapperDeleted)
      ensures old(gobject) != null ==> unchanged(this) && unchanged(previous) && unchanged(castitem)
      ensures old(gobject) == null ==> undefined == (old(undefined) || castitem == null)
      ensures old(gobject) == null && castitem == null ==> gobject == null && previous.gobject == null
      ensures old(gobject) == null && castitem != null ==>
                && gobject == castitem && castitem.wrapper == this && previous.gobject == null
                && customTypeName == old(previous.customTypeName) && inDestruction == old(previous.inDestruction)
                && previous.customTypeName == None && !previous.inDestruction
    {
      if gobject != null { return; }

      gobject := castitem;
      // _move_current_wrapper()
      if castitem == null {
        // No wrapper is found, so the warning about it asks for the type name of the GObject.
        undefined := true;
        return;
      }
      castitem.wrapper := null;
      castitem.wrapper := this;
      previous.gobject := null;

      customTypeName, inDestruction := previous.customTypeName, previous.inDestruction;
      previous.customTypeName, previous.inDestruction := None, false;
    }

    /** The move constructor of Object: it is defined exactly if there is a GObject to move. */
    constructor Move(src: Wrapper, ghost gs: set<GObject>, ghost ws: set<Wrapper>)
      requires Inverse(gs, ws) && src in ws
      modifies src, if src.gobject == null then {} else {src.gobject}
      ensures fresh(this) && Inverse(gs, ws + {this}) && !deleted && madeBy == src.madeBy
          && src.deleted == old(src.deleted)
      ensures undefined <==> old(src.gobject) == null
      ensures gobject == old(src.gobject) && src.gobject == null
      ensures !undefined ==>
                && gobject.wrapper == this && gobject.refCount == old(src.gobject.refCount)
                && gobject.wrapperDeleted == old(src.gobject.wrapperDeleted)
                && customTypeName == old(src.customTypeName) && inDestruction == old(src.inDestruction)
    {
      gobject, customTypeName, inDestruction := null, src.customTypeName, src.inDestruction;
      madeBy, deleted, undefined := src.madeBy, false, false;
      new;
      InitializeMove(src.gobject, src, gs, ws + {this});
    }

    /**
      * Move assignment: the old GObject loses one reference, and the other one's wrapper is now
      * this. It is defined exactly if there is a GObject to move, or nothing to do.
      */
    method MoveAssign(src: Wrapper, ghost gs: set<GObject>, ghost ws: set<Wrapper>)
      requires Inverse(gs, ws) && this in ws && src in ws && !deleted && !undefined
      modifies this, src, if src.gobject == null then {} else {src.gobject}, if gobject == null then {} else {gobject}
      ensures Inverse(gs, ws) && !deleted
      ensures undefined <==> src != this && old(src.gobject) == null
      ensures src == this ==> unchanged(this) && (gobject != null ==> unchanged(gobject))
      ensures src != this ==>
                && gobject == old(src.gobject) && src.gobject == null && src.deleted == old(src.deleted)
                && (old(gobject) != null ==>
                      old(gobject).wrapper == null && old(gobject).refCount == old(gobject.refCount) - 1)
      ensures src != this && !undefined ==>
                && gobject.wrapper == this && gobject.refCount == old(src.gobject.refCount)
                && gobject.wrapperDeleted == old(src.gobject.wrapperDeleted)
                && customTypeName == old(src.customTypeName) && inDestruction == old(src.inDestruction)
                && src.customTypeName == None && !src.inDestruction
    {
      if this == src { return; }
      if gobject != null {
        var previous := gobject;
        // Take the wrapper out first, so that losing the last reference does not delete this.
        previous.wrapper := null;
        gobject := null;
        previous.Unref(gs, ws);
      }
      InitializeMove(src.gobject, src, gs, ws);
    }

    /** destroy_notify_(): the GObject is going away, and takes its wrapper with it. */
    method DestroyNotify()
      requires !deleted
      modifies `gobject, `deleted
      ensures gobject == null && deleted
    {
      gobject := null;
      deleted := true;
    }

    /** The destructor, when it is not DestroyNotify() that deletes the wrapper. */
    method Destroy(ghost gs: set<GObject>, ghost ws: set<Wrapper>)
      requires Inverse(gs, ws) && this in ws && !deleted
      modifies `gobject, `deleted, if gobject == null then {} else {gobject}
      ensures Inverse(gs, ws) && gobject == null && deleted
      ensures old(gobject) != null ==>
                old(gobject).wrapper == null && old(gobject).refCount == old(gobject.refCount) - 1
    {
      if gobject != null {
        var previous := gobject;
        gobject := null;
        previous.wrapper := null;
        previous.Unref(gs, ws);
      }
      deleted := true;
    }
  }

  /** The two slots agree, both ways, and only GObjects and wrappers that still exist are linked. */
  ghost predicate Inverse(gs: set<GObject>, ws: set<Wrapper>)
    reads gs, ws
  {
    && (forall g :: g in gs && g.wrapper != null ==> g.wrapper in ws && g.wrapper.gobject == g && g.refCount > 0)
    && (forall w :: w in ws && w.gobject != null ==> w.gobject in gs && w.gobject.wrapper == w && !w.deleted)
  }

  /** So no GObject has two wrappers, and no wrapper is stored in two GObjects. */
  lemma {:induction false} NoSecondWrapper(gs: set<GObject>, ws: set<Wrapper>)
    requires Inverse(gs, ws)
    ensures forall v, w :: v in ws && w in ws && v.gobject != null && v.gobject == w.gobject ==> v == w
    ensures forall g, h :: g in gs && h in gs && g.wrapper != null && g.wrapper == h.wrapper ==> g == h
  {
  }

  // ---- Which wrap_new() function is for which type ---------------------------------------

  /** The type itself, then its parent, and so on up to the root. */
  function Ancestry(t: GType): seq<GType> {
    if t.Invalid? then [] else [t] + Ancestry(t.parent)
  }

  /** The nearest ancestor with a registered function has this one. */
  ghost predicate IsNearest(t: GType, registered: map<GType, WrapNew>, f: WrapNew) {
    exists i: nat :: NearestAt(t, registered, i) && registered[Ancestry(t)[i]] == f
  }

  ghost predicate NearestAt(t: GType, registered: map<GType, WrapNew>, i: nat) {
    && i < |Ancestry(t)| && Ancestry(t)[i] in registered
    && (forall j :: 0 <= j < i ==> Ancestry(t)[j] !in registered)
  }

  ghost predicate NoneRegistered(t: GType, registered: map<GType, WrapNew>) {
    forall a :: a in Ancestry(t) ==> a !in registered
  }

  /** One type is the other one, or its parent, or the parent of that, and so on. */
  predicate IsAncestor(a: GType, t: GType) {
    t.Registered? && (a == t || IsAncestor(a, t.parent))
  }

  lemma {:induction false} AncestryIs(t: GType, a: GType)
    ensures a in Ancestry(t) <==> IsAncestor(a, t)
    decreases t
  {
    if t.Registered? {
      AncestryIs(t.parent, a);
    }
  }

  /** From any place of it on, the ancestry is that of the type at this place. */
  lemma {:induction false} AncestryFrom(t: GType, i: nat)
    requires i < |Ancestry(t)|
    ensures Ancestry(Ancestry(t)[i]) == Ancestry(t)[i..]
    decreases t
  {
    if i > 0 {
      AncestryFrom(t.parent, i - 1);
    }
  }

  /** No type has a function exactly if no ancestor is registered. */
  lemma {:induction false} NoneMeans(t: GType, registered: map<GType, WrapNew>)
    ensures NoneRegistered(t, registered) <==> forall a :: a in registered ==> !IsAncestor(a, t)
  {
    forall a: GType
      ensures a in Ancestry(t) <==> IsAncestor(a, t)
    {
      AncestryIs(t, a);
    }
  }

  /** Registered itself, a type has its own function. */
  lemma {:induction false} NearestIsSelf(t: GType, registered: map<GType, WrapNew>)
    requires t.Registered? && t in registered
    ensures IsNearest(t, registered, registered[t])
  {
    assert Ancestry(t)[0] == t && NearestAt(t, registered, 0);
  }

  /** The nearest function is that of a registered ancestor which has all the others above it. */
  lemma {:induction false} NearestMeans(t: GType, registered: map<GType, WrapNew>, f: WrapNew)
    ensures IsNearest(t, registered, f) <==>
              exists a :: Nearest(a, t, registered) && registered[a] == f
  {
    if IsNearest(t, registered, f) {
      var i: nat :| NearestAt(t, registered, i) && registered[Ancestry(t)[i]] == f;
      NearestFrom(t, registered, i);
    }
    if a :| Nearest(a, t, registered) && registered[a] == f {
      AncestryIs(t, a);
      var i :| 0 <= i < |Ancestry(t)| && Ancestry(t)[i] == a;
      forall j | 0 <= j < i
        ensures Ancestry(t)[j] !in registered
      {
        NotAbove(t, j, i);
        AncestryIs(t, Ancestry(t)[j]);
        AncestryIs(a, Ancestry(t)[j]);
      }
      assert NearestAt(t, registered, i);
    }
  }

  ghost predicate Nearest(a: GType, t: GType, registered: map<GType, WrapNew>) {
    && a in registered && IsAncestor(a, t)
    && (forall b :: b in registered && IsAncestor(b, t) ==> IsAncestor(b, a))
  }

  lemma {:induction false} NearestFrom(t: GType, registered: map<GType, WrapNew>, i: nat)
    requires NearestAt(t, registered, i)
    ensures Nearest(Ancestry(t)[i], t, registered)
  {
    var a := Ancestry(t)[i];
    AncestryIs(t, a);
    forall b | b in registered && IsAncestor(b, t)
      ensures IsAncestor(b, a)
    {
      AncestryIs(t, b);
      var j :| 0 <= j < |Ancestry(t)| && Ancestry(t)[j] == b;
      AncestryFrom(t, i);
      assert Ancestry(a)[j - i] == b;
      AncestryIs(a, b);
    }
  }

  /** A type is no ancestor of one that is above it. */
  lemma {:induction false} NotAbove(t: GType, j: nat, i: nat)
    requires j < i < |Ancestry(t)|
    ensures Ancestry(t)[j] !in Ancestry(Ancestry(t)[i])
  {
    AncestryFrom(t, i);
    AncestryFrom(t, j);
    forall k | i <= k < |Ancestry(t)|
      ensures Ancestry(t)[k] != Ancestry(t)[j]
    {
      AncestryFrom(t, k);
      assert |Ancestry(Ancestry(t)[k])| < |Ancestry(Ancestry(t)[j])|;
    }
  }

  /** Climbing past a type with no function does not change the answer. */
  lemma {:induction false} ClimbOne(t: GType, registered: map<GType, WrapNew>)
    requires t.Registered? && t !in registered
    ensures NoneRegistered(t, registered) <==> NoneRegistered(t.parent, registered)
    ensures forall f :: IsNearest(t.parent, registered, f) ==> IsNearest(t, registered, f)
  {
    var up := Ancestry(t.parent);
    forall f | IsNearest(t.parent, registered, f)
      ensures IsNearest(t, registered, f)
    {
      var i: nat :| NearestAt(t.parent, registered, i) && registered[up[i]] == f;
      forall j | 0 <= j < i + 1
        ensures Ancestry(t)[j] !in registered
      {
        assert j > 0 ==> Ancestry(t)[j] == up[j - 1];
      }
      assert NearestAt(t, registered, i + 1);
    }
  }

  /** There is one function at most that is the nearest. */
  lemma {:induction false} NearestIsUnique(t: GType, registered: map<GType, WrapNew>, f: WrapNew, g: WrapNew)
    requires IsNearest(t, registered, f) && IsNearest(t, registered, g)
    ensures f == g && !NoneRegistered(t, registered)
  {
    var i: nat :| NearestAt(t, registered, i) && registered[Ancestry(t)[i]] == f;
    var j: nat :| NearestAt(t, registered, j) && registered[Ancestry(t)[j]] == g;
  }

  class WrapRegistry {
    /** wrap_func_table, if it exists, and the index stored in each type's data. */
    var table: Option<seq<Option<WrapNew>>>
    var indexOf: map<GType, nat>
    /** The function last registered for each type. */
    ghost var registered: map<GType, WrapNew>

    ghost predicate Valid()
      reads this
    {
      && indexOf.Keys == registered.Keys
      && (table.None? ==> indexOf == map[])
      && (table.Some? ==>
            && |table.value| >= 1
            && forall t :: t in indexOf ==>
                 0 < indexOf[t] < |table.value| && table.value[indexOf[t]] == Some(registered[t]))
    }

    constructor ()
      ensures Valid() && table.None? && registered == map[]
    {
      table, indexOf, registered := None, map[], map[];
    }

    /** wrap_register_init(): the first element is a dummy, so that no index is 0. */
    method Init()
      requires Valid()
      modifies `table
      ensures Valid() && table.Some? && (old(table).Some? ==> table == old(table))
    {
      if table.None? {
        table := Some([None]);
      }
    }

    /** wrap_register() */
    method Register(t: GType, func: WrapNew)
      requires Valid() && table.Some?
      modifies this
      ensures Valid() && table.Some?
      ensures registered == if t == Invalid then old(registered) else old(registered)[t := func]
    {
      if t == Invalid { return; }
      var idx := |table.value|;
      table := Some(table.value + [Some(func)]);
      indexOf := indexOf[t := idx];
      registered := registered[t := func];
    }

    /** The loop of wrap_create_new_wrapper(): the function for the nearest type that has one. */
    method FindWrapNew(gtype: GType) returns (func: Option<WrapNew>)
      requires Valid() && table.Some?
      ensures func.None? <==> NoneRegistered(gtype, registered)
      ensures func.Some? ==> IsNearest(gtype, registered, func.value)
    {
      var t := gtype;
      while t != Invalid
        invariant NoneRegistered(gtype, registered) <==> NoneRegistered(t, registered)
        invariant forall f :: IsNearest(t, registered, f) ==> IsNearest(gtype, registered, f)
        decreases t
      {
        if t in indexOf && indexOf[t] != 0 {
          assert Ancestry(t)[0] == t;
          assert NearestAt(t, registered, 0);
          return table.value[indexOf[t]];
        }
        ClimbOne(t, registered);
        t := t.parent;
      }
      return None;
    }

    /** wrap_create_new_wrapper() */
    method CreateNewWrapper(object_: GObject, ghost gs: set<GObject>, ghost ws: set<Wrapper>) returns (w: Wrapper?)
      requires Valid() && Inverse(gs, ws) && object_ in gs && object_.refCount > 0 && object_.wrapper == null
      modifies object_
      ensures object_.refCount == old(object_.refCount) && object_.wrapperDeleted == old(object_.wrapperDeleted)
      ensures w == null <==> table.None? || object_.wrapperDeleted || NoneRegistered(object_.gtype, registered)
      ensures w == null ==> object_.wrapper == null
      ensures w != null ==> fresh(w) && w.madeBy.Some? && IsNearest(object_.gtype, registered, w.madeBy.value)
      ensures w != null ==> Inverse(gs, ws + {w}) && object_.wrapper == w && w.gobject == object_
    {
      if table.None? || object_.wrapperDeleted { return null; }
      var func := FindWrapNew(object_.gtype);
      if func.None? { return null; }
      w := new Wrapper("", func);
      w.Initialize(object_, gs, ws + {w});
    }

    /**
      * wrap_auto(): the wrapper that the object has, or else a new one. It is then the
      * wrapper of the object, so that the next call gives it again.
      */
    method WrapAuto(object_: GObject?, takeCopy: bool, ghost gs: set<GObject>, ghost ws: set<Wrapper>)
        returns (w: Wrapper?)
      requires Valid() && Inverse(gs, ws) && (object_ != null ==> object_ in gs && object_.refCount > 0)
      modifies if object_ == null then {} else {object_}
      ensures w == null <==>
                object_ == null || (old(object_.wrapper) == null &&
                  (table.None? || object_.wrapperDeleted || NoneRegistered(object_.gtype, registered)))
      ensures w != null ==> object_.wrapper == w && w.gobject == object_ && Inverse(gs, ws + {w})
      ensures w != null && old(object_.wrapper) != null ==> w == old(object_.wrapper)
      ensures w != null && old(object_.wrapper) == null ==>
                fresh(w) && w.madeBy.Some? && IsNearest(object_.gtype, registered, w.madeBy.value)
      ensures object_ != null ==>
                && object_.refCount == old(object_.refCount) + (if takeCopy && w != null then 1 else 0)
                && (w == null ==> object_.wrapper == null)
                && object_.wrapperDeleted == old(object_.wrapperDeleted)
    {
      if object_ == null { return null; }
      w := object_.wrapper;
      if w == null {
        w := CreateNewWrapper(object_, gs, ws);
        if w == null { return null; }
      } else {
        assert ws + {w} == ws;
      }
      if takeCopy {
        object_.refCount := object_.refCount + 1;
      }
    }
  }

  // ---- What that amounts to --------------------------------------------------------------

  /** Wrapping an object, moving the wrapper, and wrapping the object again: it gives the wrapper moved into. */
  method WrapFollowsMove(registry: WrapRegistry, object_: GObject, ghost gs: set<GObject>, ghost ws: set<Wrapper>)
      returns (first: Wrapper?, moved: Wrapper?, again: Wrapper?)
    requires registry.Valid() && Inverse(gs, ws) && object_ in gs && object_.refCount > 0
    modifies object_, if object_.wrapper == null then {} else {object_.wrapper}
    ensures first == null <==>
              old(object_.wrapper) == null &&
              (registry.table.None? || old(object_.wrapperDeleted)
               || NoneRegistered(object_.gtype, registry.registered))
    ensures first == null ==> moved == null && again == null && object_.wrapper == null
    ensures first != null && old(object_.wrapper) != null ==> first == old(object_.wrapper)
    ensures first != null && old(object_.wrapper) == null ==> fresh(first)
    ensures first != null ==>
              && moved != null && fresh(moved) && moved != first && again == moved
              && object_.wrapper == moved && moved.gobject == object_ && first.gobject == null
              && Inverse(gs, ws + {first} + {moved})
    ensures object_.refCount == old(object_.refCount)
  {
    first := registry.WrapAuto(object_, false, gs, ws);
    moved := first;
    if first != null {
      moved := new Wrapper.Move(first, gs, ws + {first});
      again := registry.WrapAuto(object_, false, gs, ws + {first} + {moved});
      assert ws + {first} + {moved} + {again} == ws + {first} + {moved};
    } else {
      again := registry.WrapAuto(object_, false, gs, ws);
    }
  }

  /** After a move assignment, deleting the wrapper moved from releases nothing more. */
  method AssignThenDestroy(to: Wrapper, from: Wrapper, ghost gs: set<GObject>, ghost ws: set<Wrapper>)
    requires Inverse(gs, ws) && to in ws && from in ws && to != from && !to.deleted && !to.undefined
        && to.gobject != null
    requires from.gobject != null
    modifies to, from, to.gobject, from.gobject
    ensures Inverse(gs, ws) && from.deleted && !to.deleted && to.gobject == old(from.gobject)
    ensures old(to.gobject).refCount == old(to.gobject.refCount) - 1
    ensures to.gobject.refCount == old(from.gobject.refCount) && to.gobject.wrapper == to
  {
    to.MoveAssign(from, gs, ws);
    from.Destroy(gs, ws);
  }
}

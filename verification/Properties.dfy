/**
  * Custom properties of Glib::Object classes: IDs belong to the class, values to the object.
  * Interface properties are overridden first, then each instance constructs the same
  * properties in the same order.
  */
module Properties {
  import opened Wrappers

  type Value = int

  /** A property as it is declared: by an interface, or by a Glib::Property<> member. */
  datatype Declared = Declared(name: string, default_: Value)

  /** GParamSpec, with the ID it was installed with. */
  datatype ParamSpec = ParamSpec(name: string, id: nat, default_: Value)

  // ---- Which interface properties a class overrides --------------------------------------

  /** The properties among these that are not found in the class, each once, in the order of their numbers. */
  function Overridden(props: seq<Declared>, found: set<string>): seq<Declared> {
    if props == [] then []
    else if props[0].name in found then Overridden(props[1..], found)
    else [props[0]] + Overridden(props[1..], found + {props[0].name})
  }

  function Names(props: seq<Declared>): set<string> {
    set p | p in props :: p.name
  }

  predicate DistinctNames(props: seq<Declared>) {
    forall i :: 0 <= i < |props| ==> DistinctFrom(props, i)
  }

  /** No property after this one has its name. */
  predicate DistinctFrom(props: seq<Declared>, i: nat)
    requires i < |props|
  {
    forall j :: i < j < |props| ==> props[j].name != props[i].name
  }

  lemma {:induction false} NamesCons(p: Declared, rest: seq<Declared>)
    ensures Names([p] + rest) == {p.name} + Names(rest)
  {
    assert forall q :: q in [p] + rest <==> q == p || q in rest;
  }

  lemma {:induction false} DistinctCons(p: Declared, rest: seq<Declared>)
    requires DistinctNames(rest) && p.name !in Names(rest)
    ensures DistinctNames([p] + rest)
  {
    var all := [p] + rest;
    forall i: nat | i < |all|
      ensures DistinctFrom(all, i)
    {
      assert i > 0 ==> DistinctFrom(rest, i - 1);
      assert forall j :: 0 < j < |all| ==> all[j] in rest;
    }
  }

  /** Every name that the base class does not have is overridden, and only once. */
  lemma {:induction false} OverriddenOnce(props: seq<Declared>, found: set<string>)
    ensures DistinctNames(Overridden(props, found))
    ensures Names(Overridden(props, found)) == Names(props) - found
  {
    if props != [] {
      var p, rest := props[0], props[1..];
      assert props == [p] + rest;
      NamesCons(p, rest);
      if p.name in found {
        OverriddenOnce(rest, found);
      } else {
        OverriddenOnce(rest, found + {p.name});
        NamesCons(p, Overridden(rest, found + {p.name}));
        DistinctCons(p, Overridden(rest, found + {p.name}));
      }
    }
  }

  lemma {:induction false} OverriddenConcat(a: seq<Declared>, b: seq<Declared>, found: set<string>)
    ensures Overridden(a + b, found) == Overridden(a, found) + Overridden(b, found + Names(a))
  {
    if a == [] {
      assert a + b == b && found + Names(a) == found;
    } else {
      var p := a[0];
      assert (a + b)[1..] == a[1..] + b;
      assert found + Names(a) == found + {p.name} + Names(a[1..]);
      if p.name in found {
        assert found + Names(a) == found + Names(a[1..]);
        OverriddenConcat(a[1..], b, found);
      } else {
        OverriddenConcat(a[1..], b, found + {p.name});
      }
    }
  }

  lemma {:induction false} OverriddenSnoc(a: seq<Declared>, p: Declared, found: set<string>)
    ensures Overridden(a + [p], found)
         == Overridden(a, found) + (if p.name in found + Names(a) then [] else [p])
  {
    OverriddenConcat(a, [p], found);
    assert [p][1..] == [];
  }

  lemma {:induction false} NamesSnoc(a: seq<Declared>, p: Declared)
    ensures Names(a + [p]) == Names(a) + {p.name}
  {
    assert forall q :: q in a + [p] <==> q in a || q == p;
  }

  function Flatten(lists: seq<seq<Declared>>): seq<Declared> {
    if lists == [] then [] else Flatten(lists[..|lists| - 1]) + lists[|lists| - 1]
  }

  // ---- The class -------------------------------------------------------------------------

  /** A custom GType with its GObjectClass. */
  class CustomClass {
    /** The names of the properties that the base class has. */
    const inherited: set<string>
    /** What the interfaces of the type declare, and what the instances construct. */
    const interfaces: seq<seq<Declared>>
    const members: seq<Declared>
    /** The properties installed in this class; the defaults under iface_properties_quark. */
    var specs: map<string, ParamSpec>
    var ifaceProps: seq<Value>
    /** How many of the members were installed. */
    ghost var installed: nat

    ghost function Overrides(): seq<Declared> {
      Overridden(Flatten(interfaces), inherited)
    }

    /** The members do not clash with each other, with the interfaces or with the base class. */
    ghost predicate WellDeclared() {
      && DistinctNames(members)
      && forall p :: p in members ==> p.name !in inherited && p.name !in Names(Flatten(interfaces))
    }

    /** The IDs: 1, 2, ... for the interface properties and then for the members, in their order. */
    ghost predicate Numbered(spec: ParamSpec) {
      var n := |Overrides()|;
      && 1 <= spec.id
      && if spec.id <= n then spec == SpecOf(Overrides()[spec.id - 1], spec.id)
         else spec.id <= n + |members| && spec == SpecOf(members[spec.id - 1 - n], spec.id)
    }

    ghost predicate Valid()
      reads this
    {
      && WellDeclared()
      && installed <= |members|
      && |ifaceProps| == |Overrides()|
      && (forall i :: 0 <= i < |ifaceProps| ==> ifaceProps[i] == Overrides()[i].default_)
      && (forall name :: name in specs ==> specs[name].name == name && Numbered(specs[name]))
      && (forall i :: 0 <= i < |members| ==> MemberInstalled(i))
    }

    /** A member has its spec once an instance has got to it. */
    ghost predicate MemberInstalled(i: nat)
      reads this
      requires i < |members|
    {
      && (members[i].name in specs <==> i < installed)
      && (i < installed ==> specs[members[i].name] == SpecOf(members[i], |ifaceProps| + i + 1))
    }

    /** IDs are not zero, and different properties have different IDs. */
    lemma {:induction false} IdsAreDistinct(a: string, b: string)
      requires Valid() && a in specs && b in specs
      ensures specs[a].id != 0
      ensures specs[a].id == specs[b].id ==> a == b
    {
    }

    constructor (inherited: set<string>, interfaces: seq<seq<Declared>>, members: seq<Declared>)
      requires DistinctNames(members)
      requires forall p :: p in members ==> p.name !in inherited && p.name !in Names(Flatten(interfaces))
      ensures Valid() && installed == 0
      ensures this.inherited == inherited && this.interfaces == interfaces && this.members == members
    {
      this.inherited, this.interfaces, this.members := inherited, interfaces, members;
      specs, ifaceProps, installed := map[], [], 0;
      new;
      CustomClassInit();
    }

    /** g_object_class_install_property(), by the first instance that gets to its property with this index. */
    method Install(index: nat)
      requires Valid() && index == installed < |members|
      modifies `specs, `installed
      ensures Valid() && installed == old(installed) + 1
      ensures members[index].name !in old(specs)
      ensures specs == old(specs)[members[index].name := SpecOf(members[index], |ifaceProps| + index + 1)]
    {
      var spec := SpecOf(members[index], |ifaceProps| + index + 1);
      ghost var before := specs;
      forall i: nat | i < |members|
        ensures i != index ==> members[i].name != spec.name
        ensures members[i].name in before <==> i < index
        ensures i < index ==> before[members[i].name] == SpecOf(members[i], |ifaceProps| + i + 1)
      {
        assert MemberInstalled(i) && DistinctFrom(members, if i < index then i else index);
      }
      specs := specs[spec.name := spec];
      installed := installed + 1;
    }

    /** custom_class_init_function(): overriding the properties of the interfaces. */
    method CustomClassInit()
      requires WellDeclared() && specs == map[] && ifaceProps == [] && installed == 0
      modifies this
      ensures Valid() && installed == 0
    {
      ghost var seen: seq<Declared> := [];
      for i := 0 to |interfaces|
        invariant Overriding(seen) && seen == Flatten(interfaces[..i]) && installed == 0
      {
        var ifaceProperties := interfaces[i];
        assert seen + ifaceProperties[..0] == seen;
        for p := 0 to |ifaceProperties|
          invariant Overriding(seen + ifaceProperties[..p]) && installed == 0
        {
          assert seen + ifaceProperties[..p + 1] == seen + ifaceProperties[..p] + [ifaceProperties[p]];
          OverrideProperty(ifaceProperties[p], seen + ifaceProperties[..p]);
        }
        assert ifaceProperties[..|ifaceProperties|] == ifaceProperties;
        assert interfaces[..i + 1][..i] == interfaces[..i];
        seen := seen + ifaceProperties;
      }
      assert interfaces[..|interfaces|] == interfaces;
      AllOverridden();
    }

    /** One property of an interface: overridden unless the class has one of that name. */
    method OverrideProperty(prop: Declared, ghost seen: seq<Declared>)
      requires Overriding(seen)
      modifies `specs, `ifaceProps
      ensures Overriding(seen + [prop])
    {
      ghost var done, names := Overridden(seen, inherited), Names(seen) - inherited;
      OverriddenSnoc(seen, prop, inherited);
      NamesSnoc(seen, prop);
      if prop.name in inherited + Names(seen) {
        assert Names(seen + [prop]) - inherited == names && done + [] == done;
      } else {
        assert Names(seen + [prop]) - inherited == names + {prop.name};
        InstalledOneMore(done, names, ifaceProps, specs, prop);
      }
      // g_object_class_find_property()
      if prop.name !in inherited && prop.name !in specs {
        ifaceProps := ifaceProps + [prop.default_];
        specs := specs[prop.name := SpecOf(prop, |ifaceProps|)];
      }
    }

    lemma {:induction false} AllOverridden()
      requires WellDeclared() && installed == 0 && Overriding(Flatten(interfaces))
      ensures Valid()
    {
      forall i | 0 <= i < |members|
        ensures members[i].name !in specs
      {
        assert members[i] in members;
      }
    }

    /** What is in place when the properties seen have been dealt with. */
    ghost predicate Overriding(seen: seq<Declared>)
      reads this
    {
      Installed(Overridden(seen, inherited), Names(seen) - inherited, ifaceProps, specs)
    }
  }

  /** The defaults and the specs are those of the properties done, which have these names. */
  ghost predicate Installed(done: seq<Declared>, names: set<string>, defaults: seq<Value>,
                                  specs: map<string, ParamSpec>) {
    && |defaults| == |done|
    && (forall i :: 0 <= i < |done| ==> defaults[i] == done[i].default_)
    && specs.Keys == names
    && (forall name :: name in specs ==>
          1 <= specs[name].id <= |done| && specs[name].name == name
            && specs[name] == SpecOf(done[specs[name].id - 1], specs[name].id))
  }

  lemma {:induction false} InstalledOneMore(done: seq<Declared>, names: set<string>, defaults: seq<Value>,
                                            specs: map<string, ParamSpec>, p: Declared)
    requires Installed(done, names, defaults, specs) && p.name !in names
    ensures Installed(done + [p], names + {p.name}, defaults + [p.default_], specs[p.name := SpecOf(p, |done| + 1)])
  {
  }

  function SpecOf(p: Declared, id: nat): ParamSpec {
    ParamSpec(p.name, id, p.default_)
  }

  // ---- An object -------------------------------------------------------------------------

  /** Glib::PropertyBase, as far as it is not the same for all objects: param_spec_ and value_. */
  datatype PropertyBase = PropertyBase(spec: ParamSpec, value: Value)

  /** What the class knows of its properties: the defaults of the interface properties, and the members. */
  datatype Layout = Layout(iface: seq<Value>, members: seq<Declared>) {
    function Count(): nat {
      |iface| + |members|
    }

    function DefaultOf(id: nat): Value
      requires 1 <= id <= Count()
    {
      if id <= |iface| then iface[id - 1] else members[id - |iface| - 1].default_
    }

    /** The plain map that the properties of an object amount to: the last value set, or the default. */
    function ValueOf(last: map<nat, Value>, id: nat): Value
      requires 1 <= id <= Count()
    {
      if id in last then last[id] else DefaultOf(id)
    }

    function MemberSpec(i: nat): ParamSpec
      requires i < |members|
    {
      SpecOf(members[i], |iface| + i + 1)
    }
  }

  /** The interface properties of an object, its own copy or the class's values, follow the plain map. */
  ghost predicate IfaceFollows(l: Layout, values: Option<seq<Value>>, last: map<nat, Value>) {
    && (values.Some? ==> |values.value| == |l.iface|)
    && (forall i: nat :: i < |l.iface| ==> IfaceAt(l, values, last, i))
  }

  ghost predicate IfaceAt(l: Layout, values: Option<seq<Value>>, last: map<nat, Value>, i: nat)
    requires i < |l.iface| && (values.Some? ==> |values.value| == |l.iface|)
  {
    (if values.Some? then values.value[i] else l.iface[i]) == l.ValueOf(last, i + 1)
  }

  /** The constructed members follow the plain map. */
  ghost predicate BasesFollow(l: Layout, bases: seq<PropertyBase>, last: map<nat, Value>) {
    && |bases| <= |l.members|
    && (forall i: nat :: i < |bases| ==> BaseAt(l, bases, last, i))
  }

  ghost predicate BaseAt(l: Layout, bases: seq<PropertyBase>, last: map<nat, Value>, i: nat)
    requires i < |bases| <= |l.members|
  {
    bases[i] == PropertyBase(l.MemberSpec(i), l.ValueOf(last, |l.iface| + i + 1))
  }

  /** The values set before follow it, for the members that are still to be constructed. */
  ghost predicate MapFollows(l: Layout, from: nat, valueMap: map<nat, Value>, last: map<nat, Value>) {
    forall i: nat :: from <= i < |l.members| ==> MapAt(l, valueMap, last, i)
  }

  ghost predicate MapAt(l: Layout, valueMap: map<nat, Value>, last: map<nat, Value>, i: nat)
    requires i < |l.members|
  {
    (if i in valueMap then valueMap[i] else l.members[i].default_) == l.ValueOf(last, |l.iface| + i + 1)
  }

  lemma {:induction false} MapSet(l: Layout, from: nat, valueMap: map<nat, Value>, last: map<nat, Value>, index: nat,
                                  value: Value)
    requires MapFollows(l, from, valueMap, last)
    ensures MapFollows(l, from, valueMap[index := value], last[|l.iface| + index + 1 := value])
  {
    var newMap, after := valueMap[index := value], last[|l.iface| + index + 1 := value];
    forall i: nat | from <= i < |l.members|
      ensures MapAt(l, newMap, after, i)
    {
      assert MapAt(l, valueMap, last, i);
    }
  }

  lemma {:induction false} IfaceSet(l: Layout, values: seq<Value>, last: map<nat, Value>, id: nat, value: Value)
    requires IfaceFollows(l, Some(values), last) && 1 <= id <= |l.iface|
    ensures IfaceFollows(l, Some(values[id - 1 := value]), last[id := value])
  {
    var copy, after := Some(values[id - 1 := value]), last[id := value];
    forall i: nat | i < |l.iface|
      ensures IfaceAt(l, copy, after, i)
    {
      assert IfaceAt(l, Some(values), last, i);
    }
  }

  lemma {:induction false} BaseSet(l: Layout, bases: seq<PropertyBase>, last: map<nat, Value>, index: nat, value: Value)
    requires BasesFollow(l, bases, last) && index < |bases|
    ensures BasesFollow(l, bases[index := bases[index].(value := value)], last[|l.iface| + index + 1 := value])
  {
    var newBases, after := bases[index := bases[index].(value := value)], last[|l.iface| + index + 1 := value];
    forall i: nat | i < |bases|
      ensures BaseAt(l, newBases, after, i)
    {
      assert BaseAt(l, bases, last, i);
    }
  }

  lemma {:induction false} CopyFollows(l: Layout, last: map<nat, Value>)
    requires IfaceFollows(l, None, last)
    ensures IfaceFollows(l, Some(l.iface), last)
  {
    forall i: nat | i < |l.iface|
      ensures IfaceAt(l, Some(l.iface), last, i)
    {
      assert IfaceAt(l, None, last, i);
    }
  }

  /** A set of one kind of property leaves the other kinds alone. */
  lemma {:induction false} IfaceKept(l: Layout, values: Option<seq<Value>>, last: map<nat, Value>, id: nat,
                                     value: Value)
    requires IfaceFollows(l, values, last) && id > |l.iface|
    ensures IfaceFollows(l, values, last[id := value])
  {
    var after := last[id := value];
    forall i: nat | i < |l.iface|
      ensures IfaceAt(l, values, after, i)
    {
      assert IfaceAt(l, values, last, i);
    }
  }

  lemma {:induction false} BasesKept(l: Layout, bases: seq<PropertyBase>, last: map<nat, Value>, id: nat, value: Value)
    requires BasesFollow(l, bases, last) && !(|l.iface| < id <= |l.iface| + |bases|)
    ensures BasesFollow(l, bases, last[id := value])
  {
    var after := last[id := value];
    forall i: nat | i < |bases|
      ensures BaseAt(l, bases, after, i)
    {
      assert BaseAt(l, bases, last, i);
    }
  }

  lemma {:induction false} MapKept(l: Layout, from: nat, valueMap: map<nat, Value>, last: map<nat, Value>, id: nat,
                                   value: Value)
    requires MapFollows(l, from, valueMap, last) && id <= |l.iface| + from
    ensures MapFollows(l, from, valueMap, last[id := value])
  {
    var after := last[id := value];
    forall i: nat | from <= i < |l.members|
      ensures MapAt(l, valueMap, after, i)
    {
      assert MapAt(l, valueMap, last, i);
    }
  }

  lemma {:induction false} BaseConstructed(l: Layout, bases: seq<PropertyBase>, valueMap: map<nat, Value>,
                                           last: map<nat, Value>)
    requires BasesFollow(l, bases, last) && |bases| < |l.members| && MapFollows(l, |bases|, valueMap, last)
    ensures var i := |bases|;
            var value := if i in valueMap then valueMap[i] else l.members[i].default_;
            && BasesFollow(l, bases + [PropertyBase(l.MemberSpec(i), value)], last)
            && MapFollows(l, i + 1, valueMap, last)
  {
    var n := |bases|;
    assert MapAt(l, valueMap, last, n);
    var more := bases + [PropertyBase(l.MemberSpec(n), if n in valueMap then valueMap[n] else l.members[n].default_)];
    forall i: nat | i < |more|
      ensures BaseAt(l, more, last, i)
    {
      assert i < n ==> BaseAt(l, bases, last, i);
    }
  }

  /** A GObject of a custom type, and the Property members of its C++ wrapper. */
  class CustomObject {
    const klass: CustomClass
    /** The copy of the interface property values, if there is one. */
    var ifaceValues: Option<seq<Value>>
    /** custom_properties_type: prop_base_vector, and prop_value_map by index. */
    var bases: seq<PropertyBase>
    var valueMap: map<nat, Value>
    /** The object has a C++ wrapper. */
    var wrapped: bool
    /** The last value set, by property ID. */
    ghost var last: map<nat, Value>

    ghost function ClassLayout(): Layout
      reads klass
    {
      Layout(klass.ifaceProps, klass.members)
    }

    /** The value of a property, in terms of the sets made so far. */
    ghost function ValueOf(id: nat): Value
      reads this, klass
      requires 1 <= id <= ClassLayout().Count()
    {
      ClassLayout().ValueOf(last, id)
    }

    /** A property can be accessed, unless its wrapper is still to be constructed. */
    ghost predicate Accessible(id: nat)
      reads this, klass
    {
      var n := |klass.ifaceProps|;
      1 <= id <= ClassLayout().Count() && (id <= n || !wrapped || id - n - 1 < |bases|)
    }

    ghost predicate Valid()
      reads this, klass
    {
      && klass.Valid()
      && |bases| <= klass.installed
      && (!wrapped ==> bases == [])
      && (forall i :: i in valueMap ==> i < klass.installed)
      && Follows()
    }

    ghost predicate Follows()
      reads this, klass
    {
      && IfaceFollows(ClassLayout(), ifaceValues, last)
      && BasesFollow(ClassLayout(), bases, last)
      && MapFollows(ClassLayout(), |bases|, valueMap, last)
    }

    constructor (klass: CustomClass)
      requires klass.Valid()
      ensures Valid() && this.klass == klass && !wrapped && last == map[]
      ensures forall id: nat :: 1 <= id <= |klass.Overrides()| + |klass.members| ==>
                && Accessible(id)
                && ValueOf(id) == (if id <= |klass.Overrides()| then klass.Overrides()[id - 1]
                                   else klass.members[id - |klass.Overrides()| - 1]).default_
    {
      this.klass := klass;
      ifaceValues, bases, valueMap, wrapped, last := None, [], map[], false, map[];
    }

    /** GObject passes the spec that the class has installed under the ID. */
    ghost predicate IsSpec(id: nat, spec: ParamSpec)
      reads klass
    {
      spec.name in klass.specs && klass.specs[spec.name] == spec && spec.id == id
    }

    /** glibmm_custom_get_property_callback() */
    method GetProperty(id: nat, spec: ParamSpec) returns (value: Option<Value>)
      requires Valid() && (id != 0 ==> IsSpec(id, spec))
      ensures value == if Accessible(id) then Some(ValueOf(id)) else None
    {
      if id == 0 { return None; }
      var n := |klass.ifaceProps|;
      if id <= n {
        assert IfaceAt(ClassLayout(), ifaceValues, last, id - 1);
        return Some(if ifaceValues.Some? then ifaceValues.value[id - 1] else klass.ifaceProps[id - 1]);
      }
      var index := id - n - 1;
      if wrapped {
        assert index < |bases| ==> BaseAt(ClassLayout(), bases, last, index);
        return if index < |bases| && bases[index].spec == spec then Some(bases[index].value) else None;
      }
      assert MapAt(ClassLayout(), valueMap, last, index);
      value := Some(if index in valueMap then valueMap[index] else spec.default_);
    }

    /** glibmm_custom_set_property_callback() */
    method SetProperty(id: nat, spec: ParamSpec, value: Value)
      requires Valid() && (id != 0 ==> IsSpec(id, spec))
      modifies `ifaceValues, `bases, `valueMap, `last
      ensures Valid() && |bases| == |old(bases)|
      ensures last == if old(Accessible(id)) then old(last)[id := value] else old(last)
    {
      if id == 0 { return; }
      if id <= |klass.ifaceProps| {
        SetIfaceProperty(id, value);
      } else {
        assert klass.MemberInstalled(id - |klass.ifaceProps| - 1);
        SetMember(id - |klass.ifaceProps| - 1, spec, value);
      }
    }

    /** The object gets its own copy of the class's values before the first one is changed. */
    method SetIfaceProperty(id: nat, value: Value)
      requires Follows() && 1 <= id <= |klass.ifaceProps|
      modifies `ifaceValues, `last
      ensures Follows() && last == old(last)[id := value]
    {
      if ifaceValues.None? {
        CopyValues();
        CopyFollows(ClassLayout(), last);
      }
      IfaceSet(ClassLayout(), ifaceValues.value, last, id, value);
      BasesKept(ClassLayout(), bases, last, id, value);
      MapKept(ClassLayout(), |bases|, valueMap, last, id, value);
      ifaceValues := Some(ifaceValues.value[id - 1 := value]);
      last := last[id := value];
    }

    method CopyValues()
      requires ifaceValues.None?
      modifies `ifaceValues
      ensures ifaceValues == Some(klass.ifaceProps)
    {
      var copy: seq<Value> := [];
      for p := 0 to |klass.ifaceProps|
        invariant copy == klass.ifaceProps[..p]
      {
        copy := copy + [klass.ifaceProps[p]];
      }
      assert klass.ifaceProps[..|klass.ifaceProps|] == klass.ifaceProps;
      ifaceValues := Some(copy);
    }

    /** A property of the class itself: in the wrapper's Property, or in the map until there is one. */
    method SetMember(index: nat, spec: ParamSpec, value: Value)
      requires Follows() && (!wrapped ==> bases == [])
      requires index < |klass.members| && spec == ClassLayout().MemberSpec(index)
      modifies `bases, `valueMap, `last
      ensures Follows() && |bases| == |old(bases)|
      ensures valueMap.Keys <= old(valueMap.Keys) + {index}
      ensures last
          == if wrapped && index >= |bases| then old(last) else old(last)[|klass.ifaceProps| + index + 1 := value]
    {
      ghost var id := |klass.ifaceProps| + index + 1;
      if wrapped {
        assert index < |bases| ==> BaseAt(ClassLayout(), bases, last, index);
        if index < |bases| && bases[index].spec == spec {
          SetValue(index, value);
        }
      } else {
        MapSet(ClassLayout(), 0, valueMap, last, index, value);
        IfaceKept(ClassLayout(), ifaceValues, last, id, value);
        BasesKept(ClassLayout(), bases, last, id, value);
        valueMap := valueMap[index := value];
        last := last[id := value];
      }
    }

    /** The C++ wrapper is created. */
    method Wrap()
      requires Valid() && !wrapped
      modifies `wrapped
      ensures Valid() && wrapped
    {
      wrapped := true;
    }

    /**
      * The constructor of Property<T>, with lookup_property() and install_property(): reading
      * any property gives what it gave before.
      */
    method ConstructProperty(declared: Declared)
      requires Valid() && wrapped && |bases| < |klass.members| && declared == klass.members[|bases|]
      modifies `bases, klass`specs, klass`installed
      ensures Valid() && |bases| == |old(bases)| + 1 && klass.installed >= old(klass.installed)
      ensures bases[|bases| - 1].spec.id == |klass.ifaceProps| + |bases|
      ensures forall name :: name in old(klass.specs) ==>
                name in klass.specs && klass.specs[name] == old(klass.specs[name])
    {
      BaseConstructed(ClassLayout(), bases, valueMap, last);
      assert klass.MemberInstalled(|bases|);
      var value := declared.default_;
      var pos := |bases|;
      if declared.name in klass.specs {
        // lookup_property()
        if pos in valueMap {
          value := valueMap[pos];
        }
      } else {
        // install_property(), with an ID made from the position in prop_base_vector
        klass.Install(pos);
      }
      bases := bases + [PropertyBase(klass.specs[declared.name], value)];
    }

    /** Property<T>::set_value() */
    method SetValue(index: nat, value: Value)
      requires Follows() && index < |bases|
      modifies `bases, `last
      ensures Follows() && |bases| == |old(bases)| && last == old(last)[|klass.ifaceProps| + index + 1 := value]
    {
      BaseSet(ClassLayout(), bases, last, index, value);
      IfaceKept(ClassLayout(), ifaceValues, last, |klass.ifaceProps| + index + 1, value);
      MapKept(ClassLayout(), |bases|, valueMap, last, |klass.ifaceProps| + index + 1, value);
      bases := bases[index := bases[index].(value := value)];
      last := last[|klass.ifaceProps| + index + 1 := value];
    }

    /** Property<T>::get_value() */
    method GetValue(index: nat) returns (value: Value)
      requires Valid() && index < |bases|
      ensures value == ValueOf(|klass.ifaceProps| + index + 1)
    {
      assert BaseAt(ClassLayout(), bases, last, index);
      value := bases[index].value;
    }
  }

  /** Instances of a class agree on the specs, and so on the IDs, of their properties. */
  lemma {:induction false} SameIds(o: CustomObject, p: CustomObject, i: nat)
    requires o.klass == p.klass && o.Valid() && p.Valid() && i < |o.bases| && i < |p.bases|
    ensures o.bases[i].spec == p.bases[i].spec
    ensures o.bases[i].spec.id == |o.klass.ifaceProps| + i + 1
    ensures o.IsSpec(o.bases[i].spec.id, o.bases[i].spec)
  {
    assert BaseAt(o.ClassLayout(), o.bases, o.last, i) && BaseAt(p.ClassLayout(), p.bases, p.last, i);
    assert o.klass.MemberInstalled(i);
  }

  /** A value set before there is a wrapper is the value of the property once that is constructed. */
  method SetWrapConstruct(o: CustomObject, value: Value)
    requires o.Valid() && !o.wrapped && o.klass.installed > 0
    modifies o, o.klass
    ensures o.Valid() && o.wrapped && |o.bases| == 1
    ensures o.bases[0] == PropertyBase(o.ClassLayout().MemberSpec(0), value)
  {
    assert o.klass.MemberInstalled(0);
    var declared := o.klass.members[0];
    o.SetProperty(|o.klass.ifaceProps| + 1, o.klass.specs[declared.name], value);
    o.Wrap();
    o.ConstructProperty(declared);
    assert BaseAt(o.ClassLayout(), o.bases, o.last, 0);
  }

  /** Setting a property of one object sets it there, and changes no property of another one of any class. */
  method SetIsLocal(o: CustomObject, other: CustomObject, id: nat, spec: ParamSpec, value: Value)
    requires o != other && o.Valid() && other.Valid() && (id != 0 ==> o.IsSpec(id, spec))
    modifies o
    ensures o.Valid() && other.Valid()
    ensures forall id2: nat :: other.Accessible(id2) == old(other.Accessible(id2))
    ensures forall id2: nat :: other.Accessible(id2) ==> other.ValueOf(id2) == old(other.ValueOf(id2))
    ensures forall id2: nat :: o.Accessible(id2) == old(o.Accessible(id2))
    ensures forall id2: nat :: o.Accessible(id2) ==> o.ValueOf(id2) == if id2 == id then value else old(o.ValueOf(id2))
  {
    o.SetProperty(id, spec, value);
  }

  /** Constructing a property, for which it may be installed in the class, changes no value in any object. */
  method ConstructIsLocal(o: CustomObject, other: CustomObject)
    requires o != other && o.klass == other.klass && o.Valid() && other.Valid()
    requires o.wrapped && |o.bases| < |o.klass.members|
    modifies o, o.klass
    ensures o.Valid() && other.Valid() && |o.bases| == |old(o.bases)| + 1
    ensures forall id: nat :: other.Accessible(id) == old(other.Accessible(id))
    ensures forall id: nat :: other.Accessible(id) ==> other.ValueOf(id) == old(other.ValueOf(id))
    ensures forall id: nat :: old(o.Accessible(id)) ==> o.Accessible(id) && o.ValueOf(id) == old(o.ValueOf(id))
    ensures o.Accessible(|o.klass.ifaceProps| + |o.bases|)
  {
    o.ConstructProperty(o.klass.members[|o.bases|]);
  }
}

/**
 The order of classes in a written module (createGlobalProperties and
 createGlobalType in src/compiler/ecModuleWrite.c), read off the section tree:
 which classes are there, each once, and behind the classes they refer to.
 */
module ClassOrder {
  import opened AttributeBits
  import opened Bytes
  import opened ConstantPool
  import opened GlobalRef
  import opened ModuleFormat
  import opened ObjectTree
  import opened ModuleWriter
  import TypeOrder

  /** The class headers among the sections of a module, in order. */
  function Classes(xs: seq<Section>): seq<ClassHeader> {
    if xs == [] then []
    else
      var last := xs[|xs| - 1];
      Classes(xs[..|xs| - 1]) + if last.Class? then [last.class_] else []
  }

  /** A type that is still a property of the global object, and so has a section. */
  predicate HasSection(globals: seq<Prop>, t: int) {
    0 <= t < |globals| && !globals[t].Hole() && globals[t].value.value.TypeObj?
  }

  /** The types among the slots emitted. */
  function TypesAmong(globals: seq<Prop>, order: seq<int>): seq<int> {
    if order == [] then []
    else
      var last := order[|order| - 1];
      TypesAmong(globals, order[..|order| - 1]) + if HasSection(globals, last) then [last] else []
  }

  lemma {:induction false} ClassesConcat(xs: seq<Section>, ys: seq<Section>)
    ensures Classes(xs + ys) == Classes(xs) + Classes(ys)
    decreases |ys|
  {
    if ys == [] {
      assert xs + ys == xs;
    } else {
      var last := |ys| - 1;
      assert (xs + ys)[..|xs + ys| - 1] == xs + ys[..last];
      ClassesConcat(xs, ys[..last]);
    }
  }

  lemma {:induction false} NoClasses(xs: seq<Section>)
    requires forall i :: 0 <= i < |xs| ==> !xs[i].Class?
    ensures Classes(xs) == []
    decreases |xs|
  {
    if xs != [] {
      NoClasses(xs[..|xs| - 1]);
    }
  }

  lemma ClassesOfSlot(env: Env, globals: seq<Prop>, t: int)
    requires 0 <= t < |globals| < TWO_31 && PropOk(globals[t], true)
    ensures Classes(SlotSections(env, globals[t], t, true))
         == if HasSection(globals, t) then [ClassHeaderOf(env, globals[t], t)] else []
  {
    hide PropOk, PropsOk, ClassHeaderOf, ClassBody, SlotFunSections, PropsSections, PropHeaderOf;
    var xs := SlotSections(env, globals[t], t, true);
    if HasSection(globals, t) {
      var doc := DocOf(globals[t], "class");
      var x := Class(ClassHeaderOf(env, globals[t], t), ClassBody(env, globals[t], t));
      ClassesConcat(doc, [x]);
      NoClasses(doc);
      assert [x][..0] == [];
    } else {
      OtherSlot(env, globals[t], t);
      NoClasses(xs);
    }
  }

  lemma OtherSlot(env: Env, p: Prop, slot: int32)
    requires PropOk(p, true) && (p.Hole() || !p.value.value.TypeObj?)
    ensures forall x :: x in SlotSections(env, p, slot, true) ==> !x.Class?
  {
    hide PropsOk, FunOk, SlotFunSections, PropsSections, PropHeaderOf, HasBit;
    if !p.Hole() && p.value.value.FunObj? {
      FunctionSlot(env, p, slot, p.value.value.fun, false);
      if HasBit(p.traits.value.attributes, TRAIT_SETTER) {
        FunctionSlot(env, p, slot, p.value.value.setter.value, true);
      }
    }
  }

  lemma FunctionSlot(env: Env, p: Prop, slot: int32, f: Fun, isSetter: bool)
    requires FunOk(f) && p.traits.Some?
    ensures forall x :: x in SlotFunSections(env, p, slot, f, isSetter, true) ==> !x.Class?
  {
    hide FunOk, FunHeaderOf, CodeOf, PropsSections, FunAttributes, SlotFunAttributes;
  }

  /** Header k is that of type k. */
  ghost predicate HeadersOf(env: Env, globals: seq<Prop>, cs: seq<ClassHeader>, ts: seq<int>) {
    && |cs| == |ts| && |globals| < TWO_31
    && forall k :: 0 <= k < |ts| ==>
         HasSection(globals, ts[k]) && PropOk(globals[ts[k]], true)
         && cs[k] == ClassHeaderOf(env, globals[ts[k]], ts[k])
  }

  lemma {:induction false} ClassesInOrder(env: Env, globals: seq<Prop>, order: seq<int>)
    requires |globals| < TWO_31 && forall i :: 0 <= i < |globals| ==> PropOk(globals[i], true)
    requires forall k :: 0 <= k < |order| ==> 0 <= order[k] < |globals|
    ensures HeadersOf(env, globals, Classes(GlobalSections(env, globals, order)), TypesAmong(globals, order))
    decreases |order|
  {
    hide PropOk, ClassHeaderOf, SlotSections, Classes, HasSection;
    if order == [] {
      NoClasses([]);
    } else {
      var last := |order| - 1;
      ClassesInOrder(env, globals, order[..last]);
      ClassesOfSlot(env, globals, order[last]);
      ClassesConcat(GlobalSections(env, globals, order[..last]), SlotSections(env, globals[order[last]], order[last], true));
    }
  }

  lemma {:induction false} NoClassesInDependencies(env: Env, o: Options, name: CString, ds: seq<Used>)
    ensures Classes(DependenciesOf(env, o, name, ds)) == []
    decreases |ds|
  {
    if ds != [] {
      var last := |ds| - 1;
      NoClassesInDependencies(env, o, name, ds[..last]);
      var more := if Skipped(o, name, ds[last]) then [] else [DependencyOf(env, ds[last])];
      NoClasses(more);
      ClassesConcat(DependenciesOf(env, o, name, ds[..last]), more);
    }
  }

  /** The classes of a module are the types emitted, in that order. */
  lemma ModuleClasses(env: Env, m: Source, order: seq<int>)
    requires SourceOk(env, m) && forall k :: 0 <= k < |order| ==> 0 <= order[k] < |m.globals|
    ensures HeadersOf(env, m.globals, Classes(SectionsOf(env, m, order)), TypesAmong(m.globals, order))
  {
    hide HeadersOf, DependenciesOf, InitializerOf, GlobalSections, PropOk, DescribesSlot, FunOk, Classes;
    var deps, init := DependenciesOf(env, m.options, m.name, m.used), InitializerOf(env, m.initializer);
    var rest := GlobalSections(env, m.globals, order);
    NoClassesInDependencies(env, m.options, m.name, m.used);
    InitializerNoClass(env, m.initializer);
    ClassesConcat(deps, init);
    ClassesConcat(deps + init, rest);
    ClassesInOrder(env, m.globals, order);
    assert [] + [] + Classes(rest) == Classes(rest);
  }

  lemma InitializerNoClass(env: Env, f: Option<Fun>)
    requires f.Some? ==> FunOk(f.value)
    ensures Classes(InitializerOf(env, f)) == []
  {
    hide FunOk, PropsSections;
    NoClasses(InitializerOf(env, f));
  }

  lemma {:induction false} TypesAmongIff(globals: seq<Prop>, order: seq<int>, t: int)
    ensures t in TypesAmong(globals, order) <==> t in order && HasSection(globals, t)
    decreases |order|
  {
    hide HasSection;
    if order != [] {
      var last := |order| - 1;
      TypesAmongIff(globals, order[..last], t);
      assert order == order[..last] + [order[last]];
    }
  }

  /** Type k was emitted at some place, and the types before it are those emitted before. */
  lemma {:induction false} TypeAt(globals: seq<Prop>, order: seq<int>, k: nat) returns (i: nat)
    requires k < |TypesAmong(globals, order)|
    ensures i < |order| && order[i] == TypesAmong(globals, order)[k]
    ensures TypesAmong(globals, order)[..k] == TypesAmong(globals, order[..i])
    decreases |order|
  {
    hide HasSection;
    var last := |order| - 1;
    var front := TypesAmong(globals, order[..last]);
    if k < |front| {
      i := TypeAt(globals, order[..last], k);
      assert order[..last][..i] == order[..i];
      assert TypesAmong(globals, order)[..k] == front[..k];
    } else {
      i := last;
      assert TypesAmong(globals, order)[..k] == front;
    }
  }

  // ------------------------------------------------------------------ References

  /** A class header refers to a name as that of its base type or of an interface. */
  ghost predicate Refers(env: Env, c: ClassHeader, q: Name) {
    || Resolve(env.global, c.base) == Some(q)
    || exists i :: 0 <= i < |c.interfaces| && Resolve(env.global, c.interfaces[i]) == Some(q)
  }

  lemma {:induction false} InterfaceAt(env: Env, xs: seq<Interface>, i: nat)
    requires i < |xs|
    ensures InterfacesOf(env, xs)[i] == RefOf(env.global, xs[i].qname)
    ensures Lookup(env.global, xs[i].qname) >= 0 ==> Lookup(env.global, xs[i].qname) in InterfaceSlots(env, xs)
    decreases |xs|
  {
    hide Lookup, RefOf;
    if i > 0 {
      InterfaceAt(env, xs[1..], i - 1);
    }
  }

  /** What a class section refers to is what the search saw to be needed. */
  lemma RefersToNeeded(env: Env, m: Source, t: int, q: Name)
    requires SourceOk(env, m) && HasSection(m.globals, t) && m.inheritance.Owned(t)
    requires Refers(env, ClassHeaderOf(env, m.globals[t], t), q)
    requires m.inheritance.Owned(Lookup(env.global, q))
    ensures m.inheritance.Needs(t, Lookup(env.global, q))
  {
    hide Lookup, RefOf, Resolve, PropOk, FunOk, InterfaceSlots, InterfacesOf, ClassAttributes;
    var c, info := ClassHeaderOf(env, m.globals[t], t), m.globals[t].value.value.info;
    assert DescribesSlot(env, m.inheritance, m.globals, t);
    if info.base.Some? && Resolve(env.global, c.base) == Some(q) {
      ResolveRef(env.global, info.base.value);
    } else if Resolve(env.global, c.base) == Some(q) {
      NoRefResolves(env.global);
    } else {
      var i :| 0 <= i < |c.interfaces| && Resolve(env.global, c.interfaces[i]) == Some(q);
      InterfaceAt(env, info.implements, i);
      ResolveRef(env.global, info.implements[i].qname);
    }
  }

  lemma NoRefResolves(global: seq<Name>)
    ensures Resolve(global, NoRef) == None
  {
  }

  lemma WantedOwned(w: TypeOrder.World, props: seq<int>, t: int)
    requires TypeOrder.Wanted(w, props, t)
    ensures w.Owned(t)
  {
    var p :| p in props && w.Owned(p) && w.Reaches(p, t);
    var path :| w.IsChain(path) && path[0] == p && path[|path| - 1] == t;
    if |path| > 1 {
      assert w.Needs(path[|path| - 2], path[|path| - 1]);
    }
  }

  /** A module that was written in the order of the search. */
  ghost predicate WrittenInOrder(env: Env, m: Source, order: seq<int>) {
    && SourceOk(env, m) && TypeOrder.Complete(m.inheritance, m.listed, order)
    && forall k :: 0 <= k < |order| ==> 0 <= order[k] < |m.globals|
  }

  /** The classes of a module written in this order. */
  ghost function ClassesOf(env: Env, m: Source, order: seq<int>): seq<ClassHeader>
    requires WrittenInOrder(env, m, order)
  {
    Classes(SectionsOf(env, m, order))
  }

  /** Class k of the module is type t. */
  ghost predicate IsClass(env: Env, m: Source, order: seq<int>, k: nat, t: int)
    requires WrittenInOrder(env, m, order)
  {
    && k < |ClassesOf(env, m, order)| && HasSection(m.globals, t) && m.inheritance.Owned(t)
    && m.globals[t].qname == ClassesOf(env, m, order)[k].qname == env.global[t]
    && ClassesOf(env, m, order)[k] == ClassHeaderOf(env, m.globals[t], t)
  }

  /** Class k was emitted at place i, and the classes before it are those emitted before. */
  ghost predicate IsPlace(m: Source, order: seq<int>, k: nat, i: nat) {
    var ts := TypesAmong(m.globals, order);
    i < |order| && k < |ts| && order[i] == ts[k] && ts[..k] == TypesAmong(m.globals, order[..i])
  }

  lemma FoundUnderName(env: Env, m: Source, t: int)
    requires SourceOk(env, m) && HasSection(m.globals, t)
    ensures Lookup(env.global, env.global[t]) == t && m.globals[t].qname == env.global[t]
    ensures m.inheritance.IsType(t)
  {
    hide Lookup, PropOk, FunOk, SameParents;
    assert DescribesSlot(env, m.inheritance, m.globals, t);
  }

  lemma EmittedOwned(env: Env, m: Source, order: seq<int>, i: nat)
    requires WrittenInOrder(env, m, order) && i < |order| && HasSection(m.globals, order[i])
    ensures m.inheritance.Owned(order[i])
  {
    hide TypeOrder.Wanted, TypeOrder.Ordered, SourceOk;
    FoundUnderName(env, m, order[i]);
    WantedOwned(m.inheritance, m.listed, order[i]);
  }

  lemma ClassPlace(env: Env, m: Source, order: seq<int>, k: nat) returns (i: nat)
    requires WrittenInOrder(env, m, order) && k < |ClassesOf(env, m, order)|
    ensures IsPlace(m, order, k, i) && IsClass(env, m, order, k, order[i])
  {
    hide SectionsOf, Classes, TypesAmong, PropOk, FunOk, Lookup, TypeOrder.Complete, Describes;
    ModuleClasses(env, m, order);
    i := TypeAt(m.globals, order, k);
    FoundUnderName(env, m, order[i]);
    EmittedOwned(env, m, order, i);
  }

  /** Every type emitted before place i is among the first k classes. */
  lemma EarlierClass(env: Env, m: Source, order: seq<int>, k: nat, i: nat, d: int)
    requires WrittenInOrder(env, m, order) && i <= |order| && k <= |TypesAmong(m.globals, order)|
    requires TypesAmong(m.globals, order)[..k] == TypesAmong(m.globals, order[..i])
    requires d in order[..i] && HasSection(m.globals, d)
    ensures exists j :: 0 <= j < k <= |ClassesOf(env, m, order)|
                        && ClassesOf(env, m, order)[j].qname == m.globals[d].qname
  {
    hide SectionsOf, Classes, TypesAmong, SourceOk, TypeOrder.Complete, HasSection, HeadersOf;
    ModuleClasses(env, m, order);
    TypesAmongIff(m.globals, order[..i], d);
    var ts := TypesAmong(m.globals, order);
    var j :| 0 <= j < k && ts[..k][j] == d;
    assert ts[j] == d;
    HeaderNamed(env, m.globals, ClassesOf(env, m, order), ts, j);
  }

  lemma HeaderNamed(env: Env, globals: seq<Prop>, cs: seq<ClassHeader>, ts: seq<int>, j: nat)
    requires HeadersOf(env, globals, cs, ts) && j < |ts|
    ensures |cs| == |ts| && HasSection(globals, ts[j]) && cs[j].qname == globals[ts[j]].qname
  {
    hide PropOk;
  }

  /**
   A class section stands behind the sections of the classes it refers to, as
   far as the module has them, unless they inherit from it in turn.
   */
  lemma ParentsComeFirst(env: Env, m: Source, order: seq<int>, k: nat, q: Name)
    requires WrittenInOrder(env, m, order) && k < |ClassesOf(env, m, order)|
    requires Refers(env, ClassesOf(env, m, order)[k], q)
    requires m.inheritance.Owned(Lookup(env.global, q)) && HasSection(m.globals, Lookup(env.global, q))
    ensures var cs := ClassesOf(env, m, order);
      || (exists j :: 0 <= j < k && cs[j].qname == q)
      || m.inheritance.Reaches(Lookup(env.global, q), Lookup(env.global, cs[k].qname))
  {
    hide ClassesOf, TypesAmong, Refers, Lookup, SourceOk, TypeOrder.Wanted, HasSection;
    var d := Lookup(env.global, q);
    var i := ClassPlace(env, m, order, k);
    var t := order[i];
    FoundUnderName(env, m, t);
    FoundUnderName(env, m, d);
    LookupIs(env.global, q);
    RefersToNeeded(env, m, t, q);
    if !m.inheritance.Reaches(d, t) {
      EarlierClass(env, m, order, k, i, d);
    }
  }

  lemma LookupIs(global: seq<Name>, q: Name)
    requires Lookup(global, q) >= 0
    ensures global[Lookup(global, q)] == q
  {
  }

  /** Without circular inheritance every class section stands behind those it refers to. */
  lemma ParentsFirst(env: Env, m: Source, order: seq<int>, k: nat, q: Name)
    requires WrittenInOrder(env, m, order) && k < |ClassesOf(env, m, order)|
    requires Refers(env, ClassesOf(env, m, order)[k], q)
    requires m.inheritance.Owned(Lookup(env.global, q)) && HasSection(m.globals, Lookup(env.global, q))
    requires forall x, d :: m.inheritance.Needs(x, d) ==> !m.inheritance.Reaches(d, x)
    ensures exists j :: 0 <= j < k && ClassesOf(env, m, order)[j].qname == q
  {
    hide ClassesOf, TypesAmong, Refers, SourceOk, TypeOrder.Complete, Lookup, HasSection;
    ParentsComeFirst(env, m, order, k, q);
    var i := ClassPlace(env, m, order, k);
    FoundUnderName(env, m, order[i]);
    RefersToNeeded(env, m, order[i], q);
  }

  /** No class is written twice. */
  lemma ClassesOnce(env: Env, m: Source, order: seq<int>, j: nat, k: nat)
    requires WrittenInOrder(env, m, order) && j < k < |ClassesOf(env, m, order)|
    ensures ClassesOf(env, m, order)[j].qname != ClassesOf(env, m, order)[k].qname
  {
    hide ClassesOf, SourceOk, TypesAmong, Lookup, HasSection, TypeOrder.Wanted, TypeOrder.Ordered;
    var h := ClassPlace(env, m, order, j);
    var i := ClassPlace(env, m, order, k);
    FoundUnderName(env, m, order[h]);
    FoundUnderName(env, m, order[i]);
    assert order[h] == order[i] ==> h == i;
  }

  /** A class is written exactly if a listed type of the module is it, or inherits from it. */
  lemma ClassWrittenIff(env: Env, m: Source, order: seq<int>, t: int)
    requires WrittenInOrder(env, m, order) && HasSection(m.globals, t)
    ensures (exists k :: 0 <= k < |ClassesOf(env, m, order)|
                && ClassesOf(env, m, order)[k].qname == m.globals[t].qname)
       <==> TypeOrder.Wanted(m.inheritance, m.listed, t)
  {
    hide ClassesOf, SourceOk, TypesAmong, Lookup, TypeOrder.Wanted, TypeOrder.Ordered;
    FoundUnderName(env, m, t);
    if t in order {
      var ts := TypesAmong(m.globals, order);
      assert order[..|order|] == order && ts[..|ts|] == ts;
      EarlierClass(env, m, order, |ts|, |order|, t);
    }
    var q := m.globals[t].qname;
    forall k: nat | k < |ClassesOf(env, m, order)| && ClassesOf(env, m, order)[k].qname == q
      ensures t in order
    {
      var i := ClassPlace(env, m, order, k);
      FoundUnderName(env, m, order[i]);
    }
  }
}

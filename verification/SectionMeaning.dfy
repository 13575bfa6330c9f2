/**
 What the sections of a module say, read without knowing how they were made:
 which section stands for which slot of which object, in which order, and what
 its fields tell (createSection and the section writers it calls in
 src/compiler/ecModuleWrite.c). What the writer makes of objects says them.
 */
module SectionMeaning {
  import opened AttributeBits
  import opened Bytes
  import opened ConstantPool
  import opened GlobalRef
  import opened ModuleFormat
  import opened ObjectTree

  // ------------------------------------------------------------------ One section

  /** A reference stands for this type, or for none. */
  predicate Names(env: Env, ref: Ref, q: Option<Name>) {
    Resolve(env.global, ref) == q
  }

  predicate SaysHandler(env: Env, h: Handler, x: Ex) {
    && h.flags == x.flags && h.tryStart == x.tryStart && h.tryEnd == x.tryEnd
    && h.handlerStart == x.handlerStart && h.handlerEnd == x.handlerEnd
    && h.numBlocks == x.numBlocks && h.numStack == x.numStack
    && Names(env, h.catchType, x.catchType)
  }

  /** The body of a function: its byte code, one record a handler, and the debug records. */
  predicate SaysBody(env: Env, count: int, code: Code, b: Body) {
    match b
    case Native => code == NoCode && count == 0
    case ByteCode(bytes, handlers, debug) =>
      && code.Code? && code.bytes == bytes && code.debug == debug
      && count == |handlers| == |code.handlers|
      && forall i :: 0 <= i < |handlers| ==> SaysHandler(env, code.handlers[i], handlers[i])
  }

  /** Where a slot number is written: not for globals, unless they are bound to slots. */
  predicate SaysSlot(env: Env, written: int, slot: int, atGlobal: bool) {
    written == if atGlobal && !env.bind then -1 else slot
  }

  /** The attribute word of a function is that of its slot but for these bits. */
  ghost predicate SaysFunBits(written: int32, own: int32, f: FunInfo, isSetter: bool) {
    forall k: nat :: HasBit(written, k) ==
      if k == TRAIT_GETTER then HasBit(own, k) && !isSetter
      else if k == TRAIT_SETTER then HasBit(own, k) && isSetter
      else HasBit(own, k) || FunSays(f, k)
  }

  /** A function section: header, body, and the members of its activation in slot order. */
  ghost predicate SaysFun(env: Env, x: Section, q: Name, f: Fun)
    decreases f, 0
  {
    && x.Function? && x.fun.qname == q
    && x.fun.strict == (if f.info.strict then 1 else 0)
    && x.fun.numArgs == f.info.numArgs && x.fun.numDefault == f.info.numDefault
    && x.fun.numProp == |f.activation|
    && Names(env, x.fun.resultType, f.info.resultType)
    && SaysBody(env, x.fun.numHandlers, x.code, f.info.body)
    && SaysMembers(env, x.body, f.activation, 0)
  }

  /** The last of some sections, behind documentation if a text is recorded under the tag. */
  predicate Documented(xs: seq<Section>, docs: map<string, CString>, tag: string) {
    if tag in docs then |xs| == 2 && xs[0] == Doc(docs[tag]) else |xs| == 1
  }

  ghost predicate SaysSlotFun(env: Env, xs: seq<Section>, p: Prop, slot: int, f: Fun, isSetter: bool, atGlobal: bool)
    decreases f, 1
  {
    && Documented(xs, p.docs, "fun") && p.traits.Some?
    && SaysFun(env, xs[|xs| - 1], p.qname, f)
    && SaysSlot(env, xs[|xs| - 1].fun.slot, slot, atGlobal)
    && SaysFunBits(xs[|xs| - 1].fun.attributes, p.traits.value.attributes, f.info, isSetter)
  }

  /** A property whose type is Namespace is marked as one that has a value. */
  ghost predicate SaysValueBits(written: int32, t: Trait) {
    forall k: nat :: HasBit(written, k) ==
      (HasBit(t.attributes, k) || (k == PROP_HAS_VALUE && t.ptype.Some? && t.isNamespace))
  }

  ghost predicate SaysValue(env: Env, x: Section, p: Prop, t: Trait, slot: int, uri: Option<CString>, atGlobal: bool) {
    && x.Property? && x.prop.qname == p.qname && Names(env, x.prop.ptype, t.ptype)
    && SaysSlot(env, x.prop.slot, slot, atGlobal)
    && SaysValueBits(x.prop.attributes, t) && (x.prop.value.Some? <==> HasBit(x.prop.attributes, PROP_HAS_VALUE))
    && (x.prop.value.Some? ==> x.prop.value.value == if uri.Some? then uri.value else [])
  }

  /** The attribute word of a class is that of its slot but for these bits. */
  ghost predicate SaysClassBits(written: int32, own: int32, info: TypeInfo) {
    forall k: nat :: HasBit(written, k) ==
      if k == TYPE_FIXUP then exists i :: 0 <= i < |info.implements| && !info.implements[i].isInterface
      else HasBit(own, k) || TypeSays(info, k)
  }

  ghost predicate SaysClass(env: Env, x: Section, p: Prop, slot: int)
    requires p.value.Some? && p.value.value.TypeObj? && p.traits.Some?
    decreases p, 0, 2
  {
    var t := p.value.value;
    && x.Class? && x.class_.qname == p.qname && SaysSlot(env, x.class_.slot, slot, true)
    && Names(env, x.class_.base, t.info.base)
    && x.class_.numTypeProp == |t.statics| && x.class_.numInstanceProp == |t.prototype|
    && |x.class_.interfaces| == |t.info.implements|
    && (forall i :: 0 <= i < |t.info.implements| ==>
          Names(env, x.class_.interfaces[i], Some(t.info.implements[i].qname)))
    && SaysClassBits(x.class_.attributes, p.traits.value.attributes, t.info)
    && SaysClassMembers(env, x.body, p, slot)
  }

  /** The body of a class section, in three parts. */
  ghost predicate SaysClassMembers(env: Env, body: seq<Section>, p: Prop, slot: int)
    requires p.value.Some? && p.value.value.TypeObj?
    decreases p, 0, 1
  {
    exists i, j :: 0 <= i <= j <= |body| && SaysClassBody(env, body, p, slot, i, j)
  }

  /** The constructor up to i, the static members up to j, then those of the prototype. */
  ghost predicate SaysClassBody(env: Env, body: seq<Section>, p: Prop, slot: int, i: nat, j: nat)
    requires p.value.Some? && p.value.value.TypeObj? && i <= j <= |body|
    decreases p, 0, 0
  {
    var t := p.value.value;
    && (if t.info.hasConstructor then SaysSlotFun(env, body[..i], p, slot, t.self, false, true) else i == 0)
    && SaysMembers(env, body[i..j], t.statics, 0)
    && SaysMembers(env, body[j..], t.prototype, t.info.numInherited)
  }

  // -------------------------------------------------------------- One slot, and all

  /** These are the sections of this property in this slot; deleted properties have none. */
  ghost predicate Says(env: Env, xs: seq<Section>, p: Prop, slot: int, atGlobal: bool)
    decreases p, 1, 0
  {
    if p.traits.None? || p.value.None? || p.qname.name == [] then xs == []
    else match p.value.value
      case TypeObj(_, _, _, _) =>
        && Documented(xs, p.docs, "class")
        && SaysClass(env, xs[|xs| - 1], p, slot)
      case FunObj(fun, setter) =>
        var k := if "fun" in p.docs then 2 else 1;
        && k <= |xs| && SaysSlotFun(env, xs[..k], p, slot, fun, false, atGlobal)
        && (if HasBit(p.traits.value.attributes, TRAIT_SETTER)
            then setter.Some? && SaysSlotFun(env, xs[k..], p, slot, setter.value, true, atGlobal)
            else |xs| == k)
      case BlockObj(props) =>
        |xs| == 1 && xs[0].Block? && xs[0].block.name == p.qname.name && xs[0].block.slot == slot
        && xs[0].block.numProp == |props| && SaysMembers(env, xs[0].body, props, 0)
      case ValueObj(uri) =>
        Documented(xs, p.docs, "var") && SaysValue(env, xs[|xs| - 1], p, p.traits.value, slot, uri, atGlobal)
  }

  /** Sections cut into one run a slot, in slot order. */
  predicate IsCut(cuts: seq<nat>, size: nat, slots: nat) {
    && |cuts| == slots + 1 && cuts[0] == 0 && cuts[slots] == size
    && forall i, j :: 0 <= i <= j <= slots ==> cuts[i] <= cuts[j]
  }

  /**
   The sections are those of the properties, slot by slot; of the slots below
   `numInherited` only what overrides is there.
   */
  ghost predicate SaysMembers(env: Env, xs: seq<Section>, props: seq<Prop>, numInherited: nat)
    decreases props, 2
  {
    exists cuts :: IsCut(cuts, |xs|, |props|) && SaysRuns(env, xs, props, numInherited, cuts)
  }

  /** A slot an object has of its own, or overrides. */
  predicate Kept(p: Prop, slot: nat, numInherited: nat) {
    slot >= numInherited || (p.traits.Some? && HasBit(p.traits.value.attributes, FUN_OVERRIDE))
  }

  ghost predicate SaysRuns(env: Env, xs: seq<Section>, props: seq<Prop>, numInherited: nat, cuts: seq<nat>)
    requires IsCut(cuts, |xs|, |props|)
    decreases props, 1
  {
    forall i :: 0 <= i < |props| ==>
      if Kept(props[i], i, numInherited) then Says(env, xs[cuts[i]..cuts[i + 1]], props[i], i, false)
      else cuts[i] == cuts[i + 1]
  }

  // ------------------------------------------------------- What is written says it

  lemma TypeRefNames(env: Env, q: Option<Name>)
    ensures Names(env, TypeRef(env, q), q)
  {
    if q.Some? {
      ResolveRef(env.global, q.value);
    }
  }

  lemma {:induction false} HandlersSay(env: Env, xs: seq<Ex>)
    ensures forall i :: 0 <= i < |xs| ==> SaysHandler(env, HandlersOf(env, xs)[i], xs[i])
    decreases |xs|
  {
    hide Names, TypeRef;
    if xs != [] {
      TypeRefNames(env, xs[0].catchType);
      HandlersSay(env, xs[1..]);
    }
  }

  lemma {:induction false} InterfacesSay(env: Env, xs: seq<Interface>)
    ensures forall i :: 0 <= i < |xs| ==> Names(env, InterfacesOf(env, xs)[i], Some(xs[i].qname))
    decreases |xs|
  {
    hide RefOf, Resolve;
    if xs != [] {
      ResolveRef(env.global, xs[0].qname);
      InterfacesSay(env, xs[1..]);
    }
  }

  /** A function section says its function, whatever its attributes and its slot. */
  lemma {:induction false} FunSectionSays(env: Env, q: Name, attributes: int32, slot: int32, f: Fun)
    requires FunOk(f)
    ensures SaysFun(env, FunSection(env, q, attributes, slot, f), q, f)
    ensures FunSection(env, q, attributes, slot, f).fun.slot == slot
    ensures FunSection(env, q, attributes, slot, f).fun.attributes == attributes
    decreases f, 0
  {
    hide PropsOk, PropsSections, SaysMembers, TypeRef, Names, SaysHandler;
    MembersSay(env, f.activation, 0);
    TypeRefNames(env, f.info.resultType);
    if f.info.body.ByteCode? {
      HandlersSay(env, f.info.body.handlers);
    }
  }

  lemma FunBitsSay(a: int32, f: FunInfo, isSetter: bool)
    ensures SaysFunBits(FunAttributes(SlotFunAttributes(a, f, isSetter), f), a, f, isSetter)
  {
    hide HasBit, FunAttributes, SlotFunAttributes, FunSays;
    forall k: nat {
      FunctionBits(a, f, isSetter, k);
    }
  }

  lemma ClassBitsSay(a: int32, t: TypeInfo)
    ensures SaysClassBits(ClassAttributes(a, t), a, t)
  {
    hide HasBit, ClassAttributes, TypeSays;
    forall k: nat {
      ClassBits(a, t, k);
    }
  }

  lemma SlotFunSays(env: Env, p: Prop, slot: int32, f: Fun, isSetter: bool, atGlobal: bool)
    requires FunOk(f) && p.traits.Some?
    ensures SaysSlotFun(env, SlotFunSections(env, p, slot, f, isSetter, atGlobal), p, slot, f, isSetter, atGlobal)
    decreases f, 1
  {
    hide FunOk, FunSection, SlotFunAttributes, FunAttributes, SaysFun, SaysFunBits;
    var a := p.traits.value.attributes;
    var attributes := FunAttributes(SlotFunAttributes(a, f.info, isSetter), f.info);
    FunSectionSays(env, p.qname, attributes, SlotOf(env, slot, atGlobal), f);
    FunBitsSay(a, f.info, isSetter);
  }

  lemma ValueSays(env: Env, p: Prop, slot: int32, uri: Option<CString>, atGlobal: bool)
    requires p.traits.Some?
    ensures SaysValue(env, Property(PropHeaderOf(env, p, slot, uri, atGlobal)), p, p.traits.value, slot, uri, atGlobal)
  {
    hide HasBit, TypeRef, Names;
    TypeRefNames(env, p.traits.value.ptype);
    var x := PropHeaderOf(env, p, slot, uri, atGlobal);
    assert SaysValueBits(x.attributes, p.traits.value);
    assert x.value.Some? <==> HasBit(x.attributes, PROP_HAS_VALUE);
  }

  lemma ClassSays(env: Env, p: Prop, slot: int32)
    requires PropOk(p, true) && !p.Hole() && p.value.value.TypeObj?
    ensures SaysClass(env, Class(ClassHeaderOf(env, p, slot), ClassBody(env, p, slot)), p, slot)
    decreases p, 0
  {
    hide FunOk, PropsOk, ClassBody, SaysClassBits, SaysClassMembers, ClassAttributes, TypeRef, Names, InterfacesOf;
    var t := p.value.value;
    TypeRefNames(env, t.info.base);
    InterfacesSay(env, t.info.implements);
    ClassBitsSay(p.traits.value.attributes, t.info);
    ClassBodySays(env, p, slot);
  }

  lemma ClassBodySays(env: Env, p: Prop, slot: int32)
    requires PropOk(p, true) && !p.Hole() && p.value.value.TypeObj?
    ensures SaysClassMembers(env, ClassBody(env, p, slot), p, slot)
    decreases p, 0, 0
  {
    hide FunOk, PropsOk, SlotFunSections, PropsSections, SaysSlotFun, SaysMembers;
    var t := p.value.value;
    var own := if t.info.hasConstructor then SlotFunSections(env, p, slot, t.self, false, true) else [];
    var statics, rest := PropsSections(env, t.statics, 0), PropsSections(env, t.prototype, t.info.numInherited);
    var body := ClassBody(env, p, slot);
    var i, j := |own|, |own| + |statics|;
    assert body[..i] == own && body[i..j] == statics && body[j..] == rest;
    if t.info.hasConstructor {
      SlotFunSays(env, p, slot, t.self, false, true);
    }
    MembersSay(env, t.statics, 0);
    MembersSay(env, t.prototype, t.info.numInherited);
    assert SaysClassBody(env, body, p, slot, i, j);
  }

  /** The sections written for a slot say what is in it. */
  lemma SlotSays(env: Env, p: Prop, slot: int32, atGlobal: bool)
    requires PropOk(p, atGlobal)
    ensures Says(env, SlotSections(env, p, slot, atGlobal), p, slot, atGlobal)
    decreases p, 1
  {
    hide FunOk, PropsOk, ClassBody, ClassHeaderOf, PropHeaderOf, SlotFunSections, PropsSections, SaysClass, SaysValue,
      SaysMembers, SaysSlotFun, HasBit;
    if !p.Hole() {
      match p.value.value
      case TypeObj(_, _, _, _) => ClassSays(env, p, slot);
      case FunObj(_, _) => AccessorSays(env, p, slot, atGlobal);
      case BlockObj(props) => MembersSay(env, props, 0);
      case ValueObj(uri) => ValueSays(env, p, slot, uri, atGlobal);
    }
  }

  lemma AccessorSays(env: Env, p: Prop, slot: int32, atGlobal: bool)
    requires PropOk(p, atGlobal) && !p.Hole() && p.value.value.FunObj?
    ensures Says(env, SlotSections(env, p, slot, atGlobal), p, slot, atGlobal)
    decreases p, 0
  {
    hide FunOk, SlotFunSections, SaysSlotFun, HasBit;
    var fun, setter := p.value.value.fun, p.value.value.setter;
    var own := SlotFunSections(env, p, slot, fun, false, atGlobal);
    SlotFunSays(env, p, slot, fun, false, atGlobal);
    SlotFunSize(env, p, slot, fun, atGlobal);
    if HasBit(p.traits.value.attributes, TRAIT_SETTER) {
      var more := SlotFunSections(env, p, slot, setter.value, true, atGlobal);
      SlotFunSays(env, p, slot, setter.value, true, atGlobal);
      assert (own + more)[..|own|] == own && (own + more)[|own|..] == more;
    } else {
      assert own + [] == own && own[..|own|] == own;
    }
  }

  lemma SlotFunSize(env: Env, p: Prop, slot: int32, f: Fun, atGlobal: bool)
    requires FunOk(f) && p.traits.Some?
    ensures |SlotFunSections(env, p, slot, f, false, atGlobal)| == if "fun" in p.docs then 2 else 1
  {
    hide FunOk, FunSection, SlotFunAttributes, FunAttributes;
  }

  /**
   Every slot of an object that is not deleted, and not left to the base class,
   has its sections among those written, in slot order, and nothing else is there.
   */
  lemma {:induction false} MembersSay(env: Env, props: seq<Prop>, numInherited: nat)
    requires PropsOk(props)
    ensures SaysMembers(env, PropsSections(env, props, numInherited), props, numInherited)
    decreases props, 0
  {
    hide PropOk, SlotSections, Says, Kept, SaysRuns, SaysMembers;
    if props == [] {
      NoMembersSay(env, numInherited);
    } else {
      var last := |props| - 1;
      MembersSay(env, props[..last], numInherited);
      SlotSays(env, props[last], last, false);
      OneMoreSays(env, props, numInherited);
    }
  }

  lemma NoMembersSay(env: Env, numInherited: nat)
    ensures SaysMembers(env, [], [], numInherited)
  {
    assert IsCut([0], 0, 0) && SaysRuns(env, [], [], numInherited, [0]);
  }

  lemma KeptOrNothing(env: Env, p: Prop, slot: nat, numInherited: nat)
    requires slot < TWO_31 && PropOk(p, false)
    ensures Kept(p, slot, numInherited) ==> !Inherited(p, slot, numInherited)
    ensures !Kept(p, slot, numInherited) ==> Inherited(p, slot, numInherited) || SlotSections(env, p, slot, false) == []
  {
  }

  lemma OneMoreSays(env: Env, props: seq<Prop>, numInherited: nat)
    requires PropsOk(props) && props != []
    requires SaysMembers(env, PropsSections(env, props[..|props| - 1], numInherited), props[..|props| - 1], numInherited)
    requires Says(env, SlotSections(env, props[|props| - 1], |props| - 1, false), props[|props| - 1], |props| - 1, false)
    ensures SaysMembers(env, PropsSections(env, props, numInherited), props, numInherited)
  {
    hide PropOk, SlotSections, Says, Kept, Inherited, SaysRuns;
    var last := |props| - 1;
    var front, xs := PropsSections(env, props[..last], numInherited), PropsSections(env, props, numInherited);
    var cuts: seq<nat> :| IsCut(cuts, |front|, last) && SaysRuns(env, front, props[..last], numInherited, cuts);
    var run := if Inherited(props[last], last, numInherited) then [] else SlotSections(env, props[last], last, false);
    KeptOrNothing(env, props[last], last, numInherited);
    assert xs == front + run && xs[..|front|] == front && xs[|front|..] == run;
    OneMoreRun(env, front, xs, props, numInherited, cuts);
  }

  lemma OneMoreRun(env: Env, front: seq<Section>, xs: seq<Section>, props: seq<Prop>, numInherited: nat, cuts: seq<nat>)
    requires props != [] && front <= xs && IsCut(cuts, |front|, |props| - 1)
    requires SaysRuns(env, front, props[..|props| - 1], numInherited, cuts)
    requires var last := |props| - 1;
      if Kept(props[last], last, numInherited) then Says(env, xs[|front|..], props[last], last, false) else front == xs
    ensures SaysMembers(env, xs, props, numInherited)
  {
    hide Says, Kept;
    var last := |props| - 1;
    var more: seq<nat> := cuts + [|xs|];
    assert IsCut(more, |xs|, |props|);
    forall i | 0 <= i < last ensures xs[more[i]..more[i + 1]] == front[cuts[i]..cuts[i + 1]] {
      assert cuts[i] <= cuts[i + 1] <= cuts[last];
    }
    assert xs[more[last]..more[last + 1]] == xs[|front|..];
    assert SaysRuns(env, xs, props, numInherited, more);
  }
}

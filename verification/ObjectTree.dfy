/**
 What the module writer is given: the properties of the global object and, by
 way of them, classes, functions, blocks and values; and the section tree the
 writer makes of them (createSection and the section writers it calls in
 src/compiler/ecModuleWrite.c).
 */
module ObjectTree {
  import opened AttributeBits
  import opened Bytes
  import opened ConstantPool
  import opened GlobalRef
  import opened ModuleFormat

  // ---------------------------------------------------------------- The objects

  datatype Trait = Trait(attributes: int32, ptype: Option<Name>, isNamespace: bool)

  datatype Ex = Ex(flags: byte, tryStart: int32, tryEnd: int32, handlerStart: int32, handlerEnd: int32,
                   numBlocks: int32, numStack: int32, catchType: Option<Name>)

  datatype Body = Native | ByteCode(bytes: seq<byte>, handlers: seq<Ex>, debug: Option<seq<DebugLine>>)

  datatype FunInfo = FunInfo(isInitializer: bool, moduleInitializer: bool, isConstructor: bool, rest: bool,
                             fullScope: bool, hasReturn: bool, strict: bool, resultType: Option<Name>,
                             numArgs: byte, numDefault: byte, body: Body)

  datatype Interface = Interface(qname: Name, isInterface: bool)

  datatype TypeInfo = TypeInfo(hasConstructor: bool, hasInitializer: bool, hasInstanceVars: bool, callsSuper: bool,
                               base: Option<Name>, implements: seq<Interface>, numInherited: nat)

  /** A function, its arguments, locals and nested functions being the properties of its activation. */
  datatype Fun = Fun(info: FunInfo, activation: seq<Prop>)

  datatype Obj =
    | TypeObj(info: TypeInfo, self: Fun, statics: seq<Prop>, prototype: seq<Prop>)
    | FunObj(fun: Fun, setter: Option<Fun>)
    | BlockObj(props: seq<Prop>)
    | ValueObj(uri: Option<CString>)  // a namespace has a URI

  /** A property slot with its documentation by tag. Deleted properties leave holes: no trait, no value or no name. */
  datatype Prop = Prop(qname: Name, traits: Option<Trait>, value: Option<Obj>, docs: map<string, CString>) {
    predicate Hole() {
      traits.None? || value.None? || qname.name == []
    }
  }

  /** The names of the slots of the global object, and whether globals are bound to slots. */
  datatype Env = Env(global: seq<Name>, bind: bool)

  // -------------------------------------------------------------- Well-formedness

  /** Counts and lengths are C ints; byte code is not empty. */
  predicate BodyOk(b: Body) {
    b.ByteCode? ==>
      && 0 < |b.bytes| < TWO_31 && |b.handlers| < TWO_31
      && (b.debug.Some? ==> |b.debug.value| < TWO_31)
      && (b.debug.Some? ==> forall i :: 0 <= i < |b.debug.value| ==> |b.debug.value[i].source| + 1 < TWO_31)
  }

  predicate FunOk(f: Fun)
    decreases f
  {
    BodyOk(f.info.body) && PropsOk(f.activation)
  }

  /** Properties below the global level: none is a class. */
  predicate PropsOk(props: seq<Prop>): (ok: bool)
    ensures ok ==> |props| < TWO_31
    decreases props
  {
    |props| < TWO_31 && forall i :: 0 <= i < |props| ==> PropOk(props[i], false)
  }

  /** A property with the setter bit has a setter. */
  predicate PropOk(p: Prop, atGlobal: bool)
    decreases p
  {
    if p.Hole() then true
    else match p.value.value
      case TypeObj(info, self, statics, prototype) =>
        && atGlobal && |info.implements| < TWO_31
        && FunOk(self) && PropsOk(statics) && PropsOk(prototype)
      case FunObj(fun, setter) =>
        && FunOk(fun) && (setter.Some? ==> FunOk(setter.value))
        && (HasBit(p.traits.value.attributes, TRAIT_SETTER) ==> setter.Some?)
      case BlockObj(props) => PropsOk(props)
      case ValueObj(_) => true
  }

  // ------------------------------------------------------------- The section tree

  /** A type, where there is one: a core global by slot, any other by name. */
  function TypeRef(env: Env, q: Option<Name>): Ref {
    if q.None? then NoRef else RefOf(env.global, q.value)
  }

  function HandlerOf(env: Env, x: Ex): Handler {
    Handler(x.flags, x.tryStart, x.tryEnd, x.handlerStart, x.handlerEnd, x.numBlocks, x.numStack,
            TypeRef(env, x.catchType))
  }

  function HandlersOf(env: Env, xs: seq<Ex>): (hs: seq<Handler>)
    ensures |hs| == |xs|
  {
    if xs == [] then [] else [HandlerOf(env, xs[0])] + HandlersOf(env, xs[1..])
  }

  function CodeOf(env: Env, b: Body): Code {
    match b
    case Native => NoCode
    case ByteCode(bytes, handlers, debug) => Code(bytes, HandlersOf(env, handlers), debug)
  }

  /** The attributes of a function in a slot: of an accessor's two functions each keeps its own bit only. */
  function SlotFunAttributes(a: int32, f: FunInfo, isSetter: bool): int32 {
    var b := SetIf(SetIf(a, FUN_INITIALIZER, f.isInitializer), FUN_MODULE_INITIALIZER, f.moduleInitializer);
    if isSetter then ClearIf(b, TRAIT_GETTER, HasBit(a, TRAIT_GETTER) || HasBit(a, TRAIT_SETTER))
    else ClearIf(b, TRAIT_SETTER, HasBit(a, TRAIT_GETTER) || HasBit(a, TRAIT_SETTER))
  }

  function FunAttributes(a: int32, f: FunInfo): int32 {
    SetIf(SetIf(SetIf(SetIf(a, FUN_CONSTRUCTOR, f.isConstructor), FUN_REST_ARGS, f.rest),
                FUN_FULL_SCOPE, f.fullScope), FUN_HAS_RETURN, f.hasReturn)
  }

  function ClassAttributes(a: int32, t: TypeInfo): int32 {
    var b := SetIf(ClearIf(a, TYPE_FIXUP, true), TYPE_HAS_CONSTRUCTOR, t.hasConstructor);
    var c := SetIf(SetIf(b, TYPE_HAS_TYPE_INITIALIZER, t.hasInitializer), TYPE_HAS_INSTANCE_VARS, t.hasInstanceVars);
    SetIf(SetIf(c, TYPE_CALLS_SUPER, t.callsSuper), TYPE_FIXUP, NeedsFixup(t.implements))
  }

  /** Some type that is implemented is not an interface. */
  predicate NeedsFixup(implements: seq<Interface>) {
    exists i :: 0 <= i < |implements| && !implements[i].isInterface
  }

  function InterfacesOf(env: Env, xs: seq<Interface>): (refs: seq<Ref>)
    ensures |refs| == |xs|
  {
    if xs == [] then [] else [RefOf(env.global, xs[0].qname)] + InterfacesOf(env, xs[1..])
  }

  /** The slot written for a property: none for a global one, unless globals are bound. */
  function SlotOf(env: Env, slot: int32, atGlobal: bool): int32 {
    if env.bind || !atGlobal then slot else -1
  }

  function FunHeaderOf(env: Env, q: Name, attributes: int32, slot: int32, f: Fun): FunHeader
    requires FunOk(f)
  {
    var x := f.info;
    FunHeader(q, attributes, if x.strict then 1 else 0, TypeRef(env, x.resultType), slot,
              |f.activation|, x.numArgs, x.numDefault, if x.body.Native? then 0 else |x.body.handlers|)
  }

  function FunSection(env: Env, q: Name, attributes: int32, slot: int32, f: Fun): Section
    requires FunOk(f)
    decreases f, 0
  {
    Function(FunHeaderOf(env, q, attributes, slot, f), CodeOf(env, f.info.body), PropsSections(env, f.activation, 0))
  }

  function DocOf(p: Prop, tag: string): seq<Section> {
    if tag in p.docs then [Doc(p.docs[tag])] else []
  }

  /** The function in slot `slot`, behind its documentation. */
  function SlotFunSections(env: Env, p: Prop, slot: int32, f: Fun, isSetter: bool, atGlobal: bool): seq<Section>
    requires FunOk(f) && p.traits.Some?
    decreases f, 1
  {
    var attributes := FunAttributes(SlotFunAttributes(p.traits.value.attributes, f.info, isSetter), f.info);
    DocOf(p, "fun") + [FunSection(env, p.qname, attributes, SlotOf(env, slot, atGlobal), f)]
  }

  function ClassHeaderOf(env: Env, p: Prop, slot: int32): (h: ClassHeader)
    requires PropOk(p, true) && !p.Hole() && p.value.value.TypeObj?
    ensures |h.interfaces| < TWO_31
  {
    var t := p.value.value;
    ClassHeader(p.qname, ClassAttributes(p.traits.value.attributes, t.info), if env.bind then slot else -1,
                TypeRef(env, t.info.base), |t.statics|, |t.prototype|, InterfacesOf(env, t.info.implements))
  }

  function PropHeaderOf(env: Env, p: Prop, slot: int32, uri: Option<CString>, atGlobal: bool): PropHeader
    requires p.traits.Some?
  {
    var t := p.traits.value;
    var attributes := SetIf(t.attributes, PROP_HAS_VALUE, t.ptype.Some? && t.isNamespace);
    PropHeader(p.qname, attributes, SlotOf(env, slot, atGlobal), TypeRef(env, t.ptype),
               if !HasBit(attributes, PROP_HAS_VALUE) then None else if uri.Some? then uri else Some([]))
  }

  /** The constructor, then the members of a class, then those of its instances. */
  function ClassBody(env: Env, p: Prop, slot: int32): seq<Section>
    requires PropOk(p, true) && !p.Hole() && p.value.value.TypeObj?
    decreases p, 0
  {
    var t := p.value.value;
    (if t.info.hasConstructor then SlotFunSections(env, p, slot, t.self, false, true) else [])
    + PropsSections(env, t.statics, 0) + PropsSections(env, t.prototype, t.info.numInherited)
  }

  /** The sections written for one property: none for a hole, two functions for an accessor with a setter. */
  function SlotSections(env: Env, p: Prop, slot: int32, atGlobal: bool): seq<Section>
    requires PropOk(p, atGlobal)
    decreases p, 1
  {
    if p.Hole() then []
    else match p.value.value
      case TypeObj(info, self, statics, prototype) =>
        DocOf(p, "class") + [Class(ClassHeaderOf(env, p, slot), ClassBody(env, p, slot))]
      case FunObj(fun, setter) =>
        SlotFunSections(env, p, slot, fun, false, atGlobal)
        + (if HasBit(p.traits.value.attributes, TRAIT_SETTER)
           then SlotFunSections(env, p, slot, setter.value, true, atGlobal) else [])
      case BlockObj(props) =>
        [Block(BlockHeader(p.qname.name, slot, |props|), PropsSections(env, props, 0))]
      case ValueObj(uri) =>
        DocOf(p, "var") + [Property(PropHeaderOf(env, p, slot, uri, atGlobal))]
  }

  /** An inherited property that is not an override is left to the base class. */
  predicate Inherited(p: Prop, slot: nat, numInherited: nat) {
    slot < numInherited && p.traits.Some? && !HasBit(p.traits.value.attributes, FUN_OVERRIDE)
  }

  /** The sections of the properties of a class, an activation or a block, in slot order. */
  function PropsSections(env: Env, props: seq<Prop>, numInherited: nat): seq<Section>
    requires PropsOk(props)
    decreases props
  {
    if props == [] then []
    else
      var last := |props| - 1;
      PropsSections(env, props[..last], numInherited)
      + if Inherited(props[last], last, numInherited) then [] else SlotSections(env, props[last], last, false)
  }

  // ------------------------------------------------------- Attributes, bit by bit

  /** What a function, and what a type, says of itself besides its trait. */
  predicate FunSays(f: FunInfo, k: nat) {
    || (k == FUN_INITIALIZER && f.isInitializer) || (k == FUN_MODULE_INITIALIZER && f.moduleInitializer)
    || (k == FUN_CONSTRUCTOR && f.isConstructor) || (k == FUN_REST_ARGS && f.rest)
    || (k == FUN_FULL_SCOPE && f.fullScope) || (k == FUN_HAS_RETURN && f.hasReturn)
  }

  predicate TypeSays(t: TypeInfo, k: nat) {
    || (k == TYPE_HAS_CONSTRUCTOR && t.hasConstructor) || (k == TYPE_HAS_TYPE_INITIALIZER && t.hasInitializer)
    || (k == TYPE_HAS_INSTANCE_VARS && t.hasInstanceVars) || (k == TYPE_CALLS_SUPER && t.callsSuper)
  }

  /** Bit k of the attribute word of a function in a slot, for every k. */
  lemma FunctionBits(a: int32, f: FunInfo, isSetter: bool, k: nat)
    ensures HasBit(FunAttributes(SlotFunAttributes(a, f, isSetter), f), k) ==
      if k == TRAIT_GETTER then HasBit(a, k) && !isSetter
      else if k == TRAIT_SETTER then HasBit(a, k) && isSetter
      else HasBit(a, k) || FunSays(f, k)
  {
    hide HasBit;
  }

  /**
   Bit k of the attribute word of a class, for every k: the fixup bit is worked
   out afresh, four bits are added to, and all others, final, dynamic and
   interface among them, are those of the trait.
   */
  lemma ClassBits(a: int32, t: TypeInfo, k: nat)
    ensures HasBit(ClassAttributes(a, t), k) ==
      if k == TYPE_FIXUP then NeedsFixup(t.implements) else HasBit(a, k) || TypeSays(t, k)
  {
    hide HasBit, NeedsFixup;
  }

  /** What a written class section says of the class, whatever its trait says about fixing up. */
  lemma ClassSectionBits(env: Env, p: Prop, slot: int32)
    requires PropOk(p, true) && !p.Hole() && p.value.value.TypeObj?
    ensures var written, a := ClassHeaderOf(env, p, slot).attributes, p.traits.value.attributes;
      && (HasBit(written, TYPE_FIXUP) <==> NeedsFixup(p.value.value.info.implements))
      && (HasBit(written, TYPE_FINAL) <==> HasBit(a, TYPE_FINAL))
      && (HasBit(written, TYPE_DYNAMIC_INSTANCES) <==> HasBit(a, TYPE_DYNAMIC_INSTANCES))
      && (HasBit(written, TYPE_INTERFACE) <==> HasBit(a, TYPE_INTERFACE))
  {
    hide HasBit, NeedsFixup, PropOk, ClassAttributes;
    var a, info := p.traits.value.attributes, p.value.value.info;
    ClassBits(a, info, TYPE_FIXUP);
    ClassBits(a, info, TYPE_FINAL);
    ClassBits(a, info, TYPE_DYNAMIC_INSTANCES);
    ClassBits(a, info, TYPE_INTERFACE);
  }
}

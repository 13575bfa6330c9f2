/**
 What the pass that fills the constant pool buys (ecAddConstants and
 createSection in src/compiler/ecModuleWrite.c): of a block, class or function
 that it searched, every string the sections of its properties emit is in the
 pool, but for a few kinds that others must add.
 */
module PoolCoverage {
  import opened AttributeBits
  import opened Bytes
  import opened ConstantPool
  import opened GlobalRef
  import opened ModuleFormat
  import opened ObjectTree
  import opened Emission
  import opened OnPathSearch
  import opened ConstantPrepass
  import opened PoolPresence

  // ------------------------------------------------- One graph, seen as two things

  /** Object v of the graph holds these properties, each with its value. */
  ghost predicate Depicts(h: Heap, v: nat, props: seq<Prop>)
    decreases props, 1
  {
    && v < |h.objs| && |h.objs[v].props| == |props|
    && forall i :: 0 <= i < |props| ==> DepictsProp(h, v, h.objs[v].props[i], props[i])
  }

  /** Member x of object v is property p; documentation is recorded only where it is kept. */
  ghost predicate DepictsProp(h: Heap, v: nat, x: Member, p: Prop)
    decreases p, 0
  {
    && x.name == p.qname
    && x.traitType == (if p.traits.Some? then p.traits.value.ptype else None)
    && (p.value.Some? ==>
          match p.value.value
          case FunObj(fun, _) =>
            && h.HoldsFunction(v, x) && h.objs[x.value.value].resultType == fun.info.resultType
            && x.doc == (if "fun" in p.docs then Some(p.docs["fun"]) else None) && (x.doc.Some? ==> h.docs)
            && DepictsIf(h, h.objs[x.value.value].activation, fun.activation)
          case BlockObj(props) =>
            && !h.HoldsFunction(v, x) && x.value.Some? && x.value.value != v && x.value.value < |h.objs|
            && h.objs[x.value.value].isBlock && Depicts(h, x.value.value, props)
          case _ => true)
  }

  /** An object that may be missing, as that of a function without locals is. */
  ghost predicate DepictsIf(h: Heap, a: Option<nat>, props: seq<Prop>)
    decreases props, 2
  {
    if a.None? then props == [] else Depicts(h, a.value, props)
  }

  // ------------------------------------------------------ What the pass leaves out

  /** A catch type is emitted by name, and the name holds s. */
  ghost predicate Catches(env: Env, b: Body, s: CString) {
    CodeHas(CodeOf(env, b), s)
  }

  ghost predicate EmitsAny(xs: seq<Section>, s: CString) {
    exists i :: 0 <= i < |xs| && Emits(xs[i], s)
  }

  /**
   Strings the sections of a property emit and the pass does not look for: the
   catch types of functions, whatever belongs to a setter alone, the
   documentation of variables and the URIs of namespaces.
   */
  ghost predicate Uncovered(env: Env, p: Prop, s: CString)
    requires PropOk(p, false)
    decreases p, 0
  {
    !p.Hole() &&
    match p.value.value
    case TypeObj(_, _, _, _) => false
    case FunObj(fun, setter) =>
      || UncoveredInFun(env, fun, s)
      || (HasBit(p.traits.value.attributes, TRAIT_SETTER) && OfFunction(env, setter.value, s))
    case BlockObj(props) => UncoveredIn(env, props, 0, s)
    case ValueObj(uri) =>
      || ("var" in p.docs && s == p.docs["var"])
      || PropHeaderOf(env, p, 0, uri, false).value == Some(s)
  }

  ghost predicate UncoveredInFun(env: Env, f: Fun, s: CString)
    requires FunOk(f)
    decreases f, 0
  {
    Catches(env, f.info.body, s) || UncoveredIn(env, f.activation, 0, s)
  }

  /** Strings the section of a function emits besides its name. */
  ghost predicate OfFunction(env: Env, f: Fun, s: CString)
    requires FunOk(f)
  {
    || RefHas(TypeRef(env, f.info.resultType), s) || Catches(env, f.info.body, s)
    || EmitsAny(PropsSections(env, f.activation, 0), s)
  }

  ghost predicate UncoveredIn(env: Env, props: seq<Prop>, numInherited: nat, s: CString)
    requires PropsOk(props)
    decreases props, 1
  {
    exists i :: 0 <= i < |props| && !Inherited(props[i], i, numInherited) && Uncovered(env, props[i], s)
  }

  // ------------------------------------------------------------- Inside the graph

  lemma {:induction false} StringsOf(h: Heap, v: nat, i: nat, n: nat, s: CString)
    requires v < |h.objs| && i < n <= |h.objs[v].props| && s in h.PropStrings(v, h.objs[v].props[i])
    ensures s in h.StringsUpTo(v, n)
    decreases n
  {
    hide Heap.PropStrings;
    if i < n - 1 {
      StringsOf(h, v, i, n - 1, s);
    }
  }

  lemma {:induction false} NextOf(h: Heap, v: nat, i: nat, n: nat, w: nat)
    requires v < |h.objs| && i < n <= |h.objs[v].props| && w in h.PropNext(v, h.objs[v].props[i])
    ensures w in h.NextUpTo(v, n)
    decreases n
  {
    hide Heap.PropNext;
    if i < n - 1 {
      NextOf(h, v, i, n - 1, w);
    }
  }

  /** The strings of a member are found where the object is entered. */
  lemma FoundHere(h: Heap, v: nat, i: nat, s: CString)
    requires v < |h.objs| && i < |h.objs[v].props| && s in h.PropStrings(v, h.objs[v].props[i])
    ensures s in h.Found({}, v)
  {
    hide Heap.PropStrings, Heap.Edges;
    StringsOf(h, v, i, |h.objs[v].props|, s);
    assert IsPath(h.Edges(), [v], {});
    assert Reaches(h.Edges(), {}, v, v) && s in h.Strings(v);
    h.FoundMember({}, v, s);
  }

  /** What is found below a member is found below the object. */
  lemma FoundThere(h: Heap, v: nat, i: nat, w: nat, s: CString)
    requires v < |h.objs| && i < |h.objs[v].props| && w in h.PropNext(v, h.objs[v].props[i])
    requires s in h.Found({}, w)
    ensures s in h.Found({}, v)
  {
    hide Heap.PropNext;
    NextOf(h, v, i, |h.objs[v].props|, w);
    assert w in h.Edges()[v];
    hide Heap.Edges, Heap.Strings;
    h.FoundMember({}, v, s);
    h.FoundMember({}, w, s);
    var u :| 0 <= u < |h.objs| && Reaches(h.Edges(), {}, w, u) && s in h.Strings(u);
    ReachesBehind(h.Edges(), v, w, u);
  }

  lemma ReachesBehind(g: Graph, v: nat, w: nat, u: nat)
    requires v < |g| && w in g[v] && Reaches(g, {}, w, u)
    ensures Reaches(g, {}, v, u)
  {
    var p :| IsPath(g, p, {}) && p[0] == w && p[|p| - 1] == u;
    assert IsPath(g, [v] + p, {});
  }

  lemma TypeRefHas(env: Env, q: Option<Name>, s: CString)
    requires RefHas(TypeRef(env, q), s)
    ensures s in NameStrings(q)
  {
  }

  ghost predicate FoundIf(h: Heap, a: Option<nat>, s: CString) {
    a.Some? && s in h.Found({}, a.value)
  }

  // --------------------------------------------------------------- What is covered

  ghost predicate Covered(env: Env, h: Heap, v: nat, p: Prop, s: CString)
    requires PropOk(p, false)
  {
    s in h.Found({}, v) || Uncovered(env, p, s)
  }

  lemma {:induction false} PropsCovered(env: Env, h: Heap, v: nat, props: seq<Prop>, numInherited: nat, s: CString)
    requires PropsOk(props) && Depicts(h, v, props)
    requires EmitsAny(PropsSections(env, props, numInherited), s)
    ensures s in h.Found({}, v) || UncoveredIn(env, props, numInherited, s)
    decreases props, 1
  {
    var i := EmittedBy(env, props, numInherited, s);
    PropCovered(env, h, v, i, props[i], i, s);
  }

  lemma PropsCoveredIf(env: Env, h: Heap, a: Option<nat>, props: seq<Prop>, numInherited: nat, s: CString)
    requires PropsOk(props) && DepictsIf(h, a, props)
    requires EmitsAny(PropsSections(env, props, numInherited), s)
    ensures FoundIf(h, a, s) || UncoveredIn(env, props, numInherited, s)
    decreases props, 2
  {
    hide EmitsAny, PropsOk, Depicts, Heap.Found, UncoveredIn;
    if a.Some? {
      PropsCovered(env, h, a.value, props, numInherited, s);
    } else {
      NoMembers(env, numInherited, s);
    }
  }

  /** Some property emits what the sections of all of them emit. */
  lemma {:induction false} EmittedBy(env: Env, props: seq<Prop>, numInherited: nat, s: CString) returns (i: nat)
    requires PropsOk(props) && EmitsAny(PropsSections(env, props, numInherited), s)
    ensures i < |props| && !Inherited(props[i], i, numInherited) && EmitsAny(SlotSections(env, props[i], i, false), s)
    decreases |props|
  {
    hide SlotSections, Emits, PropOk;
    var last := |props| - 1;
    var front := PropsSections(env, props[..last], numInherited);
    var all := PropsSections(env, props, numInherited);
    var k :| 0 <= k < |all| && Emits(all[k], s);
    if k < |front| {
      assert Emits(front[k], s);
      i := EmittedBy(env, props[..last], numInherited, s);
    } else {
      i := last;
      assert Emits(SlotSections(env, props[last], last, false)[k - |front|], s);
    }
  }

  lemma EmitsConcat(xs: seq<Section>, ys: seq<Section>, s: CString)
    ensures EmitsAny(xs + ys, s) <==> EmitsAny(xs, s) || EmitsAny(ys, s)
  {
    hide Emits;
    if k :| 0 <= k < |ys| && Emits(ys[k], s) {
      assert Emits((xs + ys)[|xs| + k], s);
    }
    if k :| 0 <= k < |xs| && Emits(xs[k], s) {
      assert Emits((xs + ys)[k], s);
    }
  }

  lemma EmitsOne(x: Section, s: CString)
    ensures EmitsAny([x], s) <==> Emits(x, s)
    ensures !EmitsAny([], s)
  {
    hide Emits;
    assert Emits(x, s) ==> Emits([x][0], s);
  }

  lemma EmitsDoc(p: Prop, tag: string, s: CString)
    ensures EmitsAny(DocOf(p, tag), s) <==> tag in p.docs && s == p.docs[tag]
  {
    if tag in p.docs {
      EmitsOne(Doc(p.docs[tag]), s);
    }
  }

  lemma SlotFunEmits(env: Env, p: Prop, slot: int32, f: Fun, isSetter: bool, atGlobal: bool, s: CString)
    requires FunOk(f) && p.traits.Some?
    ensures EmitsAny(SlotFunSections(env, p, slot, f, isSetter, atGlobal), s) <==>
      ("fun" in p.docs && s == p.docs["fun"]) || NameHas(p.qname, s) || OfFunction(env, f, s)
  {
    hide FunOk, PropsSections, EmitsAny, DocOf, SlotFunAttributes, FunAttributes, CodeHas, RefHas, NameHas, TypeRef, CodeOf;
    var attributes := FunAttributes(SlotFunAttributes(p.traits.value.attributes, f.info, isSetter), f.info);
    var x := FunSection(env, p.qname, attributes, SlotOf(env, slot, atGlobal), f);
    EmitsConcat(DocOf(p, "fun"), [x], s);
    EmitsOne(x, s);
    EmitsDoc(p, "fun", s);
    FunctionEmits(x.fun, x.code, x.body, s);
  }

  lemma FunctionEmits(f: FunHeader, code: Code, body: seq<Section>, s: CString)
    ensures Emits(Function(f, code, body), s) <==>
      NameHas(f.qname, s) || RefHas(f.resultType, s) || CodeHas(code, s) || EmitsAny(body, s)
  {
  }

  lemma BlockEmits(b: BlockHeader, body: seq<Section>, s: CString)
    ensures Emits(Block(b, body), s) <==> s == b.name || EmitsAny(body, s)
  {
  }

  /** The strings the pass adds for a member: its name, its type, and what a function says of itself. */
  lemma MemberStrings(h: Heap, v: nat, x: Member, s: CString)
    ensures s in h.PropStrings(v, x) <==>
      || NameHas(x.name, s) || s in NameStrings(x.traitType)
      || (h.HoldsFunction(v, x) && (s in NameStrings(h.objs[x.value.value].resultType) || (h.docs && x.doc == Some(s))))
  {
    hide Heap.HoldsFunction;
  }

  lemma ValueCovered(env: Env, h: Heap, v: nat, i: nat, p: Prop, slot: int32, s: CString)
    requires v < |h.objs| && i < |h.objs[v].props|
    requires DepictsProp(h, v, h.objs[v].props[i], p) && !p.Hole() && p.value.value.ValueObj?
    requires EmitsAny(SlotSections(env, p, slot, false), s)
    ensures Covered(env, h, v, p, s)
  {
    hide EmitsAny, DocOf, Heap.Found, Heap.PropStrings, NameStrings, NameHas, RefHas, TypeRef, HasBit;
    var x := Property(PropHeaderOf(env, p, slot, p.value.value.uri, false));
    EmitsConcat(DocOf(p, "var"), [x], s);
    EmitsOne(x, s);
    MemberStrings(h, v, h.objs[v].props[i], s);
    EmitsDoc(p, "var", s);
    if NameHas(p.qname, s) {
      FoundHere(h, v, i, s);
    } else if RefHas(x.prop.ptype, s) {
      TypeRefHas(env, p.traits.value.ptype, s);
      FoundHere(h, v, i, s);
    }
  }

  lemma BlockCovered(env: Env, h: Heap, v: nat, i: nat, p: Prop, slot: int32, s: CString)
    requires v < |h.objs| && i < |h.objs[v].props|
    requires PropOk(p, false) && DepictsProp(h, v, h.objs[v].props[i], p) && !p.Hole() && p.value.value.BlockObj?
    requires EmitsAny(SlotSections(env, p, slot, false), s)
    ensures Covered(env, h, v, p, s)
    decreases p, 0
  {
    hide EmitsAny, Emits, PropsOk, PropsSections, Depicts, Heap.Found, Heap.PropStrings, NameHas, UncoveredIn;
    var x, props := h.objs[v].props[i], p.value.value.props;
    var b := BlockHeader(p.qname.name, slot, |props|);
    EmitsOne(Block(b, PropsSections(env, props, 0)), s);
    BlockEmits(b, PropsSections(env, props, 0), s);
    if s == p.qname.name {
      MemberNamed(h, v, i);
    } else {
      PropsCovered(env, h, x.value.value, props, 0, s);
      if s in h.Found({}, x.value.value) {
        FoundThere(h, v, i, x.value.value, s);
      }
    }
  }

  lemma MemberNamed(h: Heap, v: nat, i: nat)
    requires v < |h.objs| && i < |h.objs[v].props|
    ensures h.objs[v].props[i].name.name in h.Found({}, v)
    ensures h.objs[v].props[i].name.space in h.Found({}, v)
  {
    hide Heap.Found, Heap.PropStrings;
    var x := h.objs[v].props[i];
    MemberStrings(h, v, x, x.name.name);
    MemberStrings(h, v, x, x.name.space);
    FoundHere(h, v, i, x.name.name);
    FoundHere(h, v, i, x.name.space);
  }

  lemma FunCovered(env: Env, h: Heap, v: nat, i: nat, p: Prop, slot: int32, s: CString)
    requires v < |h.objs| && i < |h.objs[v].props|
    requires PropOk(p, false) && DepictsProp(h, v, h.objs[v].props[i], p) && !p.Hole() && p.value.value.FunObj?
    requires EmitsAny(SlotSections(env, p, slot, false), s)
    ensures Covered(env, h, v, p, s)
    decreases p, 0
  {
    hide EmitsAny, Emits, PropsOk, FunOk, SlotFunSections, PropsSections, OfFunction, HasBit, NameHas, UncoveredInFun,
      DepictsIf, Heap.Found, Heap.HoldsFunction;
    var fun, setter := p.value.value.fun, p.value.value.setter;
    var own := SlotFunSections(env, p, slot, fun, false, false);
    var isSetter := HasBit(p.traits.value.attributes, TRAIT_SETTER);
    var more := if isSetter then SlotFunSections(env, p, slot, setter.value, true, false) else [];
    EmitsConcat(own, more, s);
    EmitsNothing(s);
    if "fun" in p.docs && s == p.docs["fun"] {
      MemberStrings(h, v, h.objs[v].props[i], s);
      FoundHere(h, v, i, s);
    } else if NameHas(p.qname, s) {
      MemberStrings(h, v, h.objs[v].props[i], s);
      FoundHere(h, v, i, s);
    } else if EmitsAny(own, s) {
      SlotFunEmits(env, p, slot, fun, false, false, s);
      OwnCovered(env, h, v, i, p, s);
    } else {
      SlotFunEmits(env, p, slot, setter.value, true, false, s);
    }
  }

  lemma OwnCovered(env: Env, h: Heap, v: nat, i: nat, p: Prop, s: CString)
    requires v < |h.objs| && i < |h.objs[v].props|
    requires PropOk(p, false) && DepictsProp(h, v, h.objs[v].props[i], p) && !p.Hole() && p.value.value.FunObj?
    requires OfFunction(env, p.value.value.fun, s)
    ensures s in h.Found({}, v) || UncoveredInFun(env, p.value.value.fun, s)
    decreases p.value.value.fun, 1
  {
    hide EmitsAny, PropsSections, PropsOk, Catches, Heap.Found, Heap.PropStrings, DepictsIf, UncoveredIn, RefHas,
      NameStrings;
    var fun, x := p.value.value.fun, h.objs[v].props[i];
    if RefHas(TypeRef(env, fun.info.resultType), s) {
      TypeRefHas(env, fun.info.resultType, s);
      MemberStrings(h, v, x, s);
      FoundHere(h, v, i, s);
    } else if EmitsAny(PropsSections(env, fun.activation, 0), s) {
      var a := h.objs[x.value.value].activation;
      PropsCoveredIf(env, h, a, fun.activation, 0, s);
      if FoundIf(h, a, s) {
        FoundThere(h, v, i, a.value, s);
      }
    }
  }

  lemma PropCovered(env: Env, h: Heap, v: nat, i: nat, p: Prop, slot: int32, s: CString)
    requires v < |h.objs| && i < |h.objs[v].props|
    requires PropOk(p, false) && DepictsProp(h, v, h.objs[v].props[i], p)
    requires EmitsAny(SlotSections(env, p, slot, false), s)
    ensures Covered(env, h, v, p, s)
    decreases p, 1
  {
    hide EmitsAny, SlotSections, Covered, DepictsProp;
    if p.Hole() {
      HoleEmits(env, p, slot, s);
    } else {
      match p.value.value
      case TypeObj(_, _, _, _) => assert false;
      case FunObj(_, _) => FunCovered(env, h, v, i, p, slot, s);
      case BlockObj(_) => BlockCovered(env, h, v, i, p, slot, s);
      case ValueObj(_) => ValueCovered(env, h, v, i, p, slot, s);
    }
  }

  lemma HoleEmits(env: Env, p: Prop, slot: int32, s: CString)
    requires PropOk(p, false) && p.Hole()
    ensures !EmitsAny(SlotSections(env, p, slot, false), s)
  {
  }

  lemma EmitsNothing(s: CString)
    ensures !EmitsAny([], s)
  {
  }

  lemma NoMembers(env: Env, numInherited: nat, s: CString)
    ensures !EmitsAny(PropsSections(env, [], numInherited), s)
  {
  }

  // ------------------------------------------------- What is not covered is emitted

  lemma {:induction false} UncoveredEmitted(env: Env, props: seq<Prop>, numInherited: nat, s: CString)
    requires PropsOk(props) && UncoveredIn(env, props, numInherited, s)
    ensures EmitsAny(PropsSections(env, props, numInherited), s)
    decreases props, 1
  {
    hide Uncovered, EmitsAny, PropsSections, PropOk;
    var i :| 0 <= i < |props| && !Inherited(props[i], i, numInherited) && Uncovered(env, props[i], s);
    OneUncovered(env, props[i], i, s);
    EmitsAmong(env, props, numInherited, i, |props|, s);
    assert props[..|props|] == props;
  }

  lemma {:induction false} EmitsAmong(env: Env, props: seq<Prop>, numInherited: nat, i: nat, n: nat, s: CString)
    requires PropsOk(props) && i < n <= |props| && !Inherited(props[i], i, numInherited)
    requires EmitsAny(SlotSections(env, props[i], i, false), s)
    ensures PropsOk(props[..n]) && EmitsAny(PropsSections(env, props[..n], numInherited), s)
    decreases n
  {
    hide EmitsAny, SlotSections, PropOk, Inherited;
    assert props[..n][..n - 1] == props[..n - 1] && props[..n][n - 1] == props[n - 1];
    if i < n - 1 {
      EmitsAmong(env, props, numInherited, i, n - 1, s);
    }
    var more := if Inherited(props[n - 1], n - 1, numInherited) then [] else SlotSections(env, props[n - 1], n - 1, false);
    EmitsConcat(PropsSections(env, props[..n - 1], numInherited), more, s);
  }

  lemma OneUncovered(env: Env, p: Prop, slot: int32, s: CString)
    requires PropOk(p, false) && Uncovered(env, p, s)
    ensures EmitsAny(SlotSections(env, p, slot, false), s)
    decreases p, 0
  {
    hide EmitsAny, Emits, PropsOk, FunOk, SlotFunSections, PropsSections, UncoveredIn, UncoveredInFun, OfFunction,
      HasBit, DocOf;
    match p.value.value
    case TypeObj(_, _, _, _) => assert false;
    case FunObj(fun, setter) =>
      var isSetter := HasBit(p.traits.value.attributes, TRAIT_SETTER);
      EmitsConcat(SlotFunSections(env, p, slot, fun, false, false),
                  if isSetter then SlotFunSections(env, p, slot, setter.value, true, false) else [], s);
      if UncoveredInFun(env, fun, s) {
        FunUncovered(env, fun, s);
        SlotFunEmits(env, p, slot, fun, false, false, s);
      } else {
        SlotFunEmits(env, p, slot, setter.value, true, false, s);
      }
    case BlockObj(props) =>
      UncoveredEmitted(env, props, 0, s);
      BlockEmits(BlockHeader(p.qname.name, slot, |props|), PropsSections(env, props, 0), s);
      EmitsOne(Block(BlockHeader(p.qname.name, slot, |props|), PropsSections(env, props, 0)), s);
    case ValueObj(uri) =>
      ValueUncovered(env, p, slot, uri, s);
  }

  lemma ValueUncovered(env: Env, p: Prop, slot: int32, uri: Option<CString>, s: CString)
    requires !p.Hole() && p.value.value == ValueObj(uri) && Uncovered(env, p, s)
    ensures EmitsAny(SlotSections(env, p, slot, false), s)
  {
    hide EmitsAny;
    var x := Property(PropHeaderOf(env, p, slot, uri, false));
    EmitsConcat(DocOf(p, "var"), [x], s);
    EmitsOne(x, s);
    EmitsDoc(p, "var", s);
  }

  lemma FunUncovered(env: Env, f: Fun, s: CString)
    requires FunOk(f) && UncoveredInFun(env, f, s)
    ensures OfFunction(env, f, s)
    decreases f, 0
  {
    hide EmitsAny, UncoveredIn, PropsSections, Catches, RefHas;
    if !Catches(env, f.info.body, s) {
      UncoveredEmitted(env, f.activation, 0, s);
    }
  }

  // ------------------------------------------------------------ Lengths of records

  /** All debug records of a section, and of what is inside it, fit their size field. */
  ghost predicate RecordsFit(x: Section)
    decreases x
  {
    match x
    case Class(_, body) => forall i :: 0 <= i < |body| ==> RecordsFit(body[i])
    case Function(_, code, body) =>
      && (code.Code? && code.debug.Some? ==> LinesFit(code.debug.value))
      && forall i :: 0 <= i < |body| ==> RecordsFit(body[i])
    case Block(_, body) => forall i :: 0 <= i < |body| ==> RecordsFit(body[i])
    case _ => true
  }

  ghost predicate SameSizes(xs: seq<Section>) {
    forall i :: 0 <= i < |xs| ==> (Sized(xs[i]) <==> RecordsFit(xs[i]))
  }

  lemma SameSizesConcat(xs: seq<Section>, ys: seq<Section>)
    requires SameSizes(xs) && SameSizes(ys)
    ensures SameSizes(xs + ys)
  {
    hide Sized, RecordsFit;
  }

  lemma RefOfSized(env: Env, q: Name)
    ensures RefSized(RefOf(env.global, q))
  {
  }

  lemma {:induction false} InterfacesSized(env: Env, xs: seq<Interface>)
    ensures forall i :: 0 <= i < |xs| ==> RefSized(InterfacesOf(env, xs)[i])
    decreases |xs|
  {
    hide RefSized, RefOf;
    if xs != [] {
      RefOfSized(env, xs[0].qname);
      InterfacesSized(env, xs[1..]);
    }
  }

  lemma {:induction false} HandlersSized(env: Env, xs: seq<Ex>)
    ensures forall i :: 0 <= i < |xs| ==> RefSized(HandlersOf(env, xs)[i].catchType)
    decreases |xs|
  {
    hide RefOf;
    if xs != [] {
      if xs[0].catchType.Some? {
        RefOfSized(env, xs[0].catchType.value);
      }
      HandlersSized(env, xs[1..]);
    }
  }

  lemma FunSized(env: Env, q: Name, attributes: int32, slot: int32, f: Fun)
    requires FunOk(f)
    ensures SameSizes([FunSection(env, q, attributes, slot, f)])
    decreases f, 0
  {
    hide PropsOk, PropsSections, RefOf, LinesFit;
    PropsSized(env, f.activation, 0);
    if f.info.resultType.Some? {
      RefOfSized(env, f.info.resultType.value);
    }
    if f.info.body.ByteCode? {
      HandlersSized(env, f.info.body.handlers);
    }
  }

  lemma SlotFunSized(env: Env, p: Prop, slot: int32, f: Fun, isSetter: bool, atGlobal: bool)
    requires FunOk(f) && p.traits.Some?
    ensures SameSizes(SlotFunSections(env, p, slot, f, isSetter, atGlobal))
    decreases f, 1
  {
    hide FunOk, FunSection, SlotFunAttributes, FunAttributes;
    var attributes := FunAttributes(SlotFunAttributes(p.traits.value.attributes, f.info, isSetter), f.info);
    FunSized(env, p.qname, attributes, SlotOf(env, slot, atGlobal), f);
    SameSizesConcat(DocOf(p, "fun"), [FunSection(env, p.qname, attributes, SlotOf(env, slot, atGlobal), f)]);
  }

  lemma ClassSized(env: Env, p: Prop, slot: int32)
    requires PropOk(p, true) && !p.Hole() && p.value.value.TypeObj?
    ensures SameSizes(SlotSections(env, p, slot, true))
    decreases p, 0
  {
    hide FunOk, PropsOk, PropsSections, SlotFunSections, RefOf, ClassAttributes, InterfacesOf;
    var t := p.value.value;
    var own := if t.info.hasConstructor then SlotFunSections(env, p, slot, t.self, false, true) else [];
    if t.info.hasConstructor {
      SlotFunSized(env, p, slot, t.self, false, true);
    }
    PropsSized(env, t.statics, 0);
    PropsSized(env, t.prototype, t.info.numInherited);
    SameSizesConcat(own, PropsSections(env, t.statics, 0));
    SameSizesConcat(own + PropsSections(env, t.statics, 0), PropsSections(env, t.prototype, t.info.numInherited));
    InterfacesSized(env, t.info.implements);
    if t.info.base.Some? {
      RefOfSized(env, t.info.base.value);
    }
    BodySized(ClassHeaderOf(env, p, slot), ClassBody(env, p, slot));
    SameSizesConcat(DocOf(p, "class"), [Class(ClassHeaderOf(env, p, slot), ClassBody(env, p, slot))]);
  }

  lemma BodySized(c: ClassHeader, body: seq<Section>)
    requires SameSizes(body) && RefSized(c.base) && |c.interfaces| < TWO_31
    requires forall i :: 0 <= i < |c.interfaces| ==> RefSized(c.interfaces[i])
    ensures SameSizes([Class(c, body)])
  {
    hide RefSized;
  }

  lemma SlotSized(env: Env, p: Prop, slot: int32, atGlobal: bool)
    requires PropOk(p, atGlobal)
    ensures SameSizes(SlotSections(env, p, slot, atGlobal))
    decreases p, 1
  {
    hide FunOk, PropsOk, PropsSections, SlotFunSections, RefOf, HasBit, SetIf;
    if !p.Hole() {
      match p.value.value
      case TypeObj(_, _, _, _) => ClassSized(env, p, slot);
      case FunObj(fun, setter) =>
        SlotFunSized(env, p, slot, fun, false, atGlobal);
        if HasBit(p.traits.value.attributes, TRAIT_SETTER) {
          SlotFunSized(env, p, slot, setter.value, true, atGlobal);
        }
      case BlockObj(props) => PropsSized(env, props, 0);
      case ValueObj(uri) =>
        if p.traits.value.ptype.Some? {
          RefOfSized(env, p.traits.value.ptype.value);
        }
        SameSizesConcat(DocOf(p, "var"), [Property(PropHeaderOf(env, p, slot, uri, atGlobal))]);
    }
  }

  /** Of what is made from well-formed objects only debug records can be too long. */
  lemma {:induction false} PropsSized(env: Env, props: seq<Prop>, numInherited: nat)
    requires PropsOk(props)
    ensures SameSizes(PropsSections(env, props, numInherited))
    decreases props, 0
  {
    hide PropOk, SlotSections, SameSizes;
    NoneSized();
    if props != [] {
      var last := |props| - 1;
      PropsSized(env, props[..last], numInherited);
      SlotSized(env, props[last], last, false);
      var more := if Inherited(props[last], last, numInherited) then [] else SlotSections(env, props[last], last, false);
      SameSizesConcat(PropsSections(env, props[..last], numInherited), more);
    }
  }

  lemma NoneSized()
    ensures SameSizes([])
  {
  }

  // -------------------------------------------------------- What the pass buys

  /**
   Once an object was searched, its properties can be written exactly if the
   strings the pass does not look for were added too, and no record is too long:
   no other string can be missing from the pool.
   */
  lemma SearchedIff(env: Env, h: Heap, v: nat, props: seq<Prop>, numInherited: nat, pool: seq<CString>)
    requires PropsOk(props) && Depicts(h, v, props)
    requires forall s :: s in h.Found({}, v) ==> s in pool
    ensures var xs := PropsSections(env, props, numInherited);
            AllFit(pool, xs) <==>
              && (forall i :: 0 <= i < |xs| ==> RecordsFit(xs[i]))
              && forall s :: UncoveredIn(env, props, numInherited, s) ==> s in pool
  {
    hide Fits, Sized, RecordsFit, Emits, PropsOk, Depicts, Heap.Found, UncoveredIn, PropsSections;
    var xs := PropsSections(env, props, numInherited);
    PropsSized(env, props, numInherited);
    forall i | 0 <= i < |xs| ensures Fits(pool, xs[i]) <==> Sized(xs[i]) && Present(pool, xs[i]) {
      FitsIff(pool, xs[i]);
    }
    forall s ensures EmitsAny(xs, s) ==> s in h.Found({}, v) || UncoveredIn(env, props, numInherited, s)
             ensures UncoveredIn(env, props, numInherited, s) ==> EmitsAny(xs, s)
    {
      if EmitsAny(xs, s) {
        PropsCovered(env, h, v, props, numInherited, s);
      }
      if UncoveredIn(env, props, numInherited, s) {
        UncoveredEmitted(env, props, numInherited, s);
      }
    }
  }

  // --------------------------------------------------------------------- Classes

  /** What code generation adds for a class besides searching it and its prototype: its name, base type and text. */
  ghost predicate ClassAdded(p: Prop, s: CString)
    requires !p.Hole() && p.value.value.TypeObj?
  {
    || NameHas(p.qname, s) || s in NameStrings(p.value.value.info.base)
    || ("class" in p.docs && s == p.docs["class"])
  }

  /** Strings of a class section that neither this nor the searches see to: interfaces and the constructor. */
  ghost predicate ClassUncovered(env: Env, p: Prop, s: CString)
    requires PropOk(p, true) && !p.Hole() && p.value.value.TypeObj?
  {
    var t := p.value.value;
    || RefsHave(InterfacesOf(env, t.info.implements), s)
    || (t.info.hasConstructor && (("fun" in p.docs && s == p.docs["fun"]) || OfFunction(env, t.self, s)))
    || UncoveredIn(env, t.statics, 0, s) || UncoveredIn(env, t.prototype, t.info.numInherited, s)
  }

  ghost predicate RefsHave(refs: seq<Ref>, s: CString) {
    exists i :: 0 <= i < |refs| && RefHas(refs[i], s)
  }

  lemma ClassEmits(c: ClassHeader, body: seq<Section>, s: CString)
    ensures Emits(Class(c, body), s) <==>
      NameHas(c.qname, s) || RefHas(c.base, s) || RefsHave(c.interfaces, s) || EmitsAny(body, s)
  {
  }

  lemma ClassBodyEmits(env: Env, p: Prop, slot: int32, s: CString)
    requires PropOk(p, true) && !p.Hole() && p.value.value.TypeObj?
    ensures var t := p.value.value;
      EmitsAny(ClassBody(env, p, slot), s) <==>
        || (t.info.hasConstructor
            && (("fun" in p.docs && s == p.docs["fun"]) || NameHas(p.qname, s) || OfFunction(env, t.self, s)))
        || EmitsAny(PropsSections(env, t.statics, 0), s)
        || EmitsAny(PropsSections(env, t.prototype, t.info.numInherited), s)
  {
    hide EmitsAny, FunOk, PropsOk, SlotFunSections, PropsSections, OfFunction, NameHas;
    var t := p.value.value;
    var own := if t.info.hasConstructor then SlotFunSections(env, p, slot, t.self, false, true) else [];
    var statics := PropsSections(env, t.statics, 0);
    EmitsConcat(own, statics, s);
    EmitsConcat(own + statics, PropsSections(env, t.prototype, t.info.numInherited), s);
    EmitsNothing(s);
    if t.info.hasConstructor {
      SlotFunEmits(env, p, slot, t.self, false, true, s);
    }
  }

  lemma ClassSlotEmits(env: Env, p: Prop, slot: int32, s: CString)
    requires PropOk(p, true) && !p.Hole() && p.value.value.TypeObj?
    ensures EmitsAny(SlotSections(env, p, slot, true), s) <==>
      || ("class" in p.docs && s == p.docs["class"])
      || NameHas(p.qname, s) || RefHas(TypeRef(env, p.value.value.info.base), s)
      || RefsHave(InterfacesOf(env, p.value.value.info.implements), s) || EmitsAny(ClassBody(env, p, slot), s)
  {
    hide EmitsAny, PropOk, ClassBody, NameHas, RefHas, RefsHave, DocOf, ClassAttributes, InterfacesOf;
    var x := Class(ClassHeaderOf(env, p, slot), ClassBody(env, p, slot));
    EmitsConcat(DocOf(p, "class"), [x], s);
    EmitsOne(x, s);
    EmitsDoc(p, "class", s);
    ClassEmits(x.class_, x.body, s);
  }

  lemma ClassCovered(env: Env, h: Heap, type_: nat, proto: Option<nat>, p: Prop, slot: int32, s: CString)
    requires PropOk(p, true) && !p.Hole() && p.value.value.TypeObj?
    requires Depicts(h, type_, p.value.value.statics) && DepictsIf(h, proto, p.value.value.prototype)
    ensures EmitsAny(SlotSections(env, p, slot, true), s) ==>
              ClassAdded(p, s) || s in h.Found({}, type_) || FoundIf(h, proto, s) || ClassUncovered(env, p, s)
    ensures ClassUncovered(env, p, s) ==> EmitsAny(SlotSections(env, p, slot, true), s)
  {
    hide EmitsAny, PropsOk, FunOk, SlotSections, PropsSections, ClassBody, Depicts, UncoveredIn, OfFunction, NameHas,
      RefHas, RefsHave, NameStrings, TypeRef, InterfacesOf, Heap.Found;
    var t := p.value.value;
    ClassSlotEmits(env, p, slot, s);
    ClassBodyEmits(env, p, slot, s);
    if EmitsAny(PropsSections(env, t.statics, 0), s) {
      PropsCovered(env, h, type_, t.statics, 0, s);
    }
    if EmitsAny(PropsSections(env, t.prototype, t.info.numInherited), s) {
      PropsCoveredIf(env, h, proto, t.prototype, t.info.numInherited, s);
    }
    if UncoveredIn(env, t.statics, 0, s) {
      UncoveredEmitted(env, t.statics, 0, s);
    }
    if UncoveredIn(env, t.prototype, t.info.numInherited, s) {
      UncoveredEmitted(env, t.prototype, t.info.numInherited, s);
    }
    if RefHas(TypeRef(env, t.info.base), s) {
      TypeRefHas(env, t.info.base, s);
    }
  }

  /**
   A class of which code generation has added the name, base type and text and
   searched the type and its prototype can be written exactly if the names of
   its interfaces, what its constructor needs, and what the searches leave out
   were added by others, and no record is too long.
   */
  lemma ClassSearchedIff(env: Env, h: Heap, type_: nat, proto: Option<nat>, p: Prop, slot: int32, pool: seq<CString>)
    requires PropOk(p, true) && !p.Hole() && p.value.value.TypeObj?
    requires Depicts(h, type_, p.value.value.statics) && DepictsIf(h, proto, p.value.value.prototype)
    requires forall s :: ClassAdded(p, s) || s in h.Found({}, type_) || FoundIf(h, proto, s) ==> s in pool
    ensures var xs := SlotSections(env, p, slot, true);
            AllFit(pool, xs) <==>
              && (forall i :: 0 <= i < |xs| ==> RecordsFit(xs[i]))
              && forall s :: ClassUncovered(env, p, s) ==> s in pool
  {
    hide Fits, Sized, RecordsFit, Emits, PropOk, Depicts, Heap.Found, ClassUncovered, ClassAdded, SlotSections;
    var xs := SlotSections(env, p, slot, true);
    SlotSized(env, p, slot, true);
    forall i | 0 <= i < |xs| ensures Fits(pool, xs[i]) <==> Sized(xs[i]) && Present(pool, xs[i]) {
      FitsIff(pool, xs[i]);
    }
    forall s {
      ClassCovered(env, h, type_, proto, p, slot, s);
    }
  }
}

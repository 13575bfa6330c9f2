/**
 When section writing is safe: every string a section emits was added to the
 constant pool before the pool was locked (ecCreateModuleSection in
 src/compiler/ecModuleWrite.c locks it before the first section).
 */
module PoolPresence {
  import opened AttributeBits
  import opened Bytes
  import opened NumberCodec
  import opened ConstantPool
  import opened GlobalRef
  import opened ModuleFormat
  import opened Emission

  /** Some string of a section, or of what is inside it, is this one. */
  ghost predicate Emits(x: Section, s: CString)
    decreases x
  {
    match x
    case Dependency(name, _, _, _) => s == name
    case Doc(text) => s == text
    case Class(c, body) =>
      || NameHas(c.qname, s) || RefHas(c.base, s)
      || (exists i :: 0 <= i < |c.interfaces| && RefHas(c.interfaces[i], s))
      || exists i :: 0 <= i < |body| && Emits(body[i], s)
    case Function(f, code, body) =>
      || NameHas(f.qname, s) || RefHas(f.resultType, s) || CodeHas(code, s)
      || exists i :: 0 <= i < |body| && Emits(body[i], s)
    case Block(b, body) => s == b.name || exists i :: 0 <= i < |body| && Emits(body[i], s)
    case Property(p) => NameHas(p.qname, s) || RefHas(p.ptype, s) || p.value == Some(s)
  }

  predicate NameHas(q: Name, s: CString) { s == q.name || s == q.space }

  predicate RefHas(ref: Ref, s: CString) { ref.NameRef? && NameHas(ref.qname, s) }

  predicate CodeHas(code: Code, s: CString) {
    code.Code? && exists i :: 0 <= i < |code.handlers| && RefHas(code.handlers[i].catchType, s)
  }

  /**
   Every count and length fits its field, slots are those of core globals, and
   only a property that says so has a value.
   */
  ghost predicate Sized(x: Section)
    decreases x
  {
    match x
    case Dependency(_, _, _, _) => true
    case Doc(_) => true
    case Class(c, body) =>
      && RefSized(c.base) && |c.interfaces| < TWO_31
      && (forall i :: 0 <= i < |c.interfaces| ==> RefSized(c.interfaces[i]))
      && forall i :: 0 <= i < |body| ==> Sized(body[i])
    case Function(f, code, body) =>
      && RefSized(f.resultType) && SizedCode(f, code)
      && forall i :: 0 <= i < |body| ==> Sized(body[i])
    case Block(_, body) => forall i :: 0 <= i < |body| ==> Sized(body[i])
    case Property(p) => RefSized(p.ptype) && (p.value.Some? <==> HasBit(p.attributes, PROP_HAS_VALUE))
  }

  predicate RefSized(ref: Ref) {
    ref.SlotRef? ==> 0 <= ref.slot < NUM_CLASS_PROP
  }

  ghost predicate SizedCode(f: FunHeader, code: Code) {
    match code
    case NoCode => f.numHandlers == 0
    case Code(bytes, handlers, debug) =>
      && 0 < |bytes| < TWO_31 && f.numHandlers == |handlers|
      && (forall i :: 0 <= i < |handlers| ==> RefSized(handlers[i].catchType))
      && (debug.Some? ==> LinesFit(debug.value))
  }

  ghost predicate Present(strs: seq<CString>, x: Section) {
    forall s :: Emits(x, s) ==> s in strs
  }

  lemma RefIff(strs: seq<CString>, ref: Ref)
    ensures Writable(strs, ref) <==> RefSized(ref) && forall s :: RefHas(ref, s) ==> s in strs
  {
    if ref.NameRef? {
      assert RefHas(ref, ref.qname.name) && RefHas(ref, ref.qname.space);
    }
  }

  lemma NameIff(strs: seq<CString>, q: Name)
    ensures HasName(strs, q) <==> forall s :: NameHas(q, s) ==> s in strs
  {
    assert NameHas(q, q.name) && NameHas(q, q.space);
  }

  lemma RefsIff(strs: seq<CString>, refs: seq<Ref>)
    ensures (forall i :: 0 <= i < |refs| ==> Writable(strs, refs[i])) <==>
      && (forall i :: 0 <= i < |refs| ==> RefSized(refs[i]))
      && forall s, i :: 0 <= i < |refs| && RefHas(refs[i], s) ==> s in strs
  {
    hide Writable, RefSized, RefHas;
    forall i | 0 <= i < |refs|
      ensures Writable(strs, refs[i]) <==> RefSized(refs[i]) && forall s :: RefHas(refs[i], s) ==> s in strs
    {
      RefIff(strs, refs[i]);
    }
  }

  lemma CodeIff(strs: seq<CString>, f: FunHeader, code: Code)
    ensures CodeFits(strs, f, code) <==> SizedCode(f, code) && forall s :: CodeHas(code, s) ==> s in strs
  {
    hide Writable, RefSized, RefHas, LinesFit;
    if code.Code? {
      forall i | 0 <= i < |code.handlers|
        ensures HandlerFits(strs, code.handlers[i]) <==>
          RefSized(code.handlers[i].catchType) && forall s :: RefHas(code.handlers[i].catchType, s) ==> s in strs
      {
        RefIff(strs, code.handlers[i].catchType);
      }
    }
  }

  /** A section can be written exactly if it is sized and all its strings are in the pool. */
  lemma {:induction false} FitsIff(strs: seq<CString>, x: Section)
    ensures Fits(strs, x) <==> Sized(x) && Present(strs, x)
    decreases x
  {
    match x
    case Dependency(name, _, _, _) => assert Emits(x, name);
    case Doc(text) => assert Emits(x, text);
    case Class(c, body) =>
      ClassIff(strs, c, body);
    case Function(f, code, body) =>
      FunctionIff(strs, f, code, body);
    case Block(b, body) =>
      BlockIff(strs, b, body);
    case Property(p) =>
      PropertyIff(strs, p);
  }

  lemma PropertyIff(strs: seq<CString>, p: PropHeader)
    ensures Fits(strs, Property(p)) <==> Sized(Property(p)) && Present(strs, Property(p))
  {
    hide Writable, RefSized, RefHas, HasName, NameHas, HasBit;
    NameIff(strs, p.qname);
    RefIff(strs, p.ptype);
    var x := Property(p);
    assert forall s :: NameHas(p.qname, s) || RefHas(p.ptype, s) || p.value == Some(s) <==> Emits(x, s);
    if p.value.Some? {
      assert Emits(x, p.value.value);
    }
  }

  lemma BodyIff(strs: seq<CString>, x: Section, body: seq<Section>)
    requires forall i :: 0 <= i < |body| ==> body[i] < x
    ensures AllFit(strs, body) <==>
      && (forall i :: 0 <= i < |body| ==> Sized(body[i]))
      && forall s, i :: 0 <= i < |body| && Emits(body[i], s) ==> s in strs
    decreases x, 0
  {
    hide Fits, Sized, Emits;
    forall i | 0 <= i < |body| ensures Fits(strs, body[i]) <==> Sized(body[i]) && Present(strs, body[i]) {
      FitsIff(strs, body[i]);
    }
  }

  lemma BlockIff(strs: seq<CString>, b: BlockHeader, body: seq<Section>)
    ensures Fits(strs, Block(b, body)) <==> Sized(Block(b, body)) && Present(strs, Block(b, body))
    decreases Block(b, body), 1
  {
    var x := Block(b, body);
    BodyIff(strs, x, body);
    assert Emits(x, b.name);
    assert forall s, i :: 0 <= i < |body| && Emits(body[i], s) ==> Emits(x, s);
  }

  lemma ClassIff(strs: seq<CString>, c: ClassHeader, body: seq<Section>)
    ensures Fits(strs, Class(c, body)) <==> Sized(Class(c, body)) && Present(strs, Class(c, body))
    decreases Class(c, body), 1
  {
    hide Writable, RefSized, RefHas, HasName, NameHas;
    var x := Class(c, body);
    BodyIff(strs, x, body);
    NameIff(strs, c.qname);
    RefIff(strs, c.base);
    RefsIff(strs, c.interfaces);
    assert forall s :: NameHas(c.qname, s) || RefHas(c.base, s) ==> Emits(x, s);
    assert forall s, i :: 0 <= i < |c.interfaces| && RefHas(c.interfaces[i], s) ==> Emits(x, s);
    assert forall s, i :: 0 <= i < |body| && Emits(body[i], s) ==> Emits(x, s);
  }

  lemma FunctionIff(strs: seq<CString>, f: FunHeader, code: Code, body: seq<Section>)
    ensures Fits(strs, Function(f, code, body)) <==> Sized(Function(f, code, body)) && Present(strs, Function(f, code, body))
    decreases Function(f, code, body), 1
  {
    hide Writable, RefSized, RefHas, HasName, NameHas, CodeFits, SizedCode, CodeHas;
    var x := Function(f, code, body);
    BodyIff(strs, x, body);
    NameIff(strs, f.qname);
    RefIff(strs, f.resultType);
    CodeIff(strs, f, code);
    assert forall s :: NameHas(f.qname, s) || RefHas(f.resultType, s) || CodeHas(code, s) ==> Emits(x, s);
    assert forall s, i :: 0 <= i < |body| && Emits(body[i], s) ==> Emits(x, s);
  }

  /**
   Once a run of additions has covered every string of the sections, in any
   order and with any others, writing them fails only for their sizes; and a
   string that was neither there nor added makes it fail.
   */
  lemma SafeAfterAdding(strs: seq<CString>, added: seq<CString>, xs: seq<Section>)
    requires Distinct(strs)
    ensures AllFit(InternAll(strs, added), xs) <==>
      && (forall i :: 0 <= i < |xs| ==> Sized(xs[i]))
      && forall s, i :: 0 <= i < |xs| && Emits(xs[i], s) ==> s in strs || s in added
  {
    hide Fits, Sized, Emits, InternAll, Distinct;
    InternAllKeeps(strs, added);
    var pool := InternAll(strs, added);
    forall i | 0 <= i < |xs| ensures Fits(pool, xs[i]) <==> Sized(xs[i]) && Present(pool, xs[i]) {
      FitsIff(pool, xs[i]);
    }
  }
}

/**
 The pass that fills the constant pool before sections are written, and the
 listing of slots: two searches of the object graph with VISITED marks
 (ecAddConstants and ecAddFunctionConstants in src/compiler/ecModuleWrite.c,
 lstSlotAssignments in src/cmd/listing.c). The graph may be cyclic.
 */
module ConstantPrepass {
  import opened Bytes
  import opened ConstantPool
  import opened GlobalRef
  import opened OnPathSearch

  /** A property; `doc` is the documentation recorded for it as a function. */
  datatype Member = Member(name: Name, traitType: Option<Name>, value: Option<nat>, doc: Option<CString>)

  datatype Node = Node(isFunction: bool, isBlock: bool, resultType: Option<Name>, activation: Option<nat>,
                       props: seq<Member>)

  function NameStrings(q: Option<Name>): seq<CString> {
    match q
    case None => []
    case Some(n) => [n.name, n.space]
  }

  function SetOf(s: seq<CString>): set<CString> {
    set x | x in s
  }

  lemma SetOfEmpty()
    ensures SetOf([]) == {}
  {
  }

  lemma SetOfConcat(a: seq<CString>, b: seq<CString>)
    ensures SetOf(a + b) == SetOf(a) + SetOf(b)
  {
    assert forall x :: x in a + b <==> x in a || x in b;
  }

  lemma SetOfIntern(strs: seq<CString>, s: CString)
    ensures SetOf(Intern(strs, s)) == SetOf(strs) + SetOf([s]) && strs <= Intern(strs, s)
  {
    SetOfConcat(strs, [s]);
  }

  /** The objects of a program, named by number, and whether documentation is kept. */
  datatype Heap = Heap(objs: seq<Node>, docs: bool) {
    predicate Valid() {
      forall v :: 0 <= v < |objs| ==>
        && (objs[v].activation.Some? ==> objs[v].activation.value < |objs|)
        && forall i :: 0 <= i < |objs[v].props| && objs[v].props[i].value.Some? ==> objs[v].props[i].value.value < |objs|
    }

    /** Whether a property holds a function other than the object itself. */
    predicate HoldsFunction(v: nat, p: Member) {
      p.value.Some? && p.value.value != v && p.value.value < |objs| && objs[p.value.value].isFunction
    }

    /** The objects searched because of a property: a function and its activation, or a block. */
    function PropNext(v: nat, p: Member): seq<nat> {
      if HoldsFunction(v, p) then
        [p.value.value]
        + if objs[p.value.value].activation.Some? then [objs[p.value.value].activation.value] else []
      else if p.value.Some? && p.value.value != v && p.value.value < |objs| && objs[p.value.value].isBlock then
        [p.value.value]
      else []
    }

    /** What a function property adds to the pool besides its names. */
    function FunStrings(p: Member): seq<CString>
      requires p.value.Some? && p.value.value < |objs|
    {
      NameStrings(objs[p.value.value].resultType) + if docs && p.doc.Some? then [p.doc.value] else []
    }

    function PropStrings(v: nat, p: Member): seq<CString> {
      NameStrings(Some(p.name)) + (NameStrings(p.traitType) + if HoldsFunction(v, p) then FunStrings(p) else [])
    }

    function NextUpTo(v: nat, i: nat): seq<nat>
      requires v < |objs| && i <= |objs[v].props|
    {
      if i == 0 then [] else NextUpTo(v, i - 1) + PropNext(v, objs[v].props[i - 1])
    }

    function StringsUpTo(v: nat, i: nat): seq<CString>
      requires v < |objs| && i <= |objs[v].props|
    {
      if i == 0 then [] else StringsUpTo(v, i - 1) + PropStrings(v, objs[v].props[i - 1])
    }

    /** All strings an object needs in the pool for itself. */
    function Strings(v: nat): seq<CString>
      requires v < |objs|
    {
      StringsUpTo(v, |objs[v].props|)
    }

    /** The graph of block, function and activation edges; prototypes are not followed. */
    function Edges(): (g: Graph)
      ensures |g| == |objs|
    {
      seq(|objs|, v requires 0 <= v < |objs| => NextUpTo(v, |objs[v].props|))
    }

    lemma {:induction false} NextUpToIff(v: nat, i: nat, w: nat)
      requires v < |objs| && i <= |objs[v].props|
      ensures w in NextUpTo(v, i) <==> exists j :: 0 <= j < i && w in PropNext(v, objs[v].props[j])
      decreases i
    {
      hide PropNext;
      if i > 0 {
        NextUpToIff(v, i - 1, w);
      }
    }

    /**
     What is searched from v: the functions its properties hold with their
     activations, and the blocks that are no functions; never v on account of its
     own property, and nothing else.
     */
    lemma EdgeIff(v: nat, w: nat)
      requires Valid() && v < |objs|
      ensures w in Edges()[v] <==> exists j, u ::
        && 0 <= j < |objs[v].props| && objs[v].props[j].value == Some(u) && u != v
        && (if objs[u].isFunction then w == u || objs[u].activation == Some(w) else objs[u].isBlock && w == u)
    {
      NextUpToIff(v, |objs[v].props|, w);
      hide NextUpTo;
      forall j | 0 <= j < |objs[v].props|
        ensures w in PropNext(v, objs[v].props[j]) <==>
          && objs[v].props[j].value.Some? && objs[v].props[j].value.value != v
          && var u := objs[v].props[j].value.value;
             if objs[u].isFunction then w == u || objs[u].activation == Some(w) else objs[u].isBlock && w == u
      {
      }
    }

    lemma {:induction false} StringsUpToIff(v: nat, i: nat, s: CString)
      requires v < |objs| && i <= |objs[v].props|
      ensures s in StringsUpTo(v, i) <==> exists j :: 0 <= j < i && s in PropStrings(v, objs[v].props[j])
      decreases i
    {
      hide PropStrings;
      if i > 0 {
        StringsUpToIff(v, i - 1, s);
      }
    }

    /** One of the strings a property adds: of its name, its type's name, or what a function says of itself. */
    predicate Adds(v: nat, p: Member, s: CString)
      requires Valid()
    {
      || s == p.name.name || s == p.name.space
      || (p.traitType.Some? && (s == p.traitType.value.name || s == p.traitType.value.space))
      || (p.value.Some? && p.value.value != v && p.value.value < |objs| && objs[p.value.value].isFunction
          && ((objs[p.value.value].resultType.Some?
               && (s == objs[p.value.value].resultType.value.name || s == objs[p.value.value].resultType.value.space))
              || (docs && p.doc == Some(s))))
    }

    /** An object adds the strings of its properties and no others. */
    lemma StringsIff(v: nat, s: CString)
      requires Valid() && v < |objs|
      ensures s in Strings(v) <==> exists j :: 0 <= j < |objs[v].props| && Adds(v, objs[v].props[j], s)
    {
      hide StringsUpTo, PropStrings, Adds;
      StringsUpToIff(v, |objs[v].props|, s);
      forall j | 0 <= j < |objs[v].props|
        ensures s in PropStrings(v, objs[v].props[j]) <==> Adds(v, objs[v].props[j], s)
      {
        AddsIff(v, objs[v].props[j], s);
      }
    }

    lemma AddsIff(v: nat, p: Member, s: CString)
      requires Valid()
      ensures s in PropStrings(v, p) <==> Adds(v, p, s)
    {
    }

    /** The strings of everything reached from v without meeting a marked object. */
    ghost function Found(marked: set<nat>, v: nat): set<CString> {
      set w, s | 0 <= w < |objs| && Reaches(Edges(), marked, v, w) && s in Strings(w) :: s
    }

    ghost function FoundBelow(marked: set<nat>, vs: seq<nat>): set<CString> {
      if vs == [] then {} else FoundBelow(marked, vs[..|vs| - 1]) + Found(marked, vs[|vs| - 1])
    }

    lemma {:induction false} FoundBelowConcat(marked: set<nat>, us: seq<nat>, vs: seq<nat>)
      ensures FoundBelow(marked, us + vs) == FoundBelow(marked, us) + FoundBelow(marked, vs)
      decreases |vs|
    {
      hide Found;
      if vs == [] {
        assert us + vs == us;
      } else {
        assert (us + vs)[..|us + vs| - 1] == us + vs[..|vs| - 1];
        FoundBelowConcat(marked, us, vs[..|vs| - 1]);
      }
    }

    lemma {:induction false} FoundBelowMember(marked: set<nat>, vs: seq<nat>, s: CString)
      ensures s in FoundBelow(marked, vs) <==> exists v :: v in vs && s in Found(marked, v)
      decreases |vs|
    {
      hide Found;
      if vs != [] {
        FoundBelowMember(marked, vs[..|vs| - 1], s);
        assert vs == vs[..|vs| - 1] + [vs[|vs| - 1]];
      }
    }

    lemma FoundMember(marked: set<nat>, v: nat, s: CString)
      ensures s in Found(marked, v)
         <==> exists w :: 0 <= w < |objs| && Reaches(Edges(), marked, v, w) && s in Strings(w)
    {
    }

    /** Entering v: its own strings, and what is found below its successors with v marked. */
    lemma FoundUnfold(marked: set<nat>, v: nat)
      requires v < |objs| && v !in marked
      ensures Found(marked, v) == SetOf(Strings(v)) + FoundBelow(marked + {v}, Edges()[v])
    {
      forall s ensures s in Found(marked, v) <==> s in SetOf(Strings(v)) + FoundBelow(marked + {v}, Edges()[v]) {
        FoundUnfoldMember(marked, v, s);
      }
    }

    lemma FoundUnfoldMember(marked: set<nat>, v: nat, s: CString)
      requires v < |objs| && v !in marked
      ensures s in Found(marked, v) <==> s in Strings(v) || s in FoundBelow(marked + {v}, Edges()[v])
    {
      hide Strings, Found, Reaches, Edges;
      FoundMember(marked, v, s);
      FoundBelowMember(marked + {v}, Edges()[v], s);
      forall u ensures s in Found(marked + {v}, u)
           <==> exists w :: 0 <= w < |objs| && Reaches(Edges(), marked + {v}, u, w) && s in Strings(w) {
        FoundMember(marked + {v}, u, s);
      }
      forall w ensures Reaches(Edges(), marked, v, w)
           <==> w == v || exists u :: u in Edges()[v] && Reaches(Edges(), marked + {v}, u, w) {
        ReachesUnfold(Edges(), marked, v, w);
      }
    }

    /** Before the first property and after the last one. */
    lemma PropsStartAndEnd(marked: set<nat>, v: nat)
      requires v < |objs|
      ensures SetOf(StringsUpTo(v, 0)) == {} && FoundBelow(marked, NextUpTo(v, 0)) == {}
      ensures v !in marked ==>
                Found(marked, v)
                == SetOf(StringsUpTo(v, |objs[v].props|))
                   + FoundBelow(marked + {v}, NextUpTo(v, |objs[v].props|))
    {
      if v !in marked {
        FoundUnfold(marked, v);
      }
    }

    /** What one more property adds to the strings and the searches. */
    lemma PropStep(marked: set<nat>, v: nat, i: nat)
      requires v < |objs| && i < |objs[v].props|
      ensures SetOf(StringsUpTo(v, i + 1)) == SetOf(StringsUpTo(v, i)) + SetOf(PropStrings(v, objs[v].props[i]))
      ensures FoundBelow(marked, NextUpTo(v, i + 1))
           == FoundBelow(marked, NextUpTo(v, i)) + FoundBelow(marked, PropNext(v, objs[v].props[i]))
    {
      hide PropStrings, PropNext, SetOf, FoundBelow;
      SetOfConcat(StringsUpTo(v, i), PropStrings(v, objs[v].props[i]));
      FoundBelowConcat(marked, NextUpTo(v, i), PropNext(v, objs[v].props[i]));
    }

    lemma PropParts(marked: set<nat>, v: nat, p: Member)
      ensures SetOf(PropStrings(v, p))
           == SetOf(NameStrings(Some(p.name)) + NameStrings(p.traitType))
              + (if HoldsFunction(v, p) then SetOf(FunStrings(p)) else {})
      ensures !HoldsFunction(v, p) ==>
                FoundBelow(marked, PropNext(v, p)) == if PropNext(v, p) == [] then {} else Found(marked, p.value.value)
    {
      hide Found, NameStrings, SetOf, FunStrings;
      var fun := if HoldsFunction(v, p) then FunStrings(p) else [];
      SetOfConcat(NameStrings(Some(p.name)), NameStrings(p.traitType) + fun);
      SetOfConcat(NameStrings(p.traitType), fun);
      SetOfConcat(NameStrings(Some(p.name)), NameStrings(p.traitType));
      SetOfEmpty();
      FoundBelowOne(marked, PropNext(v, p));
    }

    lemma FoundBelowOne(marked: set<nat>, vs: seq<nat>)
      ensures |vs| == 1 ==> FoundBelow(marked, vs) == Found(marked, vs[0])
      ensures |vs| == 2 ==> FoundBelow(marked, vs) == Found(marked, vs[0]) + Found(marked, vs[1])
    {
      hide Found;
      if |vs| == 1 {
        assert vs[..0] == [];
      } else if |vs| == 2 {
        assert vs[..1] == [vs[0]] && vs[..1][..0] == [];
      }
    }

    lemma FunStep(marked: set<nat>, v: nat, p: Member)
      requires HoldsFunction(v, p)
      ensures var fun := p.value.value;
              FoundBelow(marked, PropNext(v, p))
              == Found(marked, fun)
                 + if objs[fun].activation.Some? then Found(marked, objs[fun].activation.value) else {}
    {
      hide Found;
      FoundBelowOne(marked, PropNext(v, p));
    }

    lemma FoundMarked(marked: set<nat>, v: nat)
      requires v in marked
      ensures Found(marked, v) == {}
    {
      forall w ensures !Reaches(Edges(), marked, v, w) {
        ReachesMarked(Edges(), marked, v, w);
      }
    }
  }

  class Prepass {
    const heap: Heap
    const constants: EjsConstants
    var visited: set<nat>  // objects whose VISITED flag is set

    constructor (heap: Heap, constants: EjsConstants)
      ensures this.heap == heap && this.constants == constants && visited == {}
    {
      this.heap, this.constants, visited := heap, constants, {};
    }

    /** The pool may still grow, as it does until the module section is begun. */
    ghost predicate Ready()
      reads this, constants, constants.pool, constants.index
    {
      heap.Valid() && constants.Valid() && constants.Agrees() && !constants.locked
    }

    ghost function Pool(): set<CString>
      reads this, constants
    {
      SetOf(constants.strs)
    }

    ghost function Unvisited(): set<nat>
      reads this
    {
      set v: nat | v < |heap.objs| && v !in visited
    }

    /** ecAddNameConstant and ecAddStringConstant, for each string in turn. */
    method AddStrings(more: seq<CString>)
      requires Ready()
      modifies constants, constants.pool, constants.index
      ensures Ready()
      ensures Pool() == old(Pool()) + SetOf(more) && old(constants.strs) <= constants.strs
      ensures constants.pool == old(constants.pool) || fresh(constants.pool)
      ensures constants.index == old(constants.index) || fresh(constants.index)
    {
      hide SetOf, EjsConstants.Valid, EjsConstants.Agrees, Heap.Valid;
      SetOfEmpty();
      for i := 0 to |more|
        invariant Ready()
        invariant Pool() == old(Pool()) + SetOf(more[..i]) && old(constants.strs) <= constants.strs
        invariant constants.pool == old(constants.pool) || fresh(constants.pool)
        invariant constants.index == old(constants.index) || fresh(constants.index)
      {
        SetOfIntern(constants.strs, more[i]);
        var _ := constants.AddModuleConstant(more[i]);
        SetOfConcat(more[..i], [more[i]]);
        assert more[..i + 1] == more[..i] + [more[i]];
      }
      assert more[..|more|] == more;
    }

    /** ecAddFunctionConstants: the function property p of object v. */
    method AddFunctionConstants(v: nat, p: Member)
      requires Ready() && v < |heap.objs| && p in heap.objs[v].props && heap.HoldsFunction(v, p)
      modifies this`visited, constants, constants.pool, constants.index
      ensures Ready() && visited == old(visited)
      ensures Pool() == old(Pool()) + (SetOf(heap.FunStrings(p)) + heap.FoundBelow(visited, heap.PropNext(v, p)))
      ensures old(constants.strs) <= constants.strs
      ensures constants.pool == old(constants.pool) || fresh(constants.pool)
      ensures constants.index == old(constants.index) || fresh(constants.index)
      decreases Unvisited(), 1
    {
      hide SetOf, EjsConstants.Valid, EjsConstants.Agrees, Heap.Found, Heap.FoundBelow, Heap.FunStrings;
      var fun := p.value.value;
      heap.FunStep(visited, v, p);
      AddStrings(heap.FunStrings(p));
      AddConstants(fun);
      if heap.objs[fun].activation.Some? {
        AddConstants(heap.objs[fun].activation.value);
      }
    }

    /** The loop body of ecAddConstants, for the property p of object v. */
    method AddProperty(v: nat, p: Member)
      requires Ready() && v < |heap.objs| && p in heap.objs[v].props
      modifies this`visited, constants, constants.pool, constants.index
      ensures Ready() && visited == old(visited)
      ensures Pool() == old(Pool()) + (SetOf(heap.PropStrings(v, p)) + heap.FoundBelow(visited, heap.PropNext(v, p)))
      ensures old(constants.strs) <= constants.strs
      ensures constants.pool == old(constants.pool) || fresh(constants.pool)
      ensures constants.index == old(constants.index) || fresh(constants.index)
      decreases Unvisited(), 2
    {
      hide SetOf, EjsConstants.Valid, EjsConstants.Agrees, Heap.Found, Heap.FoundBelow, Heap.FunStrings, NameStrings;
      heap.PropParts(visited, v, p);
      AddStrings(NameStrings(Some(p.name)) + NameStrings(p.traitType));
      if heap.HoldsFunction(v, p) {
        AddFunctionConstants(v, p);
      } else if p.value.Some? && p.value.value != v && heap.objs[p.value.value].isBlock {
        AddConstants(p.value.value);
      }
    }

    /** ecAddConstants: everything reached from v without meeting an object on the current path. */
    method AddConstants(v: nat)
      requires Ready() && v < |heap.objs|
      modifies this`visited, constants, constants.pool, constants.index
      ensures Ready() && visited == old(visited)
      ensures Pool() == old(Pool()) + heap.Found(visited, v)
      ensures old(constants.strs) <= constants.strs
      ensures constants.pool == old(constants.pool) || fresh(constants.pool)
      ensures constants.index == old(constants.index) || fresh(constants.index)
      decreases Unvisited(), 0
    {
      hide SetOf, EjsConstants.Valid, EjsConstants.Agrees, Heap.Found, Heap.FoundBelow, Heap.StringsUpTo, Heap.NextUpTo;
      hide Heap.PropStrings, Heap.PropNext;
      if v in visited {
        heap.FoundMarked(visited, v);
        return;
      }
      ghost var marked := visited;
      visited := visited + {v};
      assert v in old(Unvisited()) && v !in Unvisited();
      heap.PropsStartAndEnd(visited, v);
      for i := 0 to |heap.objs[v].props|
        invariant Ready() && visited == marked + {v}
        invariant Pool() == old(Pool())
                            + (SetOf(heap.StringsUpTo(v, i)) + heap.FoundBelow(visited, heap.NextUpTo(v, i)))
        invariant old(constants.strs) <= constants.strs
        invariant constants.pool == old(constants.pool) || fresh(constants.pool)
        invariant constants.index == old(constants.index) || fresh(constants.index)
      {
        heap.PropStep(visited, v, i);
        AddProperty(v, heap.objs[v].props[i]);
      }
      visited := visited - {v};
      heap.PropsStartAndEnd(marked, v);
    }

    /** The end of genClass: the names and the text of a class, and what its type and its prototype hold. */
    method AddClassConstants(qname: Name, initializer: Option<Name>, base: Option<Name>, type_: nat, proto: Option<nat>,
                             doc: Option<CString>)
      requires Ready() && type_ < |heap.objs| && (proto.Some? ==> proto.value < |heap.objs|)
      modifies this`visited, constants, constants.pool, constants.index
      ensures Ready() && visited == old(visited)
      ensures Pool() == old(Pool())
                        + (SetOf(NameStrings(Some(qname)) + NameStrings(initializer) + NameStrings(base)
                                 + if heap.docs && doc.Some? then [doc.value] else [])
                           + heap.Found(visited, type_)
                           + if proto.Some? then heap.Found(visited, proto.value) else {})
      ensures old(constants.strs) <= constants.strs
    {
      hide SetOf, NameStrings, EjsConstants.Valid, EjsConstants.Agrees, Heap.Found;
      var names := NameStrings(Some(qname)) + NameStrings(initializer) + NameStrings(base);
      SetOfConcat(names, if heap.docs && doc.Some? then [doc.value] else []);
      SetOfEmpty();
      AddStrings(names);
      AddConstants(type_);
      if proto.Some? {
        AddConstants(proto.value);
      }
      if heap.docs && doc.Some? {
        AddStrings([doc.value]);
      }
    }
  }
}

/**
 The tag loop of the loader (loadSections in src/vm/ejsLoader.c) against the
 recursive section writer: the loop with its scope stack rebuilds the tree.
 */
module SectionLoop {
  import opened Bytes
  import opened NumberCodec
  import opened ConstantPool
  import opened GlobalRef
  import opened ModuleFormat
  import opened ModuleLoader

  // ------------------------------------------------------------- Scope stack

  datatype Opening = ClassScope(class_: ClassHeader) | FunScope(fun: FunHeader, code: Code) | BlockScope(block: BlockHeader)
  datatype Frame = Frame(open: Opening, items: seq<Section>)

  /** What was read at global level, and the scopes pushed on top of it. */
  datatype Scopes = Scopes(items: seq<Section>, open: seq<Frame>) {
    /** Sections read into the current block. */
    function Append(xs: seq<Section>): Scopes {
      if open == [] then Scopes(items + xs, open)
      else
        var last := |open| - 1;
        Scopes(items, open[last := Frame(open[last].open, open[last].items + xs)])
    }

    /** pushScope. */
    function Push(o: Opening): Scopes {
      Scopes(items, open + [Frame(o, [])])
    }

    /** popScope: what the popped scope holds becomes one section of the block below. */
    function Pop(): (st: Scopes)
      requires open != []
      ensures |st.open| == |open| - 1
    {
      var top := open[|open| - 1];
      Scopes(items, open[..|open| - 1]).Append([Close(top.open, top.items)])
    }

    /** What was read when the module or the file ends: every scope that is open holds what was put into it. */
    function CloseAll(): seq<Section>
      decreases |open|
    {
      if open == [] then items else Pop().CloseAll()
    }

    /** The code of the function read last, for its exception and debug records. */
    function WithCode(code: Code): Scopes
      requires open != [] && open[|open| - 1].open.FunScope?
    {
      var last := |open| - 1;
      Scopes(items, open[last := Frame(FunScope(open[last].open.fun, code), open[last].items)])
    }
  }

  function Close(o: Opening, items: seq<Section>): Section {
    match o
    case ClassScope(c) => Class(c, items)
    case FunScope(f, code) => Function(f, code, items)
    case BlockScope(b) => Block(b, items)
  }

  lemma AppendTwice(st: Scopes, xs: seq<Section>, ys: seq<Section>)
    ensures st.Append(xs).Append(ys) == st.Append(xs + ys)
  {
    assert st.items + xs + ys == st.items + (xs + ys);
    if st.open != [] {
      var items := st.open[|st.open| - 1].items;
      assert items + xs + ys == items + (xs + ys);
    }
  }

  lemma AppendNothing(st: Scopes)
    ensures st.Append([]) == st
  {
    assert st.items + [] == st.items;
    if st.open != [] {
      var last := |st.open| - 1;
      assert st.open[last].items + [] == st.open[last].items;
    }
  }

  /** A scope that was pushed, filled and popped leaves one section behind. */
  lemma PushFillPop(st: Scopes, o: Opening, xs: seq<Section>)
    ensures st.Push(o).Append(xs).open != []
    ensures st.Push(o).Append(xs).Pop() == st.Append([Close(o, xs)])
  {
    var top := st.Push(o).Append(xs);
    assert top.open == st.open + [Frame(o, [] + xs)];
    assert [] + xs == xs && top.open[..|top.open| - 1] == st.open;
    assert Scopes(st.items, st.open) == st;
  }

  /** A scope that is still open when the module or the file ends holds what was read into it. */
  lemma OpenAtEnd(st: Scopes, o: Opening, xs: seq<Section>)
    ensures st.Push(o).Append(xs).CloseAll() == st.Append([Close(o, xs)]).CloseAll()
  {
    PushFillPop(st, o, xs);
  }

  // ----------------------------------------------------------------- The loop

  /** One turn of the loop, for every tag that may stand inside a module. */
  function Step(strs: seq<CString>, s: seq<byte>, pos: nat, st: Scopes): (r: Option<(Scopes, nat)>)
    requires pos < |s|
    ensures r.Some? ==> pos < r.value.1 <= |s|
  {
    var tag := s[pos];
    if tag == SECT_CLASS_END || tag == SECT_FUNCTION_END || tag == SECT_BLOCK_END then
      if st.open == [] then None else Some((st.Pop(), pos + 1))
    else if tag == SECT_CLASS then
      match ReadClass(strs, s, pos + 1)
      case None => None
      case Some((c, next)) => Some((st.Push(ClassScope(c)), next))
    else if tag == SECT_FUNCTION then
      match ReadFunction(strs, s, pos + 1)
      case None => None
      case Some((f, code, next)) => Some((st.Push(FunScope(f, code)), next))
    else if tag == SECT_BLOCK then
      match ReadBlockHeader(strs, s, pos + 1)
      case None => None
      case Some((b, next)) => Some((st.Push(BlockScope(b)), next))
    else if tag == SECT_EXCEPTION || tag == SECT_DEBUG then StepCode(strs, s, pos, st)
    else match ReadLeaf(strs, s, pos)
         case None => None
         case Some((x, next)) => Some((st.Append([x]), next))
  }

  /** Sections without a scope of their own. */
  function ReadLeaf(strs: seq<CString>, s: seq<byte>, pos: nat): (r: Option<(Section, nat)>)
    requires pos < |s|
    ensures r.Some? ==> pos < r.value.1 <= |s|
  {
    if s[pos] == SECT_DEPENDENCY then
      ReadDependency(strs, s, pos + 1)
    else if s[pos] == SECT_PROPERTY then
      match ReadProperty(strs, s, pos + 1)
      case None => None
      case Some((p, next)) => Some((Property(p), next))
    else if s[pos] == SECT_DOC then
      match ReadConst(strs, s, pos + 1)
      case None => None
      case Some((text, next)) => Some((Doc(text), next))
    else None
  }

  /** loadExceptionSection and loadDebugSection, for the function read last. */
  function StepCode(strs: seq<CString>, s: seq<byte>, pos: nat, st: Scopes): (r: Option<(Scopes, nat)>)
    requires pos < |s|
    ensures r.Some? ==> pos < r.value.1 <= |s|
  {
    if st.open == [] || !st.open[|st.open| - 1].open.FunScope? || st.open[|st.open| - 1].open.code.NoCode? then None
    else
      var top := st.open[|st.open| - 1].open;
      if s[pos] == SECT_EXCEPTION then
        match ReadHandlers(strs, s, pos + 1, top.fun.numHandlers)
        case None => None
        case Some((hs, next)) => Some((st.WithCode(top.code.(handlers := hs)), next))
      else
        match ReadDebug(s, pos + 1)
        case None => None
        case Some((lines, next)) => Some((st.WithCode(top.code.(debug := Some(lines))), next))
  }

  datatype Outcome = Failed | Unended(items: seq<Section>) | Loaded(items: seq<Section>, end: nat)

  /**
   The loop from `pos` on, up to the end of the module, or of the file between
   two sections, which the loader takes for an end too.
   */
  function Run(strs: seq<CString>, s: seq<byte>, pos: nat, st: Scopes): Outcome
    decreases |s| - pos
  {
    if pos >= |s| then Unended(st.CloseAll())
    else if s[pos] == SECT_MODULE_END then
      Loaded(st.CloseAll(), pos + 1)
    else match Step(strs, s, pos, st)
         case None => Failed
         case Some((next, p)) => Run(strs, s, p, next)
  }

  /** loadSections after the module header. */
  method LoadSections(strs: seq<CString>, s: seq<byte>, start: nat) returns (r: Outcome)
    ensures r == Run(strs, s, start, Scopes([], []))
  {
    var pos, st := start, Scopes([], []);
    while pos < |s|
      invariant Run(strs, s, pos, st) == Run(strs, s, start, Scopes([], []))
      decreases |s| - pos
    {
      if s[pos] == SECT_MODULE_END {
        return Loaded(st.CloseAll(), pos + 1);
      }
      match Step(strs, s, pos, st) {
        case None => return Failed;
        case Some((next, p)) => pos, st := p, next;
      }
    }
    return Unended(st.CloseAll());
  }

  // -------------------------------------------------------- Writer and reader

  lemma LeafInverts(strs: seq<CString>, s: seq<byte>, pos: nat, x: Section)
    requires Small(strs) && Fits(strs, x) && At(s, pos, SectionBytes(strs, x))
    requires x.Dependency? || x.Doc? || x.Property?
    ensures pos < |s| && s[pos] != SECT_MODULE_END
    ensures forall st: Scopes :: Step(strs, s, pos, st) == Some((st.Append([x]), pos + |SectionBytes(strs, x)|))
  {
    hide ReadDependency, ReadProperty, ReadConst, DependencyBytes, PropBytes, EncodeNums;
    AtIndex(s, pos, SectionBytes(strs, x), 0);
    match x {
      case Dependency(_, _, _, _) =>
        AtConcat(s, pos, [SECT_DEPENDENCY], DependencyBytes(strs, x));
        ReadDependencyInverts(strs, s, pos + 1, x);
      case Doc(text) =>
        AtConcat(s, pos, [SECT_DOC], EncodeNums([Index(strs, text)]));
        ReadConstInverts(strs, s, pos + 1, text);
      case Property(p) =>
        AtConcat(s, pos, [SECT_PROPERTY], PropBytes(strs, p));
        ReadPropertyInverts(strs, s, pos + 1, p);
    }
  }

  lemma RunLeaf(strs: seq<CString>, s: seq<byte>, pos: nat, st: Scopes, x: Section)
    requires Small(strs) && Fits(strs, x) && At(s, pos, SectionBytes(strs, x))
    requires x.Dependency? || x.Doc? || x.Property?
    ensures Run(strs, s, pos, st) == Run(strs, s, pos + |SectionBytes(strs, x)|, st.Append([x]))
  {
    hide SectionBytes, Step, Fits;
    LeafInverts(strs, s, pos, x);
  }

  /** The exception and debug sections of a function fill in what its header left open. */
  lemma CodeTailInverts(strs: seq<CString>, s: seq<byte>, pos: nat, f: FunHeader, code: Code, st: Scopes)
    requires Small(strs) && CodeFits(strs, f, code) && At(s, pos, CodeTailBytes(strs, f, code))
    ensures Run(strs, s, pos, st.Push(FunScope(f, Bare(code))))
         == Run(strs, s, pos + |CodeTailBytes(strs, f, code)|, st.Push(FunScope(f, code)))
  {
    hide Run, ExceptionBytes, DebugSectionBytes;
    if code.Code? {
      var ex, db := ExceptionBytes(strs, code.handlers), DebugSectionBytes(code.debug);
      AtConcat(s, pos, ex, db);
      ExceptionInverts(strs, s, pos, f, code, st);
      DebugInverts(strs, s, pos + |ex|, f, code, st);
    }
  }

  /** A turn of the loop on an exception or debug section of the function read last. */
  lemma EnterCode(strs: seq<CString>, s: seq<byte>, pos: nat, f: FunHeader, code: Code, st: Scopes)
    requires code.Code? && pos < |s| && (s[pos] == SECT_EXCEPTION || s[pos] == SECT_DEBUG)
    ensures Run(strs, s, pos, st.Push(FunScope(f, code)))
         == if s[pos] == SECT_EXCEPTION then
              match ReadHandlers(strs, s, pos + 1, f.numHandlers)
              case None => Failed
              case Some((hs, next)) => Run(strs, s, next, st.Push(FunScope(f, code.(handlers := hs))))
            else
              match ReadDebug(s, pos + 1)
              case None => Failed
              case Some((lines, next)) => Run(strs, s, next, st.Push(FunScope(f, code.(debug := Some(lines)))))
  {
    hide ReadHandlers, ReadDebug;
    var open := st.Push(FunScope(f, code));
    forall c: Code ensures open.WithCode(c) == st.Push(FunScope(f, c)) {
      assert open.WithCode(c).open == st.open + [Frame(FunScope(f, c), [])];
    }
  }

  lemma ExceptionInverts(strs: seq<CString>, s: seq<byte>, pos: nat, f: FunHeader, code: Code, st: Scopes)
    requires Small(strs) && code.Code? && CodeFits(strs, f, code) && At(s, pos, ExceptionBytes(strs, code.handlers))
    ensures Run(strs, s, pos, st.Push(FunScope(f, Bare(code))))
         == Run(strs, s, pos + |ExceptionBytes(strs, code.handlers)|, st.Push(FunScope(f, code.(debug := None))))
  {
    hide Run, ReadHandlers, HandlersBytes;
    if code.handlers == [] {
      assert Bare(code) == code.(debug := None);
    } else {
      AtConcat(s, pos, [SECT_EXCEPTION], HandlersBytes(strs, code.handlers));
      AtIndex(s, pos, [SECT_EXCEPTION], 0);
      ReadHandlersInverts(strs, s, pos + 1, code.handlers);
      EnterCode(strs, s, pos, f, Bare(code), st);
      assert Bare(code).(handlers := code.handlers) == code.(debug := None);
    }
  }

  lemma DebugInverts(strs: seq<CString>, s: seq<byte>, pos: nat, f: FunHeader, code: Code, st: Scopes)
    requires code.Code? && CodeFits(strs, f, code) && At(s, pos, DebugSectionBytes(code.debug))
    ensures Run(strs, s, pos, st.Push(FunScope(f, code.(debug := None))))
         == Run(strs, s, pos + |DebugSectionBytes(code.debug)|, st.Push(FunScope(f, code)))
  {
    hide Run, ReadDebug, DebugBytes, EncodeWord;
    match code.debug {
      case None => assert code == code.(debug := None);
      case Some(lines) =>
        AtConcat(s, pos, [SECT_DEBUG], EncodeWord(|DebugBytes(lines)|) + DebugBytes(lines));
        AtIndex(s, pos, [SECT_DEBUG], 0);
        ReadDebugInverts(s, pos + 1, lines);
        EnterCode(strs, s, pos, f, code.(debug := None), st);
        assert code.(debug := None).(debug := Some(lines)) == code;
    }
  }

  lemma EndScope(strs: seq<CString>, s: seq<byte>, pos: nat, st: Scopes)
    requires pos < |s| && (s[pos] == SECT_CLASS_END || s[pos] == SECT_FUNCTION_END || s[pos] == SECT_BLOCK_END)
    requires st.open != []
    ensures Run(strs, s, pos, st) == Run(strs, s, pos + 1, st.Pop())
  {
  }

  /** From an opened scope: its sections, then its end tag. */
  lemma BodyInverts(strs: seq<CString>, s: seq<byte>, pos: nat, st: Scopes, o: Opening, body: seq<Section>, end: byte)
    requires Small(strs) && forall i :: 0 <= i < |body| ==> Fits(strs, body[i])
    requires end == SECT_CLASS_END || end == SECT_FUNCTION_END || end == SECT_BLOCK_END
    requires At(s, pos, SectionsBytes(strs, body) + [end])
    ensures Run(strs, s, pos, st.Push(o))
         == Run(strs, s, pos + |SectionsBytes(strs, body)| + 1, st.Append([Close(o, body)]))
    decreases body, 2
  {
    hide Run, SectionsBytes, Fits;
    var p := pos + |SectionsBytes(strs, body)|;
    AtConcat(s, pos, SectionsBytes(strs, body), [end]);
    AtIndex(s, p, [end], 0);
    SectionsInvert(strs, s, pos, st.Push(o), body);
    PushFillPop(st, o, body);
    EndScope(strs, s, p, st.Push(o).Append(body));
  }

  lemma EnterClass(strs: seq<CString>, s: seq<byte>, pos: nat, st: Scopes)
    requires pos < |s| && s[pos] == SECT_CLASS
    ensures Run(strs, s, pos, st)
         == match ReadClass(strs, s, pos + 1)
            case None => Failed
            case Some((c, next)) => Run(strs, s, next, st.Push(ClassScope(c)))
  {
    hide ReadClass;
  }

  lemma EnterBlock(strs: seq<CString>, s: seq<byte>, pos: nat, st: Scopes)
    requires pos < |s| && s[pos] == SECT_BLOCK
    ensures Run(strs, s, pos, st)
         == match ReadBlockHeader(strs, s, pos + 1)
            case None => Failed
            case Some((b, next)) => Run(strs, s, next, st.Push(BlockScope(b)))
  {
    hide ReadBlockHeader;
  }

  lemma EnterFunction(strs: seq<CString>, s: seq<byte>, pos: nat, st: Scopes)
    requires pos < |s| && s[pos] == SECT_FUNCTION
    ensures Run(strs, s, pos, st)
         == match ReadFunction(strs, s, pos + 1)
            case None => Failed
            case Some((f, code, next)) => Run(strs, s, next, st.Push(FunScope(f, code)))
  {
    hide ReadFunction;
  }

  /** The three headers that open a scope; `rest` is what was written behind the header. */
  lemma OpenClass(strs: seq<CString>, s: seq<byte>, pos: nat, st: Scopes, c: ClassHeader, rest: seq<byte>)
    requires Small(strs) && ClassFits(strs, c) && At(s, pos, [SECT_CLASS] + (ClassBytes(strs, c) + rest))
    ensures var p := pos + 1 + |ClassBytes(strs, c)|;
            At(s, p, rest) && Run(strs, s, pos, st) == Run(strs, s, p, st.Push(ClassScope(c)))
  {
    hide Run, ReadClass, ClassBytes;
    AtConcat(s, pos, [SECT_CLASS], ClassBytes(strs, c) + rest);
    AtConcat(s, pos + 1, ClassBytes(strs, c), rest);
    AtIndex(s, pos, [SECT_CLASS], 0);
    EnterClass(strs, s, pos, st);
    ReadClassInverts(strs, s, pos + 1, c);
  }

  lemma OpenBlock(strs: seq<CString>, s: seq<byte>, pos: nat, st: Scopes, b: BlockHeader, rest: seq<byte>)
    requires Small(strs) && b.name in strs && At(s, pos, [SECT_BLOCK] + (BlockBytes(strs, b) + rest))
    ensures var p := pos + 1 + |BlockBytes(strs, b)|;
            At(s, p, rest) && Run(strs, s, pos, st) == Run(strs, s, p, st.Push(BlockScope(b)))
  {
    hide Run, ReadBlockHeader, BlockBytes;
    AtConcat(s, pos, [SECT_BLOCK], BlockBytes(strs, b) + rest);
    AtConcat(s, pos + 1, BlockBytes(strs, b), rest);
    AtIndex(s, pos, [SECT_BLOCK], 0);
    EnterBlock(strs, s, pos, st);
    ReadBlockHeaderInverts(strs, s, pos + 1, b);
  }

  lemma OpenFunction(strs: seq<CString>, s: seq<byte>, pos: nat, st: Scopes, f: FunHeader, code: Code, rest: seq<byte>)
    requires Small(strs) && FunFits(strs, f) && CodeFits(strs, f, code)
    requires At(s, pos, [SECT_FUNCTION] + (FunBytes(strs, f, code) + rest))
    ensures var p := pos + 1 + |FunBytes(strs, f, code)|;
            && At(s, p, rest)
            && Run(strs, s, pos, st)
            == Run(strs, s, p, st.Push(FunScope(f, Bare(code))))
  {
    hide Run, ReadFunction, FunBytes;
    AtConcat(s, pos, [SECT_FUNCTION], FunBytes(strs, f, code) + rest);
    AtConcat(s, pos + 1, FunBytes(strs, f, code), rest);
    AtIndex(s, pos, [SECT_FUNCTION], 0);
    EnterFunction(strs, s, pos, st);
    ReadFunctionInverts(strs, s, pos + 1, f, code);
  }

  /**
   The loader's loop reads back one written section: it leaves it as the last
   section of the current block and goes on behind its bytes.
   */
  lemma {:induction false} SectionInverts(strs: seq<CString>, s: seq<byte>, pos: nat, st: Scopes, x: Section)
    requires Small(strs) && Fits(strs, x) && At(s, pos, SectionBytes(strs, x))
    ensures Run(strs, s, pos, st)
         == Run(strs, s, pos + |SectionBytes(strs, x)|, st.Append([x]))
    decreases x, 1
  {
    hide Run, SectionBytes, Fits;
    match x {
      case Class(c, body) => ClassInverts(strs, s, pos, st, c, body);
      case Block(b, body) => BlockInverts(strs, s, pos, st, b, body);
      case Function(f, code, body) => FunctionInverts(strs, s, pos, st, f, code, body);
      case _ => RunLeaf(strs, s, pos, st, x);
    }
  }

  lemma ClassInverts(strs: seq<CString>, s: seq<byte>, pos: nat, st: Scopes, c: ClassHeader, body: seq<Section>)
    requires Small(strs) && Fits(strs, Class(c, body)) && At(s, pos, SectionBytes(strs, Class(c, body)))
    ensures Run(strs, s, pos, st)
         == Run(strs, s, pos + |SectionBytes(strs, Class(c, body))|, st.Append([Class(c, body)]))
    decreases body, 3
  {
    hide Run, ClassBytes, SectionsBytes;
    OpenClass(strs, s, pos, st, c, SectionsBytes(strs, body) + [SECT_CLASS_END]);
    BodyInverts(strs, s, pos + 1 + |ClassBytes(strs, c)|, st, ClassScope(c), body, SECT_CLASS_END);
  }

  lemma BlockInverts(strs: seq<CString>, s: seq<byte>, pos: nat, st: Scopes, b: BlockHeader, body: seq<Section>)
    requires Small(strs) && Fits(strs, Block(b, body)) && At(s, pos, SectionBytes(strs, Block(b, body)))
    ensures Run(strs, s, pos, st)
         == Run(strs, s, pos + |SectionBytes(strs, Block(b, body))|, st.Append([Block(b, body)]))
    decreases body, 3
  {
    hide Run, BlockBytes, SectionsBytes;
    OpenBlock(strs, s, pos, st, b, SectionsBytes(strs, body) + [SECT_BLOCK_END]);
    BodyInverts(strs, s, pos + 1 + |BlockBytes(strs, b)|, st, BlockScope(b), body, SECT_BLOCK_END);
  }

  lemma FunctionInverts(strs: seq<CString>, s: seq<byte>, pos: nat, st: Scopes,
                        f: FunHeader, code: Code, body: seq<Section>)
    requires Small(strs) && Fits(strs, Function(f, code, body))
    requires At(s, pos, SectionBytes(strs, Function(f, code, body)))
    ensures Run(strs, s, pos, st)
         == Run(strs, s, pos + |SectionBytes(strs, Function(f, code, body))|, st.Append([Function(f, code, body)]))
    decreases body, 3
  {
    hide Run, FunBytes, CodeTailBytes, SectionsBytes;
    var rest := SectionsBytes(strs, body) + [SECT_FUNCTION_END];
    var tail := CodeTailBytes(strs, f, code);
    var p := pos + 1 + |FunBytes(strs, f, code)|;
    OpenFunction(strs, s, pos, st, f, code, tail + rest);
    AtConcat(s, p, tail, rest);
    CodeTailInverts(strs, s, p, f, code, st);
    BodyInverts(strs, s, p + |tail|, st, FunScope(f, code), body, SECT_FUNCTION_END);
  }

  lemma {:induction false} SectionsInvert(strs: seq<CString>, s: seq<byte>, pos: nat, st: Scopes, xs: seq<Section>)
    requires Small(strs) && forall i :: 0 <= i < |xs| ==> Fits(strs, xs[i])
    requires At(s, pos, SectionsBytes(strs, xs))
    ensures Run(strs, s, pos, st)
         == Run(strs, s, pos + |SectionsBytes(strs, xs)|, st.Append(xs))
    decreases xs, 1
  {
    hide Run, SectionBytes;
    if xs == [] {
      AppendNothing(st);
    } else {
      assert xs == [xs[0]] + xs[1..];
      AtConcat(s, pos, SectionBytes(strs, xs[0]), SectionsBytes(strs, xs[1..]));
      SectionInverts(strs, s, pos, st, xs[0]);
      SectionsInvert(strs, s, pos + |SectionBytes(strs, xs[0])|, st.Append([xs[0]]), xs[1..]);
      AppendTwice(st, [xs[0]], xs[1..]);
    }
  }
}

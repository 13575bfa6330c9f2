/**
 The module loader (src/vm/ejsLoader.c): a flat loop over section tags that
 keeps a stack of open scopes. Every record reader is paired with a lemma that
 it recovers what the writer emits and stops exactly behind it.
 */
module ModuleLoader {
  import opened AttributeBits
  import opened Bytes
  import opened NumberCodec
  import opened ConstantPool
  import opened GlobalRef
  import opened ModuleFormat

  // ---------------------------------------------------------- Record readers

  function ReadBlock(s: seq<byte>, pos: nat, len: nat): Option<(seq<byte>, nat)> {
    if pos + len <= |s| then Some((s[pos..pos + len], pos + len)) else None
  }

  /** Numbers, then a reference: the opening of most records. */
  function ReadNumsRef(strs: seq<CString>, s: seq<byte>, pos: nat, count: nat): (r: Option<(seq<int32>, Ref, nat)>)
    requires pos <= |s|
    ensures r.Some? ==> |r.value.0| == count && pos < r.value.2 <= |s|
  {
    match ReadNums(s, pos, count, true)
    case None => None
    case Some((ns, next)) =>
      match ReadRef(strs, s, next, true)
      case None => None
      case Some((ref, end)) => Some((ns, ref, end))
  }

  lemma ReadNumsRefInverts(strs: seq<CString>, s: seq<byte>, pos: nat, ns: seq<int32>, ref: Ref)
    requires Small(strs) && Writable(strs, ref) && At(s, pos, EncodeNums(ns) + EncodeRef(strs, ref))
    ensures ReadNumsRef(strs, s, pos, |ns|)
         == Some((ns, ref, pos + |EncodeNums(ns) + EncodeRef(strs, ref)|))
  {
    hide ReadNums, ReadRef, EncodeNums, EncodeRef;
    AtConcat(s, pos, EncodeNums(ns), EncodeRef(strs, ref));
    ReadNumsInverts(s, pos, ns, true);
    ReadRefInverts(strs, s, pos + |EncodeNums(ns)|, ref, true);
  }

  function ReadHandler(strs: seq<CString>, s: seq<byte>, pos: nat): (r: Option<(Handler, nat)>)
    ensures r.Some? ==> pos < r.value.1 <= |s|
  {
    if pos >= |s| then None
    else match ReadNumsRef(strs, s, pos + 1, 6)
         case None => None
         case Some((ns, ref, end)) => Some((Handler(s[pos], ns[0], ns[1], ns[2], ns[3], ns[4], ns[5], ref), end))
  }

  lemma ReadHandlerInverts(strs: seq<CString>, s: seq<byte>, pos: nat, h: Handler)
    requires Small(strs) && HandlerFits(strs, h) && At(s, pos, HandlerBytes(strs, h))
    ensures ReadHandler(strs, s, pos) == Some((h, pos + |HandlerBytes(strs, h)|))
  {
    hide ReadNumsRef, EncodeNums, EncodeRef;
    var ns := [h.tryStart, h.tryEnd, h.handlerStart, h.handlerEnd, h.numBlocks, h.numStack];
    AtConcat(s, pos, [h.flags], EncodeNums(ns) + EncodeRef(strs, h.catchType));
    ReadNumsRefInverts(strs, s, pos + 1, ns, h.catchType);
    AtIndex(s, pos, [h.flags], 0);
  }

  function ReadHandlers(strs: seq<CString>, s: seq<byte>, pos: nat, count: int): (r: Option<(seq<Handler>, nat)>)
    requires pos <= |s|
    ensures r.Some? ==> pos <= r.value.1 <= |s|
    decreases count
  {
    if count <= 0 then Some(([], pos))
    else match ReadHandler(strs, s, pos)
         case None => None
         case Some((h, next)) =>
           match ReadHandlers(strs, s, next, count - 1)
           case None => None
           case Some((hs, end)) => Some(([h] + hs, end))
  }

  lemma {:induction false} ReadHandlersInverts(strs: seq<CString>, s: seq<byte>, pos: nat, hs: seq<Handler>)
    requires Small(strs) && forall i :: 0 <= i < |hs| ==> HandlerFits(strs, hs[i])
    requires At(s, pos, HandlersBytes(strs, hs))
    ensures ReadHandlers(strs, s, pos, |hs|) == Some((hs, pos + |HandlersBytes(strs, hs)|))
    decreases |hs|
  {
    hide ReadHandler, HandlerBytes;
    if hs != [] {
      assert hs == [hs[0]] + hs[1..];
      AtConcat(s, pos, HandlerBytes(strs, hs[0]), HandlersBytes(strs, hs[1..]));
      ReadHandlerInverts(strs, s, pos, hs[0]);
      ReadHandlersInverts(strs, s, pos + |HandlerBytes(strs, hs[0])|, hs[1..]);
    }
  }

  function ReadRefs(strs: seq<CString>, s: seq<byte>, pos: nat, count: int): (r: Option<(seq<Ref>, nat)>)
    requires pos <= |s|
    ensures r.Some? ==> pos <= r.value.1 <= |s|
    decreases count
  {
    if count <= 0 then Some(([], pos))
    else match ReadRef(strs, s, pos, true)
         case None => None
         case Some((ref, next)) =>
           match ReadRefs(strs, s, next, count - 1)
           case None => None
           case Some((refs, end)) => Some(([ref] + refs, end))
  }

  lemma {:induction false} ReadRefsInverts(strs: seq<CString>, s: seq<byte>, pos: nat, refs: seq<Ref>)
    requires Small(strs) && forall i :: 0 <= i < |refs| ==> Writable(strs, refs[i])
    requires At(s, pos, RefsBytes(strs, refs))
    ensures ReadRefs(strs, s, pos, |refs|) == Some((refs, pos + |RefsBytes(strs, refs)|))
    decreases |refs|
  {
    hide ReadRef, EncodeRef;
    if refs != [] {
      assert refs == [refs[0]] + refs[1..];
      AtConcat(s, pos, EncodeRef(strs, refs[0]), RefsBytes(strs, refs[1..]));
      ReadRefInverts(strs, s, pos, refs[0], true);
      ReadRefsInverts(strs, s, pos + |EncodeRef(strs, refs[0])|, refs[1..]);
    }
  }

  /** ejsModuleReadMultiAsWide: a length, that many bytes, the C string among them. */
  function ReadMulti(s: seq<byte>, pos: nat): (r: Option<(CString, nat)>)
    ensures r.Some? ==> pos < r.value.1 <= |s|
  {
    match ReadInt(s, pos, true)
    case None => None
    case Some((len, next)) =>
      if len < 0 || next + len > |s| then None
      else Some((UpToNul(s[next..next + len]), next + len))
  }

  function UpToNul(s: seq<byte>): CString {
    StringAtNoNul(s, 0);
    StringAt(s, 0)
  }

  lemma ReadMultiInverts(s: seq<byte>, pos: nat, str: CString)
    requires |str| + 1 < TWO_31 && At(s, pos, MultiBytes(str))
    ensures ReadMulti(s, pos) == Some((str, pos + |MultiBytes(str)|))
  {
    hide EncodeNum, ReadInt;
    AtConcat(s, pos, EncodeNum(|str| + 1), str + [0]);
    ReadIntInverts(s, pos, |str| + 1, true);
    StrLenAt(str + [0], 0, str);
  }

  function ReadLines(s: seq<byte>, pos: nat, count: int): (r: Option<(seq<DebugLine>, nat)>)
    requires pos <= |s|
    decreases count
  {
    if count <= 0 then Some(([], pos))
    else match ReadInt(s, pos, true)
         case None => None
         case Some((offset, next)) =>
           match ReadMulti(s, next)
           case None => None
           case Some((source, after)) =>
             match ReadLines(s, after, count - 1)
             case None => None
             case Some((lines, end)) => Some(([DebugLine(offset, source)] + lines, end))
  }

  lemma {:induction false} ReadLinesInverts(s: seq<byte>, pos: nat, lines: seq<DebugLine>)
    requires forall i :: 0 <= i < |lines| ==> |lines[i].source| + 1 < TWO_31
    requires At(s, pos, LinesBytes(lines))
    ensures ReadLines(s, pos, |lines|) == Some((lines, pos + |LinesBytes(lines)|))
    decreases |lines|
  {
    hide EncodeNum, ReadInt, ReadMulti, MultiBytes;
    if lines != [] {
      var line := lines[0];
      var head := EncodeNum(line.offset) + MultiBytes(line.source);
      assert lines == [line] + lines[1..];
      AtConcat(s, pos, head, LinesBytes(lines[1..]));
      AtConcat(s, pos, EncodeNum(line.offset), MultiBytes(line.source));
      ReadIntInverts(s, pos, line.offset, true);
      ReadMultiInverts(s, pos + |EncodeNum(line.offset)|, line.source);
      ReadLinesInverts(s, pos + |head|, lines[1..]);
    }
  }

  /** loadDebug: the records at a remembered offset. */
  function LoadDebug(s: seq<byte>, pos: nat): Option<(seq<DebugLine>, nat)> {
    match ReadInt(s, pos, true)
    case None => None
    case Some((count, next)) => ReadLines(s, next, count)
  }

  lemma LoadDebugInverts(s: seq<byte>, pos: nat, lines: seq<DebugLine>)
    requires LinesFit(lines) && At(s, pos, DebugBytes(lines))
    ensures LoadDebug(s, pos) == Some((lines, pos + |DebugBytes(lines)|))
  {
    hide EncodeNum, ReadInt, ReadLines, LinesBytes;
    AtConcat(s, pos, EncodeNum(|lines|), LinesBytes(lines));
    ReadIntInverts(s, pos, |lines|, true);
    ReadLinesInverts(s, pos + |EncodeNum(|lines|)|, lines);
  }

  /**
   loadDebugSection: the size word says how far to skip; the records are read on
   demand from the offset behind it, here together with the skip.
   */
  function ReadDebug(s: seq<byte>, pos: nat): (r: Option<(seq<DebugLine>, nat)>)
    ensures r.Some? ==> pos < r.value.1 <= |s|
  {
    match ReadWord(s, pos)
    case None => None
    case Some((size, next)) =>
      match LoadDebug(s, next)
      case None => None
      case Some((lines, _)) =>
        if size < 0 || next + size > |s| then None else Some((lines, next + size))
  }

  /** The patched size makes the skip land exactly behind the debug section. */
  lemma ReadDebugInverts(s: seq<byte>, pos: nat, lines: seq<DebugLine>)
    requires LinesFit(lines)
    requires At(s, pos, EncodeWord(|DebugBytes(lines)|) + DebugBytes(lines))
    ensures ReadDebug(s, pos) == Some((lines, pos + 4 + |DebugBytes(lines)|))
  {
    hide LoadDebug, DebugBytes;
    AtConcat(s, pos, EncodeWord(|DebugBytes(lines)|), DebugBytes(lines));
    ReadWordInverts(s, pos, |DebugBytes(lines)|);
    LoadDebugInverts(s, pos + 4, lines);
  }

  /** A qualified name from two string constants. */
  function NameFromConst(strs: seq<CString>, i: int, j: int): Option<Name> {
    match (StringFromConst(strs, i), StringFromConst(strs, j))
    case (Some(name), Some(space)) => Some(Name(name, space))
    case _ => None
  }

  function ReadDependency(strs: seq<CString>, s: seq<byte>, pos: nat): (r: Option<(Section, nat)>)
    requires pos <= |s|
    ensures r.Some? ==> pos <= r.value.1 <= |s|
  {
    match ReadNums(s, pos, 4, true)
    case None => None
    case Some((ns, next)) =>
      match StringFromConst(strs, ns[0])
      case None => None
      case Some(name) => Some((Dependency(name, ns[1], ns[2], ns[3]), next))
  }

  lemma ReadDependencyInverts(strs: seq<CString>, s: seq<byte>, pos: nat, x: Section)
    requires Small(strs) && x.Dependency? && Fits(strs, x) && At(s, pos, DependencyBytes(strs, x))
    ensures ReadDependency(strs, s, pos) == Some((x, pos + |DependencyBytes(strs, x)|))
  {
    hide ReadNums, EncodeNums;
    ReadNumsInverts(s, pos, [Index(strs, x.name), x.checksum, x.minVersion, x.maxVersion], true);
  }

  function ReadClass(strs: seq<CString>, s: seq<byte>, pos: nat): (r: Option<(ClassHeader, nat)>)
    requires pos <= |s|
    ensures r.Some? ==> pos < r.value.1 <= |s|
  {
    match ReadNumsRef(strs, s, pos, 4)
    case None => None
    case Some((ns, base, next)) =>
      match (NameFromConst(strs, ns[0], ns[1]), ReadNums(s, next, 3, true))
      case (Some(qname), Some((ms, after))) =>
        (match ReadRefs(strs, s, after, ms[2])
         case None => None
         case Some((refs, end)) => Some((ClassHeader(qname, ns[2], ns[3], base, ms[0], ms[1], refs), end)))
      case _ => None
  }

  lemma ReadClassInverts(strs: seq<CString>, s: seq<byte>, pos: nat, c: ClassHeader)
    requires Small(strs) && ClassFits(strs, c) && At(s, pos, ClassBytes(strs, c))
    ensures ReadClass(strs, s, pos) == Some((c, pos + |ClassBytes(strs, c)|))
  {
    hide ReadNums, EncodeNums, EncodeRef, ReadNumsRef, ReadRefs, RefsBytes;
    var ns := [Index(strs, c.qname.name), Index(strs, c.qname.space), c.attributes, c.slot];
    var ms := [c.numTypeProp, c.numInstanceProp, |c.interfaces|];
    var head := EncodeNums(ns) + EncodeRef(strs, c.base);
    var tail := EncodeNums(ms) + RefsBytes(strs, c.interfaces);
    assert ClassBytes(strs, c) == head + tail;
    AtConcat(s, pos, head, tail);
    AtConcat(s, pos + |head|, EncodeNums(ms), RefsBytes(strs, c.interfaces));
    ReadNumsRefInverts(strs, s, pos, ns, c.base);
    ReadNumsInverts(s, pos + |head|, ms, true);
    ReadRefsInverts(strs, s, pos + |head| + |EncodeNums(ms)|, c.interfaces);
  }

  function ReadFunction(strs: seq<CString>, s: seq<byte>, pos: nat): (r: Option<(FunHeader, Code, nat)>)
    requires pos <= |s|
    ensures r.Some? ==> pos < r.value.2 <= |s|
  {
    match ReadNums(s, pos, 3, true)
    case None => None
    case Some((ns, p)) =>
      if p >= |s| then None
      else
        match (NameFromConst(strs, ns[0], ns[1]), ReadRef(strs, s, p + 1, true))
        case (Some(qname), Some((result, q))) => ReadFunctionRest(s, q, qname, ns[2], s[p], result)
        case _ => None
  }

  function ReadFunctionRest(s: seq<byte>, q: nat, qname: Name, attributes: int32, strict: byte, result: Ref)
      : (r: Option<(FunHeader, Code, nat)>)
    requires q <= |s|
    ensures r.Some? ==> q <= r.value.2 <= |s|
  {
    match ReadNums(s, q, 6, true)
    case None => None
    case Some((ms, end)) =>
      var fun := FunHeader(qname, attributes, strict, result, ms[0], ms[1], ms[2], ms[3], ms[4]);
      if ms[5] <= 0 then Some((fun, NoCode, end))
      else match ReadBlock(s, end, ms[5])
           case None => None
           case Some((bytes, after)) => Some((fun, Code(bytes, [], None), after))
  }

  /** What is known of a body when only its byte code was read. */
  function Bare(code: Code): Code {
    if code.NoCode? then NoCode else Code(code.bytes, [], None)
  }

  lemma ReadFunctionRestInverts(strs: seq<CString>, s: seq<byte>, q: nat, f: FunHeader, code: Code)
    requires CodeFits(strs, f, code)
    requires At(s, q, EncodeNums([f.slot, f.numProp, f.numArgs, f.numDefault, f.numHandlers, CodeLen(code)])
                      + if code.NoCode? then [] else code.bytes)
    ensures var len := |EncodeNums([f.slot, f.numProp, f.numArgs, f.numDefault, f.numHandlers, CodeLen(code)])|
                       + CodeLen(code);
            ReadFunctionRest(s, q, f.qname, f.attributes, f.strict, f.resultType)
            == Some((f, Bare(code), q + len))
  {
    hide ReadNums, EncodeNums;
    var ms := [f.slot, f.numProp, f.numArgs, f.numDefault, f.numHandlers, CodeLen(code)];
    AtConcat(s, q, EncodeNums(ms), if code.NoCode? then [] else code.bytes);
    ReadNumsInverts(s, q, ms, true);
  }

  lemma ReadFunctionInverts(strs: seq<CString>, s: seq<byte>, pos: nat, f: FunHeader, code: Code)
    requires Small(strs) && FunFits(strs, f) && CodeFits(strs, f, code) && At(s, pos, FunBytes(strs, f, code))
    ensures ReadFunction(strs, s, pos) == Some((f, Bare(code), pos + |FunBytes(strs, f, code)|))
  {
    hide ReadNums, EncodeNums, EncodeRef, ReadRef, ReadFunctionRest;
    var ns := [Index(strs, f.qname.name), Index(strs, f.qname.space), f.attributes];
    var rest := EncodeNums([f.slot, f.numProp, f.numArgs, f.numDefault, f.numHandlers, CodeLen(code)])
                + if code.NoCode? then [] else code.bytes;
    var p := pos + |EncodeNums(ns)|;
    AtConcat(s, pos, EncodeNums(ns), [f.strict] + (EncodeRef(strs, f.resultType) + rest));
    AtConcat(s, p, [f.strict], EncodeRef(strs, f.resultType) + rest);
    AtConcat(s, p + 1, EncodeRef(strs, f.resultType), rest);
    AtIndex(s, p, [f.strict], 0);
    ReadNumsInverts(s, pos, ns, true);
    ReadRefInverts(strs, s, p + 1, f.resultType, true);
    ReadFunctionRestInverts(strs, s, p + 1 + |EncodeRef(strs, f.resultType)|, f, code);
  }

  function ReadBlockHeader(strs: seq<CString>, s: seq<byte>, pos: nat): (r: Option<(BlockHeader, nat)>)
    requires pos <= |s|
    ensures r.Some? ==> pos <= r.value.1 <= |s|
  {
    match ReadNums(s, pos, 3, true)
    case None => None
    case Some((ns, next)) =>
      match StringFromConst(strs, ns[0])
      case None => None
      case Some(name) => Some((BlockHeader(name, ns[1], ns[2]), next))
  }

  lemma ReadBlockHeaderInverts(strs: seq<CString>, s: seq<byte>, pos: nat, b: BlockHeader)
    requires Small(strs) && b.name in strs && At(s, pos, BlockBytes(strs, b))
    ensures ReadBlockHeader(strs, s, pos) == Some((b, pos + |BlockBytes(strs, b)|))
  {
    hide ReadNums, EncodeNums;
    ReadNumsInverts(s, pos, [Index(strs, b.name), b.slot, b.numProp], true);
  }

  /** ejsModuleReadConst. */
  function ReadConst(strs: seq<CString>, s: seq<byte>, pos: nat): (r: Option<(CString, nat)>)
    requires pos <= |s|
    ensures r.Some? ==> pos <= r.value.1 <= |s|
  {
    match ReadNums(s, pos, 1, true)
    case None => None
    case Some((ns, next)) =>
      match StringFromConst(strs, ns[0])
      case None => None
      case Some(str) => Some((str, next))
  }

  lemma ReadConstInverts(strs: seq<CString>, s: seq<byte>, pos: nat, str: CString)
    requires Small(strs) && str in strs && At(s, pos, EncodeNums([Index(strs, str)]))
    ensures ReadConst(strs, s, pos) == Some((str, pos + |EncodeNums([Index(strs, str)])|))
  {
    hide ReadNums, EncodeNums;
    ReadNumsInverts(s, pos, [Index(strs, str)], true);
  }

  function ReadProperty(strs: seq<CString>, s: seq<byte>, pos: nat): (r: Option<(PropHeader, nat)>)
    requires pos <= |s|
    ensures r.Some? ==> pos < r.value.1 <= |s|
  {
    match ReadNumsRef(strs, s, pos, 4)
    case None => None
    case Some((ns, ptype, next)) =>
      match NameFromConst(strs, ns[0], ns[1])
      case None => None
      case Some(qname) =>
        if !HasBit(ns[2], PROP_HAS_VALUE) then Some((PropHeader(qname, ns[2], ns[3], ptype, None), next))
        else match ReadConst(strs, s, next)
             case None => None
             case Some((value, end)) => Some((PropHeader(qname, ns[2], ns[3], ptype, Some(value)), end))
  }

  lemma ReadPropertyInverts(strs: seq<CString>, s: seq<byte>, pos: nat, p: PropHeader)
    requires Small(strs) && PropFits(strs, p) && At(s, pos, PropBytes(strs, p))
    ensures ReadProperty(strs, s, pos) == Some((p, pos + |PropBytes(strs, p)|))
  {
    hide ReadNumsRef, ReadConst, EncodeNums, EncodeRef, HasBit, At, IndexOf, Writable;
    var ns := [Index(strs, p.qname.name), Index(strs, p.qname.space), p.attributes, p.slot];
    var head := EncodeNums(ns) + EncodeRef(strs, p.ptype);
    assert PropBytes(strs, p) == head + ValueBytes(strs, p.value);
    AtConcat(s, pos, head, ValueBytes(strs, p.value));
    ReadNumsRefInverts(strs, s, pos, ns, p.ptype);
    if p.value.Some? {
      ReadConstInverts(strs, s, pos + |head|, p.value.value);
    }
  }
}

/**
 The section tree of a module file and its bytes, field by field in the order
 the writer emits them (src/compiler/ecModuleWrite.c). Section tags and
 attribute bits are those of src/ejs.h.
 */
module ModuleFormat {
  import opened AttributeBits
  import opened Bytes
  import opened NumberCodec
  import opened ConstantPool
  import opened GlobalRef

  const SECT_MODULE: byte := 1
  const SECT_MODULE_END: byte := 2
  const SECT_DEBUG: byte := 3
  const SECT_DEPENDENCY: byte := 4
  const SECT_CLASS: byte := 5
  const SECT_CLASS_END: byte := 6
  const SECT_FUNCTION: byte := 7
  const SECT_FUNCTION_END: byte := 8
  const SECT_BLOCK: byte := 9
  const SECT_BLOCK_END: byte := 10
  const SECT_PROPERTY: byte := 11
  const SECT_EXCEPTION: byte := 12
  const SECT_DOC: byte := 13


  // ----------------------------------------------------------------- Records

  datatype Handler = Handler(flags: byte, tryStart: int32, tryEnd: int32, handlerStart: int32, handlerEnd: int32,
                             numBlocks: int32, numStack: int32, catchType: Ref)

  datatype DebugLine = DebugLine(offset: int32, source: CString)

  /** A function body: none, or byte code with its exception and debug records. */
  datatype Code = NoCode | Code(bytes: seq<byte>, handlers: seq<Handler>, debug: Option<seq<DebugLine>>)

  datatype FunHeader = FunHeader(qname: Name, attributes: int32, strict: byte, resultType: Ref, slot: int32,
                                 numProp: int32, numArgs: int32, numDefault: int32, numHandlers: int32)

  datatype ClassHeader = ClassHeader(qname: Name, attributes: int32, slot: int32, base: Ref,
                                     numTypeProp: int32, numInstanceProp: int32, interfaces: seq<Ref>)

  datatype BlockHeader = BlockHeader(name: CString, slot: int32, numProp: int32)

  datatype PropHeader = PropHeader(qname: Name, attributes: int32, slot: int32, ptype: Ref, value: Option<CString>)

  datatype Section =
    | Dependency(name: CString, checksum: int32, minVersion: int32, maxVersion: int32)
    | Doc(text: CString)
    | Class(class_: ClassHeader, body: seq<Section>)
    | Function(fun: FunHeader, code: Code, body: seq<Section>)
    | Block(block: BlockHeader, body: seq<Section>)
    | Property(prop: PropHeader)

  // ----------------------------------------------------- What can be written

  ghost predicate HandlerFits(strs: seq<CString>, h: Handler) {
    Writable(strs, h.catchType)
  }

  ghost predicate LinesFit(lines: seq<DebugLine>) {
    && |lines| < TWO_31
    && (forall i :: 0 <= i < |lines| ==> |lines[i].source| + 1 < TWO_31)
    && |DebugBytes(lines)| <= ENCODE_MAX_WORD
  }

  ghost predicate CodeFits(strs: seq<CString>, fun: FunHeader, code: Code) {
    match code
    case NoCode => fun.numHandlers == 0
    case Code(bytes, handlers, debug) =>
      && 0 < |bytes| < TWO_31
      && fun.numHandlers == |handlers|
      && (forall i :: 0 <= i < |handlers| ==> HandlerFits(strs, handlers[i]))
      && (debug.Some? ==> LinesFit(debug.value))
  }

  ghost predicate ClassFits(strs: seq<CString>, c: ClassHeader) {
    && HasName(strs, c.qname) && Writable(strs, c.base)
    && |c.interfaces| < TWO_31
    && forall i :: 0 <= i < |c.interfaces| ==> Writable(strs, c.interfaces[i])
  }

  ghost predicate FunFits(strs: seq<CString>, f: FunHeader) {
    HasName(strs, f.qname) && Writable(strs, f.resultType)
  }

  ghost predicate PropFits(strs: seq<CString>, p: PropHeader) {
    && HasName(strs, p.qname) && Writable(strs, p.ptype)
    && (p.value.Some? <==> HasBit(p.attributes, PROP_HAS_VALUE))
    && (p.value.Some? ==> p.value.value in strs)
  }

  /** Every string is in the pool and every length fits its field. */
  ghost predicate Fits(strs: seq<CString>, x: Section)
    decreases x
  {
    match x
    case Dependency(name, _, _, _) => name in strs
    case Doc(text) => text in strs
    case Class(c, body) => ClassFits(strs, c) && forall i :: 0 <= i < |body| ==> Fits(strs, body[i])
    case Function(f, code, body) =>
      FunFits(strs, f) && CodeFits(strs, f, code) && forall i :: 0 <= i < |body| ==> Fits(strs, body[i])
    case Block(b, body) => b.name in strs && forall i :: 0 <= i < |body| ==> Fits(strs, body[i])
    case Property(p) => PropFits(strs, p)
  }

  // --------------------------------------------------------------- The bytes

  function HandlerBytes(strs: seq<CString>, h: Handler): seq<byte>
    requires Small(strs) && HandlerFits(strs, h)
  {
    [h.flags]
    + (EncodeNums([h.tryStart, h.tryEnd, h.handlerStart, h.handlerEnd, h.numBlocks, h.numStack])
       + EncodeRef(strs, h.catchType))
  }

  function HandlersBytes(strs: seq<CString>, hs: seq<Handler>): seq<byte>
    requires Small(strs) && forall i :: 0 <= i < |hs| ==> HandlerFits(strs, hs[i])
  {
    if hs == [] then [] else HandlerBytes(strs, hs[0]) + HandlersBytes(strs, hs[1..])
  }

  /** ecEncodeWideAsMulti: the length with the NUL, then the string and the NUL. */
  function MultiBytes(str: CString): seq<byte> {
    EncodeNum(|str| + 1) + (str + [0])
  }

  function LinesBytes(lines: seq<DebugLine>): seq<byte> {
    if lines == [] then []
    else (EncodeNum(lines[0].offset) + MultiBytes(lines[0].source)) + LinesBytes(lines[1..])
  }

  /** The debug records, whose size precedes them in four bytes. */
  function DebugBytes(lines: seq<DebugLine>): seq<byte> {
    EncodeNum(|lines|) + LinesBytes(lines)
  }

  function RefsBytes(strs: seq<CString>, refs: seq<Ref>): seq<byte>
    requires Small(strs) && forall i :: 0 <= i < |refs| ==> Writable(strs, refs[i])
  {
    if refs == [] then [] else EncodeRef(strs, refs[0]) + RefsBytes(strs, refs[1..])
  }

  function DependencyBytes(strs: seq<CString>, x: Section): seq<byte>
    requires Small(strs) && x.Dependency? && Fits(strs, x)
  {
    EncodeNums([Index(strs, x.name), x.checksum, x.minVersion, x.maxVersion])
  }

  function ClassBytes(strs: seq<CString>, c: ClassHeader): seq<byte>
    requires Small(strs) && ClassFits(strs, c)
  {
    EncodeNums([Index(strs, c.qname.name), Index(strs, c.qname.space), c.attributes, c.slot])
    + (EncodeRef(strs, c.base)
       + (EncodeNums([c.numTypeProp, c.numInstanceProp, |c.interfaces|])
          + RefsBytes(strs, c.interfaces)))
  }

  function CodeLen(code: Code): int {
    if code.NoCode? then 0 else |code.bytes|
  }

  function FunBytes(strs: seq<CString>, f: FunHeader, code: Code): seq<byte>
    requires Small(strs) && FunFits(strs, f) && CodeFits(strs, f, code)
  {
    EncodeNums([Index(strs, f.qname.name), Index(strs, f.qname.space), f.attributes])
    + ([f.strict]
       + (EncodeRef(strs, f.resultType)
          + (EncodeNums([f.slot, f.numProp, f.numArgs, f.numDefault, f.numHandlers, CodeLen(code)])
             + if code.NoCode? then [] else code.bytes)))
  }

  function ExceptionBytes(strs: seq<CString>, hs: seq<Handler>): seq<byte>
    requires Small(strs) && forall i :: 0 <= i < |hs| ==> HandlerFits(strs, hs[i])
  {
    if hs == [] then [] else [SECT_EXCEPTION] + HandlersBytes(strs, hs)
  }

  function DebugSectionBytes(debug: Option<seq<DebugLine>>): seq<byte>
    requires debug.Some? ==> LinesFit(debug.value)
  {
    match debug
    case None => []
    case Some(lines) => [SECT_DEBUG] + (EncodeWord(|DebugBytes(lines)|) + DebugBytes(lines))
  }

  /** What follows the byte code of a function: its exception and debug sections. */
  function CodeTailBytes(strs: seq<CString>, f: FunHeader, code: Code): seq<byte>
    requires Small(strs) && CodeFits(strs, f, code)
  {
    if code.NoCode? then []
    else ExceptionBytes(strs, code.handlers) + DebugSectionBytes(code.debug)
  }

  function BlockBytes(strs: seq<CString>, b: BlockHeader): seq<byte>
    requires Small(strs) && b.name in strs
  {
    EncodeNums([Index(strs, b.name), b.slot, b.numProp])
  }

  function ValueBytes(strs: seq<CString>, value: Option<CString>): seq<byte>
    requires Small(strs) && (value.Some? ==> value.value in strs)
  {
    if value.Some? then EncodeNums([Index(strs, value.value)]) else []
  }

  function PropBytes(strs: seq<CString>, p: PropHeader): seq<byte>
    requires Small(strs) && PropFits(strs, p)
  {
    EncodeNums([Index(strs, p.qname.name), Index(strs, p.qname.space), p.attributes, p.slot])
    + (EncodeRef(strs, p.ptype) + ValueBytes(strs, p.value))
  }

  function SectionBytes(strs: seq<CString>, x: Section): seq<byte>
    requires Small(strs) && Fits(strs, x)
    decreases x, 1
  {
    match x
    case Dependency(_, _, _, _) => [SECT_DEPENDENCY] + DependencyBytes(strs, x)
    case Doc(text) => [SECT_DOC] + EncodeNums([Index(strs, text)])
    case Class(c, body) =>
      [SECT_CLASS] + (ClassBytes(strs, c) + (SectionsBytes(strs, body) + [SECT_CLASS_END]))
    case Function(f, code, body) =>
      [SECT_FUNCTION]
      + (FunBytes(strs, f, code)
         + (CodeTailBytes(strs, f, code) + (SectionsBytes(strs, body) + [SECT_FUNCTION_END])))
    case Block(b, body) =>
      [SECT_BLOCK] + (BlockBytes(strs, b) + (SectionsBytes(strs, body) + [SECT_BLOCK_END]))
    case Property(p) => [SECT_PROPERTY] + PropBytes(strs, p)
  }

  function SectionsBytes(strs: seq<CString>, xs: seq<Section>): seq<byte>
    requires Small(strs) && forall i :: 0 <= i < |xs| ==> Fits(strs, xs[i])
    decreases xs, 0
  {
    if xs == [] then [] else SectionBytes(strs, xs[0]) + SectionsBytes(strs, xs[1..])
  }
}

/**
 What a load that succeeds says of the file, whoever wrote it (loadScriptModule
 and the section loaders of src/vm/ejsLoader.c): the header is that of this
 format, and every name in the tree comes from the module's own constant pool.
 */
module LoadSoundness {
  import opened AttributeBits
  import opened Bytes
  import opened NumberCodec
  import opened ConstantPool
  import opened GlobalRef
  import opened ModuleFormat
  import opened ModuleLoader
  import opened SectionLoop
  import opened ModuleFile

  // ---------------------------------------------------------------------- Header

  /** Four bytes of a file, the lowest first. */
  function LittleWord(s: seq<byte>, pos: nat): int
    requires pos + 4 <= |s|
  {
    var a: int, b: int, c: int, d: int := s[pos], s[pos + 1], s[pos + 2], s[pos + 3];
    a + 0x100 * b + 0x1_0000 * c + 0x100_0000 * d
  }

  /**
   Any bytes load exactly if they begin with a header of twelve bytes that has
   the magic number 0xC7DA and format version 3, whatever its flags, and the
   modules behind it load.
   */
  lemma LoadsIff(s: seq<byte>)
    ensures LoadFile(s).Some? <==>
      && |s| >= 12 && LittleWord(s, 0) == 0xC7DA && LittleWord(s, 4) == 3
      && LoadModules(s, 12, 0x40_0000).Some?
    ensures LoadFile(s).Some? ==> LoadFile(s) == LoadModules(s, 12, 0x40_0000)
  {
    hide LoadModules;
    if |s| >= 12 {
      assert s[..8] == [s[0], s[1], s[2], s[3], s[4], s[5], s[6], s[7]];
      assert HEADER[..8] == [0xDA, 0xC7, 0, 0, 3, 0, 0, 0];
    }
  }

  // ------------------------------------------------------------------ References

  /** A reference that is read is the one its two low bits and the pool say; no other number is one. */
  lemma ReadRefIff(strs: seq<CString>, s: seq<byte>, pos: nat, signed: bool)
    ensures ReadRef(strs, s, pos, signed).Some? ==>
      && ReadInt(s, pos, signed).Some?
      && var t, next := ReadInt(s, pos, signed).value.0, ReadInt(s, pos, signed).value.1;
      && var ref, end := ReadRef(strs, s, pos, signed).value.0, ReadRef(strs, s, pos, signed).value.1;
      && (t >= 0 || signed)
      && match ref
         case NoRef => t % 4 == 0 && end == next
         case SlotRef(slot) => t == 4 * slot + 2 && end == next
         case NameRef(q) =>
           && t % 4 == 1 && 0 <= t / 4 < |strs| && strs[t / 4] == q.name
           && ReadInt(s, next, signed).Some? && ReadInt(s, next, signed).value.1 == end
           && var u := ReadInt(s, next, signed).value.0; 0 <= u < |strs| && strs[u] == q.space
    ensures ReadInt(s, pos, signed).Some? && ReadInt(s, pos, signed).value.0 % 4 == 3 ==>
              ReadRef(strs, s, pos, signed) == None
  {
    hide ReadInt;
  }

  /** A text that is read: as many bytes as its length says, 0 included, up to the first NUL among them. */
  lemma ReadMultiIff(s: seq<byte>, pos: nat)
    requires ReadInt(s, pos, true).Some?
    ensures var len, next, r := ReadInt(s, pos, true).value.0, ReadInt(s, pos, true).value.1, ReadMulti(s, pos);
      && (r.Some? <==> len >= 0 && next + len <= |s|)
      && (r.Some? ==> r.value.1 == next + len && r.value.0 <= s[next..next + len])
      && (r.Some? && |r.value.0| < len ==> s[next + |r.value.0|] == 0)
  {
    hide ReadInt;
    var len, next := ReadInt(s, pos, true).value.0, ReadInt(s, pos, true).value.1;
    if len >= 0 && next + len <= |s| {
      StrLenStops(s[next..next + len], 0);
    }
  }

  lemma {:induction false} StrLenStops(s: seq<byte>, pos: nat)
    requires pos <= |s|
    ensures var end := pos + StrLen(s, pos); end < |s| ==> s[end] == 0
    decreases |s| - pos
  {
    if pos < |s| && s[pos] != 0 {
      StrLenStops(s, pos + 1);
    }
  }

  // -------------------------------------------------------------------- Sections

  predicate RefFrom(strs: seq<CString>, ref: Ref) {
    ref.NameRef? ==> NameFrom(strs, ref.qname)
  }

  predicate NameFrom(strs: seq<CString>, q: Name) {
    q.name in strs && q.space in strs
  }

  predicate HandlersFrom(strs: seq<CString>, hs: seq<Handler>) {
    forall i :: 0 <= i < |hs| ==> RefFrom(strs, hs[i].catchType)
  }

  /** Byte code is not empty, and its handlers are none or as many as the header says. */
  predicate CodeFrom(strs: seq<CString>, f: FunHeader, code: Code) {
    code.Code? ==>
      && code.bytes != [] && HandlersFrom(strs, code.handlers)
      && (code.handlers == [] || |code.handlers| == f.numHandlers)
  }

  predicate ClassFrom(strs: seq<CString>, c: ClassHeader) {
    && NameFrom(strs, c.qname) && RefFrom(strs, c.base)
    && forall i :: 0 <= i < |c.interfaces| ==> RefFrom(strs, c.interfaces[i])
  }

  predicate FunFrom(strs: seq<CString>, f: FunHeader, code: Code) {
    NameFrom(strs, f.qname) && RefFrom(strs, f.resultType) && CodeFrom(strs, f, code)
  }

  /** A property has a value exactly if its attributes say so. */
  predicate PropFrom(strs: seq<CString>, p: PropHeader) {
    && NameFrom(strs, p.qname) && RefFrom(strs, p.ptype)
    && (p.value.Some? <==> HasBit(p.attributes, PROP_HAS_VALUE)) && (p.value.Some? ==> p.value.value in strs)
  }

  /** Every name in a section comes from the pool, and its records are consistent. */
  predicate From(strs: seq<CString>, x: Section)
    decreases x
  {
    match x
    case Dependency(name, _, _, _) => name in strs
    case Doc(text) => text in strs
    case Class(c, body) => ClassFrom(strs, c) && forall i :: 0 <= i < |body| ==> From(strs, body[i])
    case Function(f, code, body) => FunFrom(strs, f, code) && forall i :: 0 <= i < |body| ==> From(strs, body[i])
    case Block(b, body) => b.name in strs && forall i :: 0 <= i < |body| ==> From(strs, body[i])
    case Property(p) => PropFrom(strs, p)
  }

  predicate AllFrom(strs: seq<CString>, xs: seq<Section>) {
    forall i :: 0 <= i < |xs| ==> From(strs, xs[i])
  }

  predicate OpeningFrom(strs: seq<CString>, o: Opening) {
    match o
    case ClassScope(c) => ClassFrom(strs, c)
    case FunScope(f, code) => FunFrom(strs, f, code)
    case BlockScope(b) => b.name in strs
  }

  /** All that was read so far. */
  predicate ScopesFrom(strs: seq<CString>, st: Scopes) {
    && AllFrom(strs, st.items)
    && forall i :: 0 <= i < |st.open| ==> OpeningFrom(strs, st.open[i].open) && AllFrom(strs, st.open[i].items)
  }

  lemma CloseFrom(strs: seq<CString>, o: Opening, items: seq<Section>)
    requires OpeningFrom(strs, o) && AllFrom(strs, items)
    ensures From(strs, Close(o, items))
  {
    hide ClassFrom, FunFrom;
  }

  lemma AppendFrom(strs: seq<CString>, st: Scopes, x: Section)
    requires ScopesFrom(strs, st) && From(strs, x)
    ensures ScopesFrom(strs, st.Append([x]))
  {
    hide From, OpeningFrom;
    if st.open != [] {
      var items := st.open[|st.open| - 1].items;
      assert AllFrom(strs, items + [x]);
    }
  }

  lemma PopFrom(strs: seq<CString>, st: Scopes)
    requires ScopesFrom(strs, st) && st.open != []
    ensures ScopesFrom(strs, st.Pop())
  {
    hide From, OpeningFrom, Scopes.Append, Close;
    var top := st.open[|st.open| - 1];
    CloseFrom(strs, top.open, top.items);
    AppendFrom(strs, Scopes(st.items, st.open[..|st.open| - 1]), Close(top.open, top.items));
  }

  lemma {:induction false} CloseAllFrom(strs: seq<CString>, st: Scopes)
    requires ScopesFrom(strs, st)
    ensures AllFrom(strs, st.CloseAll())
    decreases |st.open|
  {
    hide From, OpeningFrom, Scopes.Pop;
    if st.open != [] {
      PopFrom(strs, st);
      CloseAllFrom(strs, st.Pop());
    }
  }

  lemma {:induction false} ReadRefsFrom(strs: seq<CString>, s: seq<byte>, pos: nat, count: int)
    requires pos <= |s|
    ensures var r := ReadRefs(strs, s, pos, count);
            r.Some? ==> forall i :: 0 <= i < |r.value.0| ==> RefFrom(strs, r.value.0[i])
    decreases count
  {
    hide ReadInt;
    if count > 0 && ReadRef(strs, s, pos, true).Some? {
      ReadRefsFrom(strs, s, ReadRef(strs, s, pos, true).value.1, count - 1);
    }
  }

  lemma {:induction false} ReadHandlersFrom(strs: seq<CString>, s: seq<byte>, pos: nat, count: int)
    requires pos <= |s|
    ensures var r := ReadHandlers(strs, s, pos, count);
            r.Some? ==> HandlersFrom(strs, r.value.0) && |r.value.0| == if count < 0 then 0 else count
    decreases count
  {
    hide ReadInt, ReadNums;
    if count > 0 && ReadHandler(strs, s, pos).Some? {
      ReadHandlersFrom(strs, s, ReadHandler(strs, s, pos).value.1, count - 1);
    }
  }

  lemma ReadClassFrom(strs: seq<CString>, s: seq<byte>, pos: nat)
    requires pos <= |s|
    ensures var r := ReadClass(strs, s, pos); r.Some? ==> ClassFrom(strs, r.value.0)
  {
    hide ReadNums, ReadInt, ReadRefs;
    match ReadNumsRef(strs, s, pos, 4)
    case None =>
    case Some((ns, base, next)) =>
      if ReadNums(s, next, 3, true).Some? {
        var ms := ReadNums(s, next, 3, true).value;
        ReadRefsFrom(strs, s, ms.1, ms.0[2]);
      }
  }

  lemma ReadFunctionFrom(strs: seq<CString>, s: seq<byte>, pos: nat)
    requires pos <= |s|
    ensures var r := ReadFunction(strs, s, pos); r.Some? ==> FunFrom(strs, r.value.0, r.value.1)
  {
    hide ReadNums, ReadInt;
  }

  lemma ReadPropertyFrom(strs: seq<CString>, s: seq<byte>, pos: nat)
    requires pos <= |s|
    ensures var r := ReadProperty(strs, s, pos); r.Some? ==> PropFrom(strs, r.value.0)
  {
    hide ReadNums, ReadInt;
  }

  lemma StepFrom(strs: seq<CString>, s: seq<byte>, pos: nat, st: Scopes)
    requires pos < |s| && ScopesFrom(strs, st)
    ensures var r := Step(strs, s, pos, st); r.Some? ==> ScopesFrom(strs, r.value.0)
  {
    hide ReadClass, ReadFunction, ReadNums, ReadProperty, StepCode, Scopes.Pop, ClassFrom, FunFrom, PropFrom,
      Scopes.Append, From, AllFrom;
    var tag := s[pos];
    if tag == SECT_CLASS_END || tag == SECT_FUNCTION_END || tag == SECT_BLOCK_END {
      if st.open != [] {
        PopFrom(strs, st);
      }
    } else if tag == SECT_EXCEPTION || tag == SECT_DEBUG {
      StepCodeFrom(strs, s, pos, st);
    } else if tag == SECT_CLASS || tag == SECT_FUNCTION || tag == SECT_BLOCK {
      ReadClassFrom(strs, s, pos + 1);
      ReadFunctionFrom(strs, s, pos + 1);
      NothingFrom(strs);
    } else {
      LeafFrom(strs, s, pos);
      if ReadLeaf(strs, s, pos).Some? {
        AppendFrom(strs, st, ReadLeaf(strs, s, pos).value.0);
      }
    }
  }

  lemma NothingFrom(strs: seq<CString>)
    ensures AllFrom(strs, [])
  {
  }

  lemma LeafFrom(strs: seq<CString>, s: seq<byte>, pos: nat)
    requires pos < |s|
    ensures var r := ReadLeaf(strs, s, pos); r.Some? ==> From(strs, r.value.0)
  {
    hide ReadNums, ReadProperty, PropFrom;
    ReadPropertyFrom(strs, s, pos + 1);
  }

  lemma StepCodeFrom(strs: seq<CString>, s: seq<byte>, pos: nat, st: Scopes)
    requires pos < |s| && ScopesFrom(strs, st)
    ensures var r := StepCode(strs, s, pos, st); r.Some? ==> ScopesFrom(strs, r.value.0)
  {
    hide ReadHandlers, ReadDebug, AllFrom;
    if st.open != [] && st.open[|st.open| - 1].open.FunScope? {
      ReadHandlersFrom(strs, s, pos + 1, st.open[|st.open| - 1].open.fun.numHandlers);
    }
  }

  /** Of any bytes, what the loop reads has its names from the pool. */
  lemma {:induction false} RunFrom(strs: seq<CString>, s: seq<byte>, pos: nat, st: Scopes)
    requires ScopesFrom(strs, st)
    ensures match Run(strs, s, pos, st)
            case Loaded(items, _) => AllFrom(strs, items)
            case Unended(items) => AllFrom(strs, items)
            case Failed => true
    decreases |s| - pos
  {
    hide Step, ScopesFrom, AllFrom, Scopes.CloseAll;
    CloseAllFrom(strs, st);
    if pos < |s| && s[pos] != SECT_MODULE_END {
      StepFrom(strs, s, pos, st);
      match Step(strs, s, pos, st)
      case None =>
      case Some((next, p)) => RunFrom(strs, s, p, next);
    }
  }

  /** A byte that is no section tag, or begins a module inside a module, fails the load. */
  lemma BadTag(strs: seq<CString>, s: seq<byte>, pos: nat, st: Scopes)
    requires pos < |s| && (s[pos] <= 1 || s[pos] > 13)
    ensures Run(strs, s, pos, st) == Failed
  {
  }

  // --------------------------------------------------------------------- Modules

  predicate ModuleFrom(m: Module) {
    m.name in m.strs && AllFrom(m.strs, m.sections)
  }

  lemma {:induction false} ModulesFrom(s: seq<byte>, pos: nat, maxPool: int)
    requires pos <= |s|
    ensures var r := LoadModules(s, pos, maxPool);
            r.Some? ==> forall i :: 0 <= i < |r.value| ==> ModuleFrom(r.value[i])
    decreases |s| - pos
  {
    hide ReadPreamble, Run, AllFrom;
    if pos < |s| && s[pos] == SECT_MODULE && ReadPreamble(s, pos + 1, maxPool).Some? {
      var (m, p) := ReadPreamble(s, pos + 1, maxPool).value;
      PreambleFrom(s, pos + 1, maxPool);
      NothingFrom(m.strs);
      RunFrom(m.strs, s, p, Scopes([], []));
      RunAdvances(m.strs, s, p, Scopes([], []));
      match Run(m.strs, s, p, Scopes([], []))
      case Loaded(items, end) => ModulesFrom(s, end, maxPool);
      case Unended(_) =>
      case Failed =>
    }
  }

  lemma PreambleFrom(s: seq<byte>, pos: nat, maxPool: int)
    requires pos <= |s|
    ensures var r := ReadPreamble(s, pos, maxPool); r.Some? ==> r.value.0.name in r.value.0.strs
  {
    hide ReadNums, ReadWord, PoolStrings;
  }

  /** Whoever wrote the file: in each module it loads, all names come from that module's pool. */
  lemma LoadedFrom(s: seq<byte>)
    ensures var r := LoadFile(s); r.Some? ==> forall i :: 0 <= i < |r.value| ==> ModuleFrom(r.value[i])
  {
    hide LoadModules, ModuleFrom;
    if |s| >= |HEADER| {
      ModulesFrom(s, |HEADER|, MAX_POOL);
    }
  }
}

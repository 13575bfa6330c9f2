/**
 Whole modules: the header, the constant pool and its lock, dependencies, the
 module initializer, all global properties, and the checksum that is patched in
 last (ecCreateModuleHeader, ecCreateModuleSection, createDependencySection and
 createGlobalProperties in src/compiler/ecModuleWrite.c).
 */
module ModuleWriter {
  import opened AttributeBits
  import opened Bytes
  import opened NumberCodec
  import opened ConstantPool
  import opened GlobalRef
  import opened ModuleFormat
  import opened ObjectTree
  import opened CodeBuffer
  import opened Emission
  import opened Checksum
  import opened SectionWriter
  import opened ModuleFile
  import TypeOrder

  const VERSION_FACTOR: int := 1000  // EJS_VERSION_FACTOR

  /** EJS_MAKE_COMPAT_VERSION, with the division of C. */
  function CompatVersion(version: int32): int32 {
    var v: int := version;
    if v >= 0 then v / VERSION_FACTOR * VERSION_FACTOR else -(-v / VERSION_FACTOR * VERSION_FACTOR)
  }

  /** A module another one depends on. */
  datatype Used = Used(name: CString, checksum: int32, minVersion: int32, maxVersion: int32, version: int32,
                       compiling: bool)

  /** The compiler's options as far as dependencies go. */
  datatype Options = Options(merge: bool, outputFile: bool)

  /** Dependencies are not written when merging, on modules compiled along into one file, or on the module itself. */
  predicate Skipped(o: Options, name: CString, d: Used) {
    o.merge || (d.compiling && o.outputFile) || d.name == name
  }

  function DependencyOf(env: Env, d: Used): Section {
    if env.bind then Dependency(d.name, d.checksum, CompatVersion(d.version), CompatVersion(d.version))
    else Dependency(d.name, d.checksum, d.minVersion, d.maxVersion)
  }

  function DependenciesOf(env: Env, o: Options, name: CString, ds: seq<Used>): seq<Section> {
    if ds == [] then []
    else
      var last := |ds| - 1;
      DependenciesOf(env, o, name, ds[..last])
      + if Skipped(o, name, ds[last]) then [] else [DependencyOf(env, ds[last])]
  }

  /** The sections of global properties, in the order their slots are listed. */
  function GlobalSections(env: Env, globals: seq<Prop>, order: seq<int>): seq<Section>
    requires |globals| < TWO_31 && forall i :: 0 <= i < |globals| ==> PropOk(globals[i], true)
    requires forall k :: 0 <= k < |order| ==> 0 <= order[k] < |globals|
  {
    if order == [] then []
    else
      var last := |order| - 1;
      GlobalSections(env, globals, order[..last]) + SlotSections(env, globals[order[last]], order[last], true)
  }

  const INITIALIZER_NAME: Name := Name(
    [0x5F, 0x5F, 0x69, 0x6E, 0x69, 0x74, 0x69, 0x61, 0x6C, 0x69, 0x7A, 0x65, 0x72, 0x5F, 0x5F],  // __initializer__
    [0x65, 0x6A, 0x73])                                                                          // ejs

  /** The module initializer, if the module has one: a function in no slot. */
  function InitializerOf(env: Env, f: Option<Fun>): seq<Section>
    requires f.Some? ==> FunOk(f.value)
  {
    if f.None? then []
    else
      var attributes := FunAttributes(SetIf(0, FUN_MODULE_INITIALIZER, true), f.value.info);
      [FunSection(env, INITIALIZER_NAME, attributes, -1, f.value)]
  }

  // --------------------------------------------------------------- Dependencies

  method CreateOneDependency(cp: Writer, d: Used)
    requires cp.Ready()
    modifies cp`out, cp`fatalError, cp`checksum, cp.buf, cp.buf.data, cp.constants
    ensures cp.Ready() && (cp.buf.data == old(cp.buf.data) || fresh(cp.buf.data))
    ensures cp.out == Then(old(cp.out), SectionsCode(cp.strs, [DependencyOf(cp.env, d)]))
    ensures cp.out.Some? ==> cp.checksum == ToInt32(old(cp.checksum) + SumAll([DependencyOf(cp.env, d)]))
  {
    hide Writer.Ready, Then, SectionCode, SectionsCode, ToInt32, SumString;
    EmitDependency(cp, d);
    OneSection(cp.strs, DependencyOf(cp.env, d));
    SumOne(DependencyOf(cp.env, d));
    cp.ErrorIsNone();
    if cp.fatalError {
      return;
    }
    cp.AddSumOfString(d.name);
  }

  method EmitDependency(cp: Writer, d: Used)
    requires cp.Ready()
    modifies cp`out, cp`fatalError, cp.buf, cp.buf.data, cp.constants
    ensures cp.Ready() && (cp.buf.data == old(cp.buf.data) || fresh(cp.buf.data))
    ensures cp.out == Then(old(cp.out), SectionCode(cp.strs, DependencyOf(cp.env, d)))
  {
    hide Writer.Ready, Then, SectionCode, NumCode, NumsCode, ConstCode;
    ghost var x := DependencyOf(cp.env, d);
    cp.EncodeByte(SECT_DEPENDENCY);
    cp.EncodeConst(d.name);
    var version := CompatVersion(d.version);
    if !cp.env.bind {
      cp.EncodeThree(d.checksum, d.minVersion, d.maxVersion);
    } else {
      cp.EncodeThree(d.checksum, version, version);
    }
    Regroup3(old(cp.out), OneByte(SECT_DEPENDENCY), ConstCode(cp.strs, d.name),
             NumsCode([x.checksum, x.minVersion, x.maxVersion]));
    DependencyParts(cp.strs, x);
  }

  method CreateDependencySection(cp: Writer, o: Options, name: CString, ds: seq<Used>)
    requires cp.Ready()
    modifies cp`out, cp`fatalError, cp`checksum, cp.buf, cp.buf.data, cp.constants
    ensures cp.Ready() && (cp.buf.data == old(cp.buf.data) || fresh(cp.buf.data))
    ensures cp.out == Then(old(cp.out), SectionsCode(cp.strs, DependenciesOf(cp.env, o, name, ds)))
    ensures cp.out.Some? ==> cp.checksum == ToInt32(old(cp.checksum) + SumAll(DependenciesOf(cp.env, o, name, ds)))
  {
    hide Writer.Ready, Then, SectionsCode, ToInt32, SumAll, DependencyOf;
    NoSections(cp.out, cp.strs, cp.env, 0, cp.checksum);
    for i := 0 to |ds|
      invariant cp.Ready() && (cp.buf.data == old(cp.buf.data) || fresh(cp.buf.data))
      invariant cp.out == Then(old(cp.out), SectionsCode(cp.strs, DependenciesOf(cp.env, o, name, ds[..i])))
      invariant cp.out.Some? ==> cp.checksum == ToInt32(old(cp.checksum) + SumAll(DependenciesOf(cp.env, o, name, ds[..i])))
    {
      assert ds[..i + 1][..i] == ds[..i] && ds[..i + 1][i] == ds[i];
      ghost var done := DependenciesOf(cp.env, o, name, ds[..i]);
      assert done + [] == done;
      if Skipped(o, name, ds[i]) {
        continue;
      }
      JoinSections(old(cp.out), cp.strs, done, [DependencyOf(cp.env, ds[i])], old(cp.checksum));
      CreateOneDependency(cp, ds[i]);
    }
    assert ds[..|ds|] == ds;
  }

  // ----------------------------------------------------------- Global properties

  /** The slot of the global object a name is found in, if there is one. */
  function GlobalSlot(env: Env, q: Name): Option<nat> {
    var slot := Lookup(env.global, q);
    if slot < 0 then None else Some(slot)
  }

  /** The slots of the interfaces of a type, those that are no global properties left out. */
  function InterfaceSlots(env: Env, xs: seq<Interface>): seq<nat> {
    if xs == [] then []
    else
      (match GlobalSlot(env, xs[0].qname)
       case None => []
       case Some(slot) => [slot])
      + InterfaceSlots(env, xs[1..])
  }

  /** A node of the inheritance graph is that of this type: its base type and interfaces, by slot. */
  predicate SameParents(env: Env, o: TypeOrder.GlobalObj, info: TypeInfo) {
    && o.base == (if info.base.None? then None else GlobalSlot(env, info.base.value))
    && o.implements == InterfaceSlots(env, info.implements)
  }

  /**
   The inheritance graph `w` is that of these properties: it has the same types
   with the same base types and interfaces. The environment gives their names,
   under which they are found.
   */
  predicate Describes(env: Env, w: TypeOrder.World, globals: seq<Prop>) {
    && w.Valid() && |w.objs| == |globals| == |env.global| < TWO_31
    && (forall i :: 0 <= i < |globals| ==> PropOk(globals[i], true))
    && forall i :: 0 <= i < |globals| ==> DescribesSlot(env, w, globals, i)
  }

  predicate DescribesSlot(env: Env, w: TypeOrder.World, globals: seq<Prop>, i: nat)
    requires i < |globals| == |env.global| == |w.objs|
  {
    var p := globals[i];
    && p.qname == env.global[i]
    && (!p.Hole() ==> Lookup(env.global, p.qname) == i)
    && (w.IsType(i) <==> p.value.Some? && p.value.value.TypeObj?)
    && (w.IsType(i) ==> SameParents(env, w.objs[i], p.value.value.info))
  }

  /** This is the order of emission for the listed properties, all of which were found. */
  ghost predicate InOrder(w: TypeOrder.World, props: seq<int>, order: seq<int>) {
    && w.Valid() && (forall i :: 0 <= i < |props| ==> 0 <= props[i] < |w.objs|)
    && order == TypeOrder.Order(w, props)
  }

  /**
   createGlobalProperties: the order of emission is that of the depth-first
   search; a listed name that is not found fails the write.
   */
  method CreateGlobalProperties(cp: Writer, w: TypeOrder.World, props: seq<int>, globals: seq<Prop>)
    returns (order: seq<int>)
    requires cp.Ready() && Describes(cp.env, w, globals)
    requires forall i :: 0 <= i < |props| ==> -1 <= props[i] < |globals|
    modifies cp`out, cp`fatalError, cp`checksum, cp.buf, cp.buf.data, cp.constants
    ensures cp.Ready() && (cp.buf.data == old(cp.buf.data) || fresh(cp.buf.data))
    ensures -1 in props ==> cp.out.None?
    ensures -1 !in props ==>
      && InOrder(w, props, order) && TypeOrder.Complete(w, props, order)
      && (forall k :: 0 <= k < |order| ==> 0 <= order[k] < |globals|)
      && cp.out == Then(old(cp.out), SectionsCode(cp.strs, GlobalSections(cp.env, globals, order)))
      && (cp.out.Some? ==> cp.checksum == ToInt32(old(cp.checksum) + SumAll(GlobalSections(cp.env, globals, order))))
  {
    hide Writer.Ready, Then, SectionsCode, ToInt32, SumAll, SlotSections, PropOk, TypeOrder.Complete;
    var e := new TypeOrder.Emitter(w);
    e.CreateGlobalProperties(props);
    order := e.emitted;
    if e.fatalError {
      cp.Fail();
      return;
    }
    TypeOrder.EmittedExist(w, props, order);
    EmitInOrder(cp, globals, order);
  }

  method EmitInOrder(cp: Writer, globals: seq<Prop>, order: seq<int>)
    requires cp.Ready() && |globals| < TWO_31 && forall i :: 0 <= i < |globals| ==> PropOk(globals[i], true)
    requires forall k :: 0 <= k < |order| ==> 0 <= order[k] < |globals|
    modifies cp`out, cp`fatalError, cp`checksum, cp.buf, cp.buf.data, cp.constants
    ensures cp.Ready() && (cp.buf.data == old(cp.buf.data) || fresh(cp.buf.data))
    ensures cp.out == Then(old(cp.out), SectionsCode(cp.strs, GlobalSections(cp.env, globals, order)))
    ensures cp.out.Some? ==> cp.checksum == ToInt32(old(cp.checksum) + SumAll(GlobalSections(cp.env, globals, order)))
  {
    hide Writer.Ready, Then, SectionsCode, ToInt32, SumAll, SlotSections, PropOk;
    NoSections(cp.out, cp.strs, cp.env, 0, cp.checksum);
    for k := 0 to |order|
      invariant cp.Ready() && (cp.buf.data == old(cp.buf.data) || fresh(cp.buf.data))
      invariant cp.out == Then(old(cp.out), SectionsCode(cp.strs, GlobalSections(cp.env, globals, order[..k])))
      invariant cp.out.Some? ==>
        cp.checksum == ToInt32(old(cp.checksum) + SumAll(GlobalSections(cp.env, globals, order[..k])))
    {
      assert order[..k + 1][..k] == order[..k] && order[..k + 1][k] == order[k];
      JoinSections(old(cp.out), cp.strs, GlobalSections(cp.env, globals, order[..k]),
                   SlotSections(cp.env, globals[order[k]], order[k], true), old(cp.checksum));
      cp.CreateSection(globals[order[k]], order[k], true);
    }
    assert order[..|order|] == order;
  }

  // -------------------------------------------------------------------- Modules

  /** A module to be written; `listed` are the slots its global names were looked up to, -1 for one not found. */
  datatype Source = Source(name: CString, version: int32, options: Options, used: seq<Used>, initializer: Option<Fun>,
                           inheritance: TypeOrder.World, listed: seq<int>, globals: seq<Prop>)

  predicate SourceOk(env: Env, m: Source) {
    && (m.initializer.Some? ==> FunOk(m.initializer.value))
    && Describes(env, m.inheritance, m.globals)
    && forall i :: 0 <= i < |m.listed| ==> -1 <= m.listed[i] < |m.globals|
  }

  /** The sections of a module whose global properties are emitted in this order. */
  function SectionsOf(env: Env, m: Source, order: seq<int>): seq<Section>
    requires SourceOk(env, m) && forall k :: 0 <= k < |order| ==> 0 <= order[k] < |m.globals|
  {
    DependenciesOf(env, m.options, m.name, m.used) + InitializerOf(env, m.initializer)
    + GlobalSections(env, m.globals, order)
  }

  /** Behind the checksum: the constant pool. */
  function PoolBytes(strs: seq<CString>): seq<byte>
    requires |Flatten(strs)| < TWO_31 && |strs| < TWO_31
  {
    EncodeNums([|Flatten(strs)|, |strs|]) + Flatten(strs)
  }

  method CreateInitializer(cp: Writer, f: Option<Fun>)
    requires cp.Ready() && (f.Some? ==> FunOk(f.value))
    modifies cp`out, cp`fatalError, cp`checksum, cp.buf, cp.buf.data, cp.constants
    ensures cp.Ready() && (cp.buf.data == old(cp.buf.data) || fresh(cp.buf.data))
    ensures cp.out == Then(old(cp.out), SectionsCode(cp.strs, InitializerOf(cp.env, f)))
    ensures cp.out.Some? ==> cp.checksum == ToInt32(old(cp.checksum) + SumAll(InitializerOf(cp.env, f)))
  {
    hide Writer.Ready, Then, SectionCode, SectionsCode, ToInt32, Sum, SumAll, FunSection, FunAttributes;
    NoSections(cp.out, cp.strs, cp.env, 0, cp.checksum);
    if f.Some? {
      var attributes := FunAttributes(SetIf(0, FUN_MODULE_INITIALIZER, true), f.value.info);
      cp.CreateFunctionSection(INITIALIZER_NAME, attributes, -1, f.value);
      ghost var x := FunSection(cp.env, INITIALIZER_NAME, attributes, -1, f.value);
      OneSection(cp.strs, x);
      SumOne(x);
    }
  }

  /** Everything between the constant pool and the end of the module. */
  method CreateMembers(cp: Writer, m: Source) returns (order: seq<int>)
    requires cp.Ready() && SourceOk(cp.env, m)
    modifies cp`out, cp`fatalError, cp`checksum, cp.buf, cp.buf.data, cp.constants
    ensures cp.Ready() && (cp.buf.data == old(cp.buf.data) || fresh(cp.buf.data))
    ensures -1 in m.listed ==> cp.out.None?
    ensures -1 !in m.listed ==>
      && InOrder(m.inheritance, m.listed, order) && TypeOrder.Complete(m.inheritance, m.listed, order)
      && (forall k :: 0 <= k < |order| ==> 0 <= order[k] < |m.globals|)
      && cp.out == Then(old(cp.out), SectionsCode(cp.strs, SectionsOf(cp.env, m, order)))
      && (cp.out.Some? ==> cp.checksum == ToInt32(old(cp.checksum) + SumAll(SectionsOf(cp.env, m, order))))
  {
    hide Writer.Ready, Then, SectionsCode, ToInt32, SumAll, DependenciesOf, InitializerOf, GlobalSections,
      TypeOrder.Complete, InOrder, PropOk, FunOk;
    ghost var deps, init := DependenciesOf(cp.env, m.options, m.name, m.used), InitializerOf(cp.env, m.initializer);
    CreateDependencySection(cp, m.options, m.name, m.used);
    CreateInitializer(cp, m.initializer);
    JoinSections(old(cp.out), cp.strs, deps, init, old(cp.checksum));
    order := CreateGlobalProperties(cp, m.inheritance, m.listed, m.globals);
    if -1 !in m.listed {
      JoinSections(old(cp.out), cp.strs, deps + init, GlobalSections(cp.env, m.globals, order), old(cp.checksum));
    }
  }

  /** ecEncodeConst before the pool is locked: the string is added if it is new. */
  method AddConst(cp: Writer, s: CString)
    requires cp.Open() && Small(Intern(cp.constants.strs, s))
    modifies cp`out, cp.buf, cp.buf.data, cp.constants, cp.constants.pool, cp.constants.index
    ensures cp.Open() && cp.constants.strs == Intern(old(cp.constants.strs), s)
    ensures cp.buf.data == old(cp.buf.data) || fresh(cp.buf.data)
    ensures cp.constants.pool == old(cp.constants.pool) || fresh(cp.constants.pool)
    ensures cp.constants.index == old(cp.constants.index) || fresh(cp.constants.index)
    ensures cp.out == Then(old(cp.out), NumCode(Index(cp.constants.strs, s)))
  {
    hide EncodeNum, EjsConstants.Valid, EjsConstants.Agrees, IndexOf, Buffer.Contents, Buffer.Valid;
    var offset := cp.constants.AddModuleConstant(s);
    cp.EncodeNum(offset);
  }

  /** A module up to its checksum, for which four bytes are reserved at the offset returned. */
  method CreateModuleHead(cp: Writer, name: CString, version: int32) returns (checksumOffset: nat)
    requires cp.Open() && Small(Intern(cp.constants.strs, name))
    modifies cp`out, cp.buf, cp.buf.data, cp.constants, cp.constants.pool, cp.constants.index
    ensures cp.Open() && cp.constants.strs == Intern(old(cp.constants.strs), name)
    ensures cp.buf.data == old(cp.buf.data) || fresh(cp.buf.data)
    ensures cp.constants.pool == old(cp.constants.pool) || fresh(cp.constants.pool)
    ensures cp.constants.index == old(cp.constants.index) || fresh(cp.constants.index)
    ensures cp.out == Then(Then(old(cp.out), HeadCode(cp.constants.strs, name, version)), Some(EncodeWord(0)))
    ensures old(cp.out).Some? && cp.out.Some?
    ensures checksumOffset == |old(cp.out).value| + |HeadCode(cp.constants.strs, name, version).value|
  {
    hide Writer.Open, Then, NumCode, NumsCode, EncodeWord, IndexOf, Intern;
    cp.EncodeByte(SECT_MODULE);
    AddConst(cp, name);
    cp.EncodeNum(version);
    cp.OpenSize();
    checksumOffset := cp.buf.end;
    cp.EncodeInt32(0);
    ghost var i := Index(cp.constants.strs, name);
    TwoNums(Then(old(cp.out), OneByte(SECT_MODULE)), i, version);
    ThenAssoc(old(cp.out), OneByte(SECT_MODULE), NumsCode([i, version]));
    ThenLength(old(cp.out), HeadCode(cp.constants.strs, name, version));
  }

  /** The pool is locked, and written as it stands. */
  method LockPool(cp: Writer)
    requires cp.Open() && Small(cp.constants.strs) && |Flatten(cp.constants.strs)| < TWO_31
    modifies cp`out, cp`strs, cp.buf, cp.buf.data, cp.constants`locked
    ensures cp.Ready() && cp.strs == cp.constants.strs == old(cp.constants.strs)
    ensures cp.buf.data == old(cp.buf.data) || fresh(cp.buf.data)
    ensures cp.out == Then(old(cp.out), Some(PoolBytes(cp.strs)))
  {
    hide Writer.Ready, Writer.Open, Then, NumCode, EncodeNums, Flatten;
    Lock(cp);
    var constants := cp.constants;
    cp.PoolIsFlat();
    cp.EncodeNum(constants.poolLength);
    cp.EncodeNum(constants.indexCount);
    TwoNums(old(cp.out), constants.poolLength, constants.indexCount);
    ThenAssoc(old(cp.out), NumsCode([constants.poolLength, constants.indexCount]), Some(Flatten(cp.strs)));
    cp.EncodeBlock(constants.pool[..constants.poolLength]);
    PoolParts(cp.strs);
  }

  /** `locked = 1` */
  method Lock(cp: Writer)
    requires cp.Open() && Small(cp.constants.strs)
    modifies cp`strs, cp.constants`locked
    ensures cp.Ready() && cp.strs == cp.constants.strs == old(cp.constants.strs)
  {
    cp.constants.locked := true;
    cp.strs := cp.constants.strs;
  }

  ghost function HeadCode(strs: seq<CString>, name: CString, version: int32): Emission
    requires Small(strs) && name in strs
  {
    Then(OneByte(SECT_MODULE), NumsCode([Index(strs, name), version]))
  }

  lemma PoolParts(strs: seq<CString>)
    requires |Flatten(strs)| < TWO_31 && |strs| < TWO_31
    ensures Then(NumsCode([|Flatten(strs)|, |strs|]), Some(Flatten(strs))) == Some(PoolBytes(strs))
  {
  }

  /** The last step of ecCreateModuleSection: the name joins the checksum, which replaces the reserved bytes. */
  method PatchChecksum(cp: Writer, name: CString, checksumOffset: nat)
    requires cp.Ready() && cp.out.Some? && checksumOffset + 4 <= |cp.out.value|
    modifies cp`out, cp`fatalError, cp`checksum, cp.buf.data
    ensures cp.Ready() && cp.checksum == ToInt32(old(cp.checksum) + NameSum(name))
    ensures cp.out == PatchCode(old(cp.out), checksumOffset, cp.checksum)
  {
    hide Writer.Ready, ToInt32, SumString, PatchCode;
    cp.SizeOfCode();
    var sum := SumOfString(name);
    SumMasked(SumString(name));
    cp.checksum := ToInt32(cp.checksum + sum % NAME_MASK);
    cp.EncodeInt32AtPos(checksumOffset, cp.checksum);
  }

  const NAME_MASK: int := ENCODE_MAX_WORD + 1

  /** The part of the checksum that comes from the name of the module: the low 27 bits of its sum. */
  function NameSum(name: CString): int {
    SumString(name) % NAME_MASK
  }

  /** The part of a name is the remainder of its sum that 27 bits hold. */
  lemma NameSumBits(name: CString)
    ensures 0 <= NameSum(name) < 0x800_0000
    ensures exists k: int :: SumString(name) == k * 0x800_0000 + NameSum(name)
  {
    hide SumString;
    var k := SumString(name) / NAME_MASK;
    assert SumString(name) == k * 0x800_0000 + NameSum(name);
  }

  lemma SumMasked(sum: int)
    ensures ToInt32(sum) % NAME_MASK == sum % NAME_MASK
  {
    var k := (sum - ToInt32(sum)) / TWO_32;
    assert sum == ToInt32(sum) + k * 32 * NAME_MASK;
    ModMask(ToInt32(sum), k * 32);
  }

  lemma ModMask(x: int, k: int)
    ensures (x + k * NAME_MASK) % NAME_MASK == x % NAME_MASK
  {
    var q, r := x / NAME_MASK, x % NAME_MASK;
    assert x + k * NAME_MASK == (q + k) * NAME_MASK + r;
  }

  /** The checksum of a module: what it starts with, the fold over its sections, and its name. */
  ghost function Total(start: int32, name: CString, sections: seq<Section>): int32 {
    ToInt32(start + SumAll(sections) + NameSum(name))
  }

  /** The module that is written: with the checksum `total`, over the pool `strs`. */
  function Written(m: Source, strs: seq<CString>, sections: seq<Section>, total: int32): Module {
    Module(m.name, m.version, total, strs, sections)
  }

  ghost predicate Patchable(strs: seq<CString>, sections: seq<Section>, total: int32) {
    AllFit(strs, sections) && Abs(total) <= ENCODE_MAX_WORD
  }

  /** The code of a module before its checksum is patched in. */
  ghost function UnpatchedCode(o: Emission, strs: seq<CString>, name: CString, version: int32,
                               sections: seq<Section>): Emission
    requires Small(strs) && name in strs && |Flatten(strs)| < TWO_31
  {
    Then(Then(Then(Then(Then(o, HeadCode(strs, name, version)), Some(EncodeWord(0))), Some(PoolBytes(strs))),
              SectionsCode(strs, sections)), OneByte(SECT_MODULE_END))
  }

  /** Patching the checksum completes the module. */
  lemma PatchedModule(o: seq<byte>, m: Module, checksumOffset: nat)
    requires Small(m.strs) && m.name in m.strs && |Flatten(m.strs)| < TWO_31 && AllFit(m.strs, m.sections)
    requires Distinct(m.strs)
    requires checksumOffset == |o| + |HeadCode(m.strs, m.name, m.version).value|
    ensures var code := UnpatchedCode(Some(o), m.strs, m.name, m.version, m.sections);
      && code.Some? && checksumOffset + 4 <= |code.value|
      && PatchCode(code, checksumOffset, m.checksum)
         == if Abs(m.checksum) <= ENCODE_MAX_WORD then Some(o + ModuleBytes(m)) else None
  {
    hide EncodeNums, EncodeWord, Flatten, SectionsBytes, Fits, IndexOf, Distinct;
    var nums := EncodeNums([Index(m.strs, m.name), m.version]);
    var pool, sections := PoolBytes(m.strs), SectionsBytes(m.strs, m.sections);
    var head := o + ([SECT_MODULE] + nums);
    var code := head + EncodeWord(0) + pool + sections + [SECT_MODULE_END];
    assert UnpatchedCode(Some(o), m.strs, m.name, m.version, m.sections) == Some(code);
    if Abs(m.checksum) <= ENCODE_MAX_WORD {
      assert code[..|head|] == head;
      assert code[|head| + 4..] == pool + sections + [SECT_MODULE_END];
      ModuleFlat(o, nums, EncodeWord(m.checksum), EncodeNums([|Flatten(m.strs)|, |m.strs|]), Flatten(m.strs), sections);
    }
  }

  lemma ModuleFlat(o: seq<byte>, nums: seq<byte>, word: seq<byte>, sizes: seq<byte>, pool: seq<byte>, sections: seq<byte>)
    ensures (o + ([SECT_MODULE] + nums)) + word + (sizes + pool + sections + [SECT_MODULE_END])
         == o + ([SECT_MODULE] + ((nums + (word + (sizes + pool))) + (sections + [SECT_MODULE_END])))
  {
  }

  /** ecCreateModuleSection up to the end tag, the bytes of the checksum being reserved at the offset returned. */
  method CreateUnpatched(cp: Writer, m: Source) returns (checksumOffset: nat, order: seq<int>)
    requires cp.Open() && SourceOk(cp.env, m) && Small(Intern(cp.constants.strs, m.name))
    requires |Flatten(Intern(cp.constants.strs, m.name))| < TWO_31
    modifies cp`out, cp`strs, cp`fatalError, cp`checksum
    modifies cp.buf, cp.buf.data, cp.constants, cp.constants.pool, cp.constants.index
    ensures cp.Ready() && cp.strs == Intern(old(cp.constants.strs), m.name)
    ensures cp.buf.data == old(cp.buf.data) || fresh(cp.buf.data)
    ensures old(cp.out).Some?
      && checksumOffset == |old(cp.out).value| + |HeadCode(cp.strs, m.name, m.version).value|
    ensures -1 in m.listed ==> cp.out.None?
    ensures -1 !in m.listed ==>
      && InOrder(m.inheritance, m.listed, order) && TypeOrder.Complete(m.inheritance, m.listed, order)
      && (forall k :: 0 <= k < |order| ==> 0 <= order[k] < |m.globals|)
      && var sections := SectionsOf(cp.env, m, order);
      && (cp.out.Some? <==> AllFit(cp.strs, sections))
      && cp.out == UnpatchedCode(old(cp.out), cp.strs, m.name, m.version, sections)
      && (cp.out.Some? ==> cp.checksum == ToInt32(old(cp.checksum) + SumAll(sections)))
  {
    hide Writer.Ready, Writer.Open, SectionsOf, TypeOrder.Complete, InOrder, SourceOk, Flatten, ToInt32, SumAll, PoolBytes,
      SectionsCode, EncodeWord, Then, NumsCode;
    checksumOffset := CreateModuleHead(cp, m.name, m.version);
    LockPool(cp);
    order := CreateMembers(cp, m);
    cp.EncodeByte(SECT_MODULE_END);
  }

  /**
   ecCreateModuleSection. It fails, and says so, if a name is not found, a
   string is not in the pool or a debug record is too long. If the checksum is
   too large for its four bytes it fails too, but returns 0: only the error flag
   tells. Otherwise exactly the module has been added to the code.
   */
  method CreateModuleSection(cp: Writer, m: Source) returns (rc: int, order: seq<int>)
    requires cp.Open() && SourceOk(cp.env, m) && Small(Intern(cp.constants.strs, m.name))
    requires |Flatten(Intern(cp.constants.strs, m.name))| < TWO_31
    modifies cp`out, cp`strs, cp`fatalError, cp`checksum
    modifies cp.buf, cp.buf.data, cp.constants, cp.constants.pool, cp.constants.index
    ensures cp.Ready() && cp.strs == Intern(old(cp.constants.strs), m.name)
    ensures -1 in m.listed ==> cp.fatalError && rc == CANT_WRITE
    ensures -1 !in m.listed ==>
      && InOrder(m.inheritance, m.listed, order) && TypeOrder.Complete(m.inheritance, m.listed, order)
      && (forall k :: 0 <= k < |order| ==> 0 <= order[k] < |m.globals|)
      && var sections := SectionsOf(cp.env, m, order);
      && var total := Total(old(cp.checksum), m.name, sections);
      && rc == (if AllFit(cp.strs, sections) then 0 else CANT_WRITE)
      && (cp.fatalError <==> !Patchable(cp.strs, sections, total))
      && (!cp.fatalError ==>
            && cp.checksum == total && ModuleFits(Written(m, cp.strs, sections, total))
            && cp.buf.Valid()
            && cp.buf.Contents() == old(cp.buf.Contents()) + ModuleBytes(Written(m, cp.strs, sections, total)))
  {
    hide Writer.Ready, Writer.Open, SectionsOf, TypeOrder.Complete, InOrder, UnpatchedCode, SourceOk, Flatten, Small,
      ToInt32, SumAll, NameSum, ModuleBytes, PatchCode, Fits, Distinct;
    ghost var start := cp.out;
    cp.OpenSize();
    var checksumOffset;
    checksumOffset, order := CreateUnpatched(cp, m);
    cp.ErrorIsNone();
    if cp.fatalError {
      rc := CANT_WRITE;
      return;
    }
    ghost var sections := SectionsOf(cp.env, m, order);
    ghost var total := Total(old(cp.checksum), m.name, sections);
    ghost var module_ := Written(m, cp.strs, sections, total);
    cp.PoolIsDistinct();
    PatchedModule(start.value, module_, checksumOffset);
    PatchChecksum(cp, m.name, checksumOffset);
    WrapAdd(old(cp.checksum) + SumAll(sections), NameSum(m.name));
    rc := 0;
    cp.ErrorIsNone();
    if cp.out.Some? {
      cp.CodeIsOut();
    }
  }

  /** A long name: 0x12_0000 times the letter z. */
  const LONG: CString := Letters(0x12_0000)

  function Letters(n: nat): (s: CString)
    ensures |s| == n && forall i :: 0 <= i < n ==> s[i] == 0x7A
  {
    seq(n, i => 0x7A)
  }

  /** A module whose only section is the dependency on a module of a long name. */
  const LARGE: Source := Source([0x61], 0, Options(false, false), [Used(LONG, 0, 0, 0, 0, false)], None,
                                TypeOrder.World([], 0), [], [])

  lemma {:induction false} SumOfLetters(s: CString)
    requires forall i :: 0 <= i < |s| ==> s[i] == 0x7A
    ensures SumString(s) == 0x7A * |s|
    decreases |s|
  {
    if s != [] {
      SumOfLetters(s[..|s| - 1]);
    }
  }

  lemma LargeSections()
    ensures SourceOk(Env([], false), LARGE) && LARGE.name == [0x61]
    ensures SectionsOf(Env([], false), LARGE, []) == [Dependency(LONG, 0, 0, 0)]
  {
    hide Letters;
    var env := Env([], false);
    assert |LONG| != |LARGE.name|;
    assert LARGE.used[..0] == [] && DependenciesOf(env, LARGE.options, LARGE.name, []) == [];
    assert DependenciesOf(env, LARGE.options, LARGE.name, LARGE.used) == [] + [Dependency(LONG, 0, 0, 0)];
  }

  /** A module that cannot be written although all its strings are in the pool: its checksum needs 28 bits. */
  lemma ChecksumLost()
    ensures SourceOk(Env([], false), LARGE)
    ensures var strs, sections := [LARGE.name, LONG], SectionsOf(Env([], false), LARGE, []);
            AllFit(strs, sections) && !Patchable(strs, sections, Total(0, LARGE.name, sections))
  {
    hide SumString, SectionsOf, SourceOk, Letters;
    LargeSections();
    SumOne(Dependency(LONG, 0, 0, 0));
    SumOfLetters(LONG);
    SumOfLetter(0x61);
  }

  lemma SumOfLetter(b: byte)
    requires 0 < b < 0x80
    ensures SumString([b]) == b
  {
    assert [b][..0] == [];
  }

  // ---------------------------------------------------------------------- Files

  /** ecCreateModuleHeader */
  method CreateModuleHeader(cp: Writer)
    requires cp.Open()
    modifies cp`out, cp.buf, cp.buf.data
    ensures cp.Open() && (cp.buf.data == old(cp.buf.data) || fresh(cp.buf.data))
    ensures cp.buf.Contents() == old(cp.buf.Contents()) + HEADER
  {
    hide Writer.Open;
    cp.OpenSize();
    cp.EncodeBlock(HEADER);
    cp.OpenSize();
  }

  /** A file of one module loads as the module that was written, within the limits of the loader. */
  lemma ModuleFileLoads(m: Module)
    requires ModuleFits(m)
    ensures LoadFile(HEADER + ModuleBytes(m)) == if ModuleLoadable(m) then Some([m]) else None
  {
    hide ModuleBytes, LoadFile, ModuleLoadable, ModuleFits;
    var ms := [m];
    assert ms[1..] == [] && ModulesBytes(ms) == ModuleBytes(m) + [] == ModuleBytes(m);
    FileRoundTrip(ms);
    assert forall i :: 0 <= i < |ms| ==> ms[i] == m;
  }

  /**
   From objects to a file and back: when nothing fails, loading what was
   written yields the section tree of the objects, with its checksum and its
   constant pool.
   */
  method CreateModuleFile(cp: Writer, m: Source) returns (rc: int, order: seq<int>)
    requires cp.Open() && cp.buf.Contents() == [] && SourceOk(cp.env, m)
    requires Small(Intern(cp.constants.strs, m.name)) && |Flatten(Intern(cp.constants.strs, m.name))| < TWO_31
    modifies cp`out, cp`strs, cp`fatalError, cp`checksum
    modifies cp.buf, cp.buf.data, cp.constants, cp.constants.pool, cp.constants.index
    ensures cp.Ready() && cp.buf.Valid()
    ensures !cp.fatalError ==>
      && -1 !in m.listed && InOrder(m.inheritance, m.listed, order) && TypeOrder.Complete(m.inheritance, m.listed, order)
      && (forall k :: 0 <= k < |order| ==> 0 <= order[k] < |m.globals|)
      && var sections := SectionsOf(cp.env, m, order);
      && var written := Written(m, Intern(old(cp.constants.strs), m.name), sections,
                                Total(old(cp.checksum), m.name, sections));
      && LoadFile(cp.buf.Contents()) == if ModuleLoadable(written) then Some([written]) else None
  {
    hide Writer.Ready, Writer.Open, SectionsOf, TypeOrder.Complete, InOrder, SourceOk, Flatten, Small, Intern,
      Total, ModuleBytes, ModuleFits, ModuleLoadable, LoadFile, AllFit, Patchable;
    CreateModuleHeader(cp);
    rc, order := CreateModuleSection(cp, m);
    cp.BufferIsValid();
    if !cp.fatalError {
      ghost var sections := SectionsOf(cp.env, m, order);
      assert [] + HEADER == HEADER;
      ModuleFileLoads(Written(m, cp.strs, sections, Total(old(cp.checksum), m.name, sections)));
    }
  }
}

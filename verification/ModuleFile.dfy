/**
 Whole module files: the header, then modules one after the other, each with
 its constant pool, checksum word and sections (ecCreateModuleHeader and
 ecCreateModuleSection in src/compiler/ecModuleWrite.c; loadScriptModule,
 loadSections and loadModuleSection in src/vm/ejsLoader.c).
 */
module ModuleFile {
  import opened Bytes
  import opened NumberCodec
  import opened ConstantPool
  import opened GlobalRef
  import opened ModuleFormat
  import opened ModuleLoader
  import opened SectionLoop

  const MAX_POOL: int := 4 * 1024 * 1024  // EJS_MAX_POOL

  /** EjsModuleHdr in little-endian order: magic 0xC7DA, file version 3, flags. */
  const HEADER: seq<byte> := [0xDA, 0xC7, 0, 0, 3, 0, 0, 0, 0, 0, 0, 0]

  datatype Module = Module(name: CString, version: int32, checksum: int32, strs: seq<CString>, sections: seq<Section>)

  ghost predicate ModuleFits(m: Module) {
    && Distinct(m.strs) && Small(m.strs) && |Flatten(m.strs)| < TWO_31
    && m.name in m.strs
    && Abs(m.checksum) <= ENCODE_MAX_WORD
    && forall i :: 0 <= i < |m.sections| ==> Fits(m.strs, m.sections[i])
  }

  /** What the loader insists on beyond what the writer can write. */
  predicate ModuleLoadable(m: Module) {
    PoolWithin(m, MAX_POOL)
  }

  predicate PoolWithin(m: Module, maxPool: int) {
    |Flatten(m.strs)| <= maxPool
  }

  /** A module up to and including its constant pool. */
  function PreambleBytes(m: Module): seq<byte>
    requires ModuleFits(m)
  {
    EncodeNums([Index(m.strs, m.name), m.version])
    + (EncodeWord(m.checksum)
       + (EncodeNums([|Flatten(m.strs)|, |m.strs|]) + Flatten(m.strs)))
  }

  function ModuleBytes(m: Module): seq<byte>
    requires ModuleFits(m)
  {
    [SECT_MODULE] + (PreambleBytes(m) + (SectionsBytes(m.strs, m.sections) + [SECT_MODULE_END]))
  }

  function ModulesBytes(ms: seq<Module>): seq<byte>
    requires forall i :: 0 <= i < |ms| ==> ModuleFits(ms[i])
  {
    if ms == [] then [] else ModuleBytes(ms[0]) + ModulesBytes(ms[1..])
  }

  function FileBytes(ms: seq<Module>): seq<byte>
    requires forall i :: 0 <= i < |ms| ==> ModuleFits(ms[i])
  {
    HEADER + ModulesBytes(ms)
  }

  // ----------------------------------------------------------------- Loading

  /** loadModuleSection: everything but the sections. */
  function ReadPreamble(s: seq<byte>, pos: nat, maxPool: int): (r: Option<(Module, nat)>)
    requires pos <= |s|
    ensures r.Some? ==> pos < r.value.1 <= |s|
  {
    match ReadNums(s, pos, 2, true)
    case None => None
    case Some((ns, p)) =>
      match ReadWord(s, p)
      case None => None
      case Some((checksum, q)) =>
        match ReadNums(s, q, 2, true)
        case None => None
        case Some((ms, end)) => ReadPool(s, end, ns[0], ns[1], checksum, ms[0], ms[1], maxPool)
  }

  function ReadPool(s: seq<byte>, pos: nat, nameToken: int32, version: int32, checksum: int32,
                    poolSize: int32, poolCount: int32, maxPool: int): (r: Option<(Module, nat)>)
    requires pos <= |s|
    ensures r.Some? ==> pos <= r.value.1 <= |s|
  {
    if poolSize <= 0 || poolSize > maxPool || nameToken < 0 || nameToken >= poolSize then None
    else match ReadBlock(s, pos, poolSize)
         case None => None
         case Some((pool, end)) =>
           var strs := PoolStrings(pool, 0);
           if |strs| != poolCount then None
           else match StringFromConst(strs, nameToken)
                case None => None
                case Some(name) => Some((Module(name, version, checksum, strs, []), end))
  }

  /** loadSections over all modules of a file; a section outside a module is refused. */
  function LoadModules(s: seq<byte>, pos: nat, maxPool: int): Option<seq<Module>>
    requires pos <= |s|
    decreases |s| - pos
  {
    if pos == |s| then Some([])
    else if s[pos] != SECT_MODULE then None
    else
      match ReadPreamble(s, pos + 1, maxPool)
      case None => None
      case Some((m, p)) =>
        match Run(m.strs, s, p, Scopes([], []))
        case Loaded(items, end) =>
          RunAdvances(m.strs, s, p, Scopes([], []));
          (match LoadModules(s, end, maxPool)
           case None => None
           case Some(rest) => Some([m.(sections := items)] + rest))
        case Unended(items) => Some([m.(sections := items)])
        case Failed => None
  }

  lemma {:induction false} RunAdvances(strs: seq<CString>, s: seq<byte>, pos: nat, st: Scopes)
    ensures var r := Run(strs, s, pos, st); r.Loaded? ==> pos < r.end <= |s|
    decreases |s| - pos
  {
    hide Step;
    if pos < |s| && s[pos] != SECT_MODULE_END {
      match Step(strs, s, pos, st)
      case None =>
      case Some((next, p)) => RunAdvances(strs, s, p, next);
    }
  }

  /** loadScriptModule: check the header, then load the modules. */
  function LoadFile(s: seq<byte>): Option<seq<Module>> {
    if |s| < |HEADER| || s[..8] != HEADER[..8] then None else LoadModules(s, |HEADER|, MAX_POOL)
  }

  // -------------------------------------------------------------- Round trip

  lemma ReadPoolInverts(s: seq<byte>, pos: nat, m: Module, maxPool: int)
    requires ModuleFits(m) && At(s, pos, Flatten(m.strs))
    ensures ReadPool(s, pos, Index(m.strs, m.name), m.version, m.checksum, |Flatten(m.strs)|, |m.strs|, maxPool)
         == if PoolWithin(m, maxPool) then Some((m.(sections := []), pos + |Flatten(m.strs)|)) else None
  {
    hide Flatten, PoolStrings;
    PoolStringsInverts(m.strs);
    PoolLength(m.strs);
  }

  lemma ReadPreambleInverts(s: seq<byte>, pos: nat, m: Module, maxPool: int)
    requires ModuleFits(m) && At(s, pos, PreambleBytes(m))
    ensures ReadPreamble(s, pos, maxPool)
         == if PoolWithin(m, maxPool) then Some((m.(sections := []), pos + |PreambleBytes(m)|)) else None
  {
    hide ReadNums, EncodeNums, ReadWord, EncodeWord, ReadPool, Flatten, Fits;
    var ns := [Index(m.strs, m.name), m.version];
    var ms := [|Flatten(m.strs)|, |m.strs|];
    var pool := Flatten(m.strs);
    var p := pos + |EncodeNums(ns)|;
    AtConcat(s, pos, EncodeNums(ns), EncodeWord(m.checksum) + (EncodeNums(ms) + pool));
    AtConcat(s, p, EncodeWord(m.checksum), EncodeNums(ms) + pool);
    AtConcat(s, p + 4, EncodeNums(ms), pool);
    ReadNumsInverts(s, pos, ns, true);
    ReadWordInverts(s, p, m.checksum);
    ReadNumsInverts(s, p + 4, ms, true);
    ReadPoolInverts(s, p + 4 + |EncodeNums(ms)|, m, maxPool);
  }

  lemma ModuleInverts(s: seq<byte>, pos: nat, m: Module, maxPool: int)
    requires ModuleFits(m) && At(s, pos, ModuleBytes(m))
    ensures pos < |s| && s[pos] == SECT_MODULE
    ensures !PoolWithin(m, maxPool) ==> ReadPreamble(s, pos + 1, maxPool).None?
    ensures PoolWithin(m, maxPool) ==>
              var p := pos + 1 + |PreambleBytes(m)|;
              && ReadPreamble(s, pos + 1, maxPool) == Some((m.(sections := []), p))
              && Run(m.strs, s, p, Scopes([], [])) == Loaded(m.sections, pos + |ModuleBytes(m)|)
  {
    hide ReadPreamble, PreambleBytes, ModuleBytes, SectionsBytes, Run, Fits, Flatten, PoolWithin, At, Distinct, Small;
    ModuleParts(s, pos, m);
    ReadPreambleInverts(s, pos + 1, m, maxPool);
    SectionsToEnd(s, pos + 1 + |PreambleBytes(m)|, m);
  }

  lemma ModuleParts(s: seq<byte>, pos: nat, m: Module)
    requires ModuleFits(m) && At(s, pos, ModuleBytes(m))
    ensures pos < |s| && s[pos] == SECT_MODULE && At(s, pos + 1, PreambleBytes(m))
    ensures At(s, pos + 1 + |PreambleBytes(m)|, SectionsBytes(m.strs, m.sections) + [SECT_MODULE_END])
    ensures |ModuleBytes(m)| == 1 + |PreambleBytes(m)| + |SectionsBytes(m.strs, m.sections)| + 1
  {
    hide PreambleBytes, SectionsBytes, Fits, Flatten, Distinct, Small;
    var tail := SectionsBytes(m.strs, m.sections) + [SECT_MODULE_END];
    AtConcat(s, pos, [SECT_MODULE], PreambleBytes(m) + tail);
    AtConcat(s, pos + 1, PreambleBytes(m), tail);
    AtIndex(s, pos, [SECT_MODULE], 0);
  }

  lemma SectionsToEnd(s: seq<byte>, p: nat, m: Module)
    requires ModuleFits(m) && At(s, p, SectionsBytes(m.strs, m.sections) + [SECT_MODULE_END])
    ensures Run(m.strs, s, p, Scopes([], []))
         == Loaded(m.sections, p + |SectionsBytes(m.strs, m.sections)| + 1)
  {
    hide SectionsBytes, Run, Fits, Flatten;
    var body := SectionsBytes(m.strs, m.sections);
    AtConcat(s, p, body, [SECT_MODULE_END]);
    AtIndex(s, p + |body|, [SECT_MODULE_END], 0);
    SectionsInvert(m.strs, s, p, Scopes([], []), m.sections);
    RunEnd(m.strs, s, p + |body|, Scopes([], []).Append(m.sections));
    assert [] + m.sections == m.sections;
  }

  lemma RunEnd(strs: seq<CString>, s: seq<byte>, pos: nat, st: Scopes)
    requires pos < |s| && s[pos] == SECT_MODULE_END && st.open == []
    ensures Run(strs, s, pos, st) == Loaded(st.items, pos + 1)
  {
  }

  lemma {:induction false} ModulesInvert(s: seq<byte>, pos: nat, ms: seq<Module>, maxPool: int)
    requires forall i :: 0 <= i < |ms| ==> ModuleFits(ms[i])
    requires At(s, pos, ModulesBytes(ms)) && pos + |ModulesBytes(ms)| == |s|
    ensures LoadModules(s, pos, maxPool)
         == if forall i :: 0 <= i < |ms| ==> PoolWithin(ms[i], maxPool) then Some(ms) else None
    decreases |ms|
  {
    hide ModuleBytes, PreambleBytes, Run, ReadPreamble, ModuleFits, PoolWithin;
    if ms != [] {
      assert ms == [ms[0]] + ms[1..];
      AtConcat(s, pos, ModuleBytes(ms[0]), ModulesBytes(ms[1..]));
      ModuleInverts(s, pos, ms[0], maxPool);
      if PoolWithin(ms[0], maxPool) {
        ModulesInvert(s, pos + |ModuleBytes(ms[0])|, ms[1..], maxPool);
      }
    }
  }

  /**
   Writing modules and loading the file returns the modules, section for section
   and record for record, exactly when no constant pool exceeds the loader's
   limit; otherwise the load fails.
   */
  lemma FileRoundTrip(ms: seq<Module>)
    requires forall i :: 0 <= i < |ms| ==> ModuleFits(ms[i])
    ensures LoadFile(FileBytes(ms)) == if forall i :: 0 <= i < |ms| ==> ModuleLoadable(ms[i]) then Some(ms) else None
  {
    hide ModulesBytes, LoadModules, ModuleFits, PoolWithin;
    var s := FileBytes(ms);
    assert s[..8] == HEADER[..8];
    assert s[|HEADER|..] == ModulesBytes(ms);
    ModulesInvert(s, |HEADER|, ms, MAX_POOL);
  }

  /** Different module lists have different files, whatever their size. */
  lemma FileBytesInjective(ms: seq<Module>, ns: seq<Module>)
    requires forall i :: 0 <= i < |ms| ==> ModuleFits(ms[i])
    requires forall i :: 0 <= i < |ns| ==> ModuleFits(ns[i])
    requires FileBytes(ms) == FileBytes(ns)
    ensures ms == ns
  {
    hide ModulesBytes, LoadModules;
    var s := FileBytes(ms);
    assert s[|HEADER|..] == ModulesBytes(ms) && s[|HEADER|..] == ModulesBytes(ns);
    ModulesInvert(s, |HEADER|, ms, TWO_31);
    ModulesInvert(s, |HEADER|, ns, TWO_31);
  }

  // ------------------------------------------------------------------- Limits

  /** One string one byte too long for the loader. */
  const LONGEST: CString := NoNul(MAX_POOL)

  function NoNul(n: nat): (s: CString)
    ensures |s| == n
  {
    seq(n, i => 1)
  }

  /** A module the compiler writes and the loader refuses: its pool has MAX_POOL + 1 bytes. */
  lemma LargePoolLost()
    ensures var m := Module(LONGEST, 0, 0, [LONGEST], []);
            ModuleFits(m) && |Flatten(m.strs)| == MAX_POOL + 1 && LoadFile(FileBytes([m])) == None
  {
    hide FileBytes, LoadFile;
    var m := Module(LONGEST, 0, 0, [LONGEST], []);
    assert m.strs[..0] == [] && Flatten(m.strs) == [] + LONGEST + [0];
    FileRoundTrip([m]);
    assert !ModuleLoadable([m][0]);
  }

  /** The bytes of a file whose module has no end tag. */
  lemma UnendedBytes(m: Module)
    requires ModuleFits(m)
    ensures var file := HEADER + ModuleBytes(m);
      file[..|file| - 1] == HEADER + ([SECT_MODULE] + (PreambleBytes(m) + SectionsBytes(m.strs, m.sections)))
  {
    hide PreambleBytes, SectionsBytes;
  }

  lemma SectionsToFileEnd(s: seq<byte>, p: nat, m: Module)
    requires ModuleFits(m) && At(s, p, SectionsBytes(m.strs, m.sections))
    requires p + |SectionsBytes(m.strs, m.sections)| == |s|
    ensures Run(m.strs, s, p, Scopes([], [])) == Unended(m.sections)
  {
    hide SectionsBytes, Fits, Flatten;
    SectionsInvert(m.strs, s, p, Scopes([], []), m.sections);
    assert [] + m.sections == m.sections;
  }

  lemma UnendedInverts(s: seq<byte>, m: Module)
    requires ModuleFits(m)
    requires s == HEADER + ([SECT_MODULE] + (PreambleBytes(m) + SectionsBytes(m.strs, m.sections)))
    ensures LoadModules(s, |HEADER|, MAX_POOL) == if ModuleLoadable(m) then Some([m]) else None
  {
    hide ReadPreamble, PreambleBytes, SectionsBytes, Run, Fits, Flatten, Distinct;
    var body := SectionsBytes(m.strs, m.sections);
    var p := |HEADER| + 1 + |PreambleBytes(m)|;
    assert At(s, |HEADER|, [SECT_MODULE] + (PreambleBytes(m) + body));
    AtConcat(s, |HEADER|, [SECT_MODULE], PreambleBytes(m) + body);
    AtConcat(s, |HEADER| + 1, PreambleBytes(m), body);
    AtIndex(s, |HEADER|, [SECT_MODULE], 0);
    ReadPreambleInverts(s, |HEADER| + 1, m, MAX_POOL);
    SectionsToFileEnd(s, p, m);
  }

  /** A file that lost its last byte, the end tag of its only module, loads all the same. */
  lemma UnendedModuleLoads(m: Module)
    requires ModuleFits(m)
    ensures var file := HEADER + ModuleBytes(m);
      LoadFile(file[..|file| - 1]) == if ModuleLoadable(m) then Some([m]) else None
  {
    hide ModuleBytes, PreambleBytes, SectionsBytes, LoadModules, Fits, Flatten, Distinct, ModuleLoadable;
    UnendedBytes(m);
    var s := HEADER + ([SECT_MODULE] + (PreambleBytes(m) + SectionsBytes(m.strs, m.sections)));
    UnendedInverts(s, m);
    assert s[..8] == HEADER[..8];
  }
}

/**
 What a written module says as a whole (ecCreateModuleSection,
 createDependencySection and createGlobalProperties in
 src/compiler/ecModuleWrite.c): which dependencies with which versions, the
 initializer, and the global properties in the order they were emitted in.
 */
module ModuleMeaning {
  import opened AttributeBits
  import opened Bytes
  import opened ConstantPool
  import opened GlobalRef
  import opened ModuleFormat
  import opened ObjectTree
  import opened ModuleFile
  import opened ModuleWriter
  import opened SectionMeaning

  // ---------------------------------------------------------------- Dependencies

  /** The greatest multiple of 1000 toward zero: the version without its patch number. */
  predicate WithoutPatch(v: int, version: int) {
    && v % 1000 == 0 && Abs(v) <= Abs(version) < Abs(v) + 1000
    && (version >= 0 ==> v >= 0) && (version <= 0 ==> v <= 0)
  }

  /** A dependency section: bound modules ask for a compatible version, others for a range. */
  predicate SaysDependency(env: Env, x: Section, d: Used) {
    && x.Dependency? && x.name == d.name && x.checksum == d.checksum
    && (if env.bind then x.minVersion == x.maxVersion && WithoutPatch(x.minVersion, d.version)
        else x.minVersion == d.minVersion && x.maxVersion == d.maxVersion)
  }

  /** Dependencies are left out when merging, when the module goes into the same output file, and on oneself. */
  predicate Wanted(o: Options, name: CString, d: Used) {
    !o.merge && !(d.compiling && o.outputFile) && d.name != name
  }

  ghost predicate SaysDependencies(env: Env, xs: seq<Section>, o: Options, name: CString, ds: seq<Used>) {
    exists places :: ArePlaces(places, o, name, ds) && |places| == |xs| && SaysAt(env, xs, ds, places)
  }

  /** The places of the dependencies that are wanted, in order. */
  ghost predicate ArePlaces(places: seq<nat>, o: Options, name: CString, ds: seq<Used>) {
    && (forall k :: 0 <= k < |places| ==> places[k] < |ds|)
    && (forall k, l :: 0 <= k < l < |places| ==> places[k] < places[l])
    && forall i :: 0 <= i < |ds| ==> (i in places <==> Wanted(o, name, ds[i]))
  }

  ghost predicate SaysAt(env: Env, xs: seq<Section>, ds: seq<Used>, places: seq<nat>) {
    && |places| == |xs|
    && forall k :: 0 <= k < |xs| ==> places[k] < |ds| && SaysDependency(env, xs[k], ds[places[k]])
  }

  lemma DependencySays(env: Env, d: Used)
    ensures SaysDependency(env, DependencyOf(env, d), d)
  {
  }

  lemma {:induction false} DependenciesSay(env: Env, o: Options, name: CString, ds: seq<Used>)
    ensures SaysDependencies(env, DependenciesOf(env, o, name, ds), o, name, ds)
    decreases |ds|
  {
    hide SaysDependency, DependencyOf, SaysAt, ArePlaces;
    if ds == [] {
      NoDependenciesSay(env, o, name);
    } else {
      var last := |ds| - 1;
      DependenciesSay(env, o, name, ds[..last]);
      var xs := DependenciesOf(env, o, name, ds[..last]);
      var places: seq<nat> :| ArePlaces(places, o, name, ds[..last]) && |places| == |xs|
                              && SaysAt(env, xs, ds[..last], places);
      OneMorePlace(places, o, name, ds);
      OneMoreDependency(env, xs, ds, places);
    }
  }

  lemma NoDependenciesSay(env: Env, o: Options, name: CString)
    ensures SaysDependencies(env, [], o, name, [])
  {
    assert ArePlaces([], o, name, []) && SaysAt(env, [], [], []);
  }

  lemma OneMorePlace(places: seq<nat>, o: Options, name: CString, ds: seq<Used>)
    requires ds != [] && ArePlaces(places, o, name, ds[..|ds| - 1])
    ensures ArePlaces(if Wanted(o, name, ds[|ds| - 1]) then places + [|ds| - 1] else places, o, name, ds)
  {
    var last := |ds| - 1;
    assert forall i :: i in places + [last] <==> i in places || i == last;
  }

  lemma OneMoreDependency(env: Env, xs: seq<Section>, ds: seq<Used>, places: seq<nat>)
    requires ds != [] && SaysAt(env, xs, ds[..|ds| - 1], places)
    ensures SaysAt(env, xs + [], ds, places)
    ensures SaysAt(env, xs + [DependencyOf(env, ds[|ds| - 1])], ds, places + [|ds| - 1])
  {
    hide SaysDependency, DependencyOf;
    assert xs + [] == xs;
    DependencySays(env, ds[|ds| - 1]);
  }

  // ----------------------------------------------------------------- Initializer

  /** Text of one-byte characters. */
  predicate Spells(bytes: seq<byte>, text: string) {
    |bytes| == |text| && forall i :: 0 <= i < |text| ==> bytes[i] == text[i] as int
  }

  lemma InitializerName()
    ensures Spells(INITIALIZER_NAME.name, "__initializer__") && Spells(INITIALIZER_NAME.space, "ejs")
  {
  }

  ghost predicate SaysInitializerBits(written: int32, f: FunInfo) {
    forall k: nat :: HasBit(written, k) ==
      (k == FUN_MODULE_INITIALIZER || (k == FUN_CONSTRUCTOR && f.isConstructor) || (k == FUN_REST_ARGS && f.rest)
       || (k == FUN_FULL_SCOPE && f.fullScope) || (k == FUN_HAS_RETURN && f.hasReturn))
  }

  ghost predicate SaysInitializer(env: Env, xs: seq<Section>, f: Option<Fun>) {
    if f.None? then xs == []
    else
      && |xs| == 1 && xs[0].Function? && xs[0].fun.slot == -1 && SaysInitializerBits(xs[0].fun.attributes, f.value.info)
      && Spells(xs[0].fun.qname.name, "__initializer__") && Spells(xs[0].fun.qname.space, "ejs")
      && SaysFun(env, xs[0], xs[0].fun.qname, f.value)
  }

  lemma {:induction false} NoBits(k: nat)
    ensures !HasBit(0, k)
  {
    if k > 0 {
      NoBits(k - 1);
    }
  }

  lemma InitializerBitsSay(f: FunInfo)
    ensures SaysInitializerBits(FunAttributes(SetIf(0, FUN_MODULE_INITIALIZER, true), f), f)
  {
    hide HasBit;
    forall k: nat {
      NoBits(k);
    }
  }

  lemma InitializerSays(env: Env, f: Option<Fun>)
    requires f.Some? ==> FunOk(f.value)
    ensures SaysInitializer(env, InitializerOf(env, f), f)
  {
    hide FunOk, FunSection, FunAttributes, SetIf, SaysFun, SaysInitializerBits, Spells;
    if f.Some? {
      var attributes := FunAttributes(SetIf(0, FUN_MODULE_INITIALIZER, true), f.value.info);
      InitializerName();
      InitializerBitsSay(f.value.info);
      FunSectionSays(env, INITIALIZER_NAME, attributes, -1, f.value);
      FunctionNamed(env, FunSection(env, INITIALIZER_NAME, attributes, -1, f.value), INITIALIZER_NAME, f.value);
    }
  }

  lemma FunctionNamed(env: Env, x: Section, q: Name, f: Fun)
    requires SaysFun(env, x, q, f)
    ensures x.Function? && x.fun.qname == q
  {
  }

  // ------------------------------------------------------------ Global properties

  /** One run of sections for each slot emitted, in that order. */
  ghost predicate SaysGlobals(env: Env, xs: seq<Section>, globals: seq<Prop>, order: seq<int>) {
    exists cuts :: IsCut(cuts, |xs|, |order|) && SaysEach(env, xs, globals, order, cuts)
  }

  ghost predicate SaysEach(env: Env, xs: seq<Section>, globals: seq<Prop>, order: seq<int>, cuts: seq<nat>)
    requires IsCut(cuts, |xs|, |order|)
  {
    forall k :: 0 <= k < |order| ==>
      && 0 <= order[k] < |globals|
      && Says(env, xs[cuts[k]..cuts[k + 1]], globals[order[k]], order[k], true)
  }

  lemma {:induction false} GlobalsSay(env: Env, globals: seq<Prop>, order: seq<int>)
    requires |globals| < TWO_31 && forall i :: 0 <= i < |globals| ==> PropOk(globals[i], true)
    requires forall k :: 0 <= k < |order| ==> 0 <= order[k] < |globals|
    ensures SaysGlobals(env, GlobalSections(env, globals, order), globals, order)
    decreases |order|
  {
    hide PropOk, SlotSections, Says, SaysEach;
    var xs := GlobalSections(env, globals, order);
    if order == [] {
      NoGlobalsSay(env, globals);
    } else {
      var last := |order| - 1;
      GlobalsSay(env, globals, order[..last]);
      var front := GlobalSections(env, globals, order[..last]);
      SlotSays(env, globals[order[last]], order[last], true);
      var cuts: seq<nat> :| IsCut(cuts, |front|, last) && SaysEach(env, front, globals, order[..last], cuts);
      assert xs[..|front|] == front && xs[|front|..] == SlotSections(env, globals[order[last]], order[last], true);
      OneMoreGlobal(env, front, xs, globals, order, cuts);
    }
  }

  lemma NoGlobalsSay(env: Env, globals: seq<Prop>)
    ensures SaysGlobals(env, [], globals, [])
  {
    assert IsCut([0], 0, 0) && SaysEach(env, [], globals, [], [0]);
  }

  lemma OneMoreGlobal(env: Env, front: seq<Section>, xs: seq<Section>, globals: seq<Prop>, order: seq<int>, cuts: seq<nat>)
    requires order != [] && front <= xs && IsCut(cuts, |front|, |order| - 1)
    requires SaysEach(env, front, globals, order[..|order| - 1], cuts)
    requires var slot := order[|order| - 1];
             0 <= slot < |globals| && Says(env, xs[|front|..], globals[slot], slot, true)
    ensures SaysGlobals(env, xs, globals, order)
  {
    hide Says;
    var last := |order| - 1;
    var more: seq<nat> := cuts + [|xs|];
    assert IsCut(more, |xs|, |order|);
    forall i | 0 <= i < last ensures xs[more[i]..more[i + 1]] == front[cuts[i]..cuts[i + 1]] {
      assert cuts[i] <= cuts[i + 1] <= cuts[last];
    }
    assert xs[more[last]..more[last + 1]] == xs[|front|..];
    assert SaysEach(env, xs, globals, order, more);
  }

  // --------------------------------------------------------------------- Modules

  /** Dependencies up to i, the initializer up to j, then the global properties. */
  ghost predicate SaysModule(env: Env, xs: seq<Section>, m: Source, order: seq<int>) {
    exists i, j :: 0 <= i <= j <= |xs| && SaysModuleParts(env, xs, m, order, i, j)
  }

  ghost predicate SaysModuleParts(env: Env, xs: seq<Section>, m: Source, order: seq<int>, i: nat, j: nat)
    requires i <= j <= |xs|
  {
    && SaysDependencies(env, xs[..i], m.options, m.name, m.used)
    && SaysInitializer(env, xs[i..j], m.initializer)
    && SaysGlobals(env, xs[j..], m.globals, order)
  }

  lemma SectionsSay(env: Env, m: Source, order: seq<int>)
    requires SourceOk(env, m) && forall k :: 0 <= k < |order| ==> 0 <= order[k] < |m.globals|
    ensures SaysModule(env, SectionsOf(env, m, order), m, order)
  {
    hide DependenciesOf, InitializerOf, GlobalSections, PropOk, DescribesSlot, FunOk,
      SaysDependencies, SaysInitializer, SaysGlobals;
    var deps, init := DependenciesOf(env, m.options, m.name, m.used), InitializerOf(env, m.initializer);
    var rest := GlobalSections(env, m.globals, order);
    DependenciesSay(env, m.options, m.name, m.used);
    InitializerSays(env, m.initializer);
    GlobalsSay(env, m.globals, order);
    var xs, i, j := SectionsOf(env, m, order), |deps|, |deps| + |init|;
    assert xs[..i] == deps && xs[i..j] == init && xs[j..] == rest;
    assert SaysModuleParts(env, xs, m, order, i, j);
  }

  /** What a loaded file says is the module that was written. */
  lemma LoadedSays(env: Env, m: Source, order: seq<int>, w: Module)
    requires SourceOk(env, m) && forall k :: 0 <= k < |order| ==> 0 <= order[k] < |m.globals|
    requires w.sections == SectionsOf(env, m, order) && ModuleFits(w) && ModuleLoadable(w)
    ensures LoadFile(HEADER + ModuleBytes(w)) == Some([w]) && SaysModule(env, w.sections, m, order)
  {
    hide SectionsOf, SaysModule, ModuleFits, ModuleBytes, LoadFile, SourceOk, ModuleLoadable;
    ModuleFileLoads(w);
    SectionsSay(env, m, order);
  }
}

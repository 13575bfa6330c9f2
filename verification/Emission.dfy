/**
 Emissions: the bytes a routine of the writer adds to the code buffer, or none
 if it marks the write as failed; and how the emissions of a section's fields
 make up the section.
 */
module Emission {
  import opened AttributeBits
  import opened Bytes
  import opened NumberCodec
  import opened ConstantPool
  import opened GlobalRef
  import opened ModuleFormat

  type Emission = Option<seq<byte>>

  function Then(a: Emission, b: Emission): (e: Emission)
    ensures e.Some? <==> a.Some? && b.Some?
  {
    if a.None? || b.None? then None else Some(a.value + b.value)
  }

  const NOTHING: Emission := Some([])

  lemma ThenLength(a: Emission, b: Emission)
    ensures Then(a, b).Some? ==> |Then(a, b).value| == |a.value| + |b.value|
  {
  }

  lemma ThenAssoc(a: Emission, b: Emission, c: Emission)
    ensures Then(Then(a, b), c) == Then(a, Then(b, c))
  {
    if a.Some? && b.Some? && c.Some? {
      assert a.value + b.value + c.value == a.value + (b.value + c.value);
    }
  }

  lemma ThenNothing(a: Emission)
    ensures Then(a, NOTHING) == a && Then(NOTHING, a) == a
  {
    if a.Some? {
      assert a.value + [] == a.value && [] + a.value == a.value;
    }
  }

  // --------------------------------------------------------------------- Fields

  function NumCode(n: int32): Emission {
    Some(EncodeNum(n))
  }

  ghost function ConstCode(strs: seq<CString>, s: CString): Emission
    requires Small(strs)
  {
    if s in strs then Some(EncodeNum(Index(strs, s))) else None
  }

  ghost function NameCode(strs: seq<CString>, q: Name): Emission
    requires Small(strs)
  {
    Then(ConstCode(strs, q.name), ConstCode(strs, q.space))
  }

  ghost function RefCode(strs: seq<CString>, ref: Ref): Emission
    requires Small(strs)
  {
    if Writable(strs, ref) then Some(EncodeRef(strs, ref)) else None
  }

  lemma Regroup3(o: Emission, a: Emission, b: Emission, c: Emission)
    ensures Then(Then(Then(o, a), b), c) == Then(o, Then(a, Then(b, c)))
  {
    hide Then;
    ThenAssoc(Then(o, a), b, c);
    ThenAssoc(o, a, Then(b, c));
  }

  lemma Regroup4(o: Emission, a: Emission, b: Emission, c: Emission, d: Emission)
    ensures Then(Then(Then(Then(o, a), b), c), d) == Then(o, Then(a, Then(b, Then(c, d))))
  {
    hide Then;
    ThenAssoc(Then(Then(o, a), b), c, d);
    Regroup3(o, a, b, Then(c, d));
  }

  lemma Regroup5(o: Emission, a: Emission, b: Emission, c: Emission, d: Emission, e: Emission)
    ensures Then(Then(Then(Then(Then(o, a), b), c), d), e) == Then(o, Then(a, Then(b, Then(c, Then(d, e)))))
  {
    hide Then;
    ThenAssoc(Then(Then(Then(o, a), b), c), d, e);
    Regroup4(o, a, b, c, Then(d, e));
  }

  function OneByte(b: byte): Emission {
    Some([b])
  }

  function NumsCode(ns: seq<int32>): Emission {
    Some(EncodeNums(ns))
  }

  lemma {:induction false} NumsConcat(ms: seq<int32>, ns: seq<int32>)
    ensures EncodeNums(ms + ns) == EncodeNums(ms) + EncodeNums(ns)
    decreases |ms|
  {
    hide EncodeNum;
    if ms == [] {
      assert ms + ns == ns && [] + EncodeNums(ns) == EncodeNums(ns);
    } else {
      assert (ms + ns)[1..] == ms[1..] + ns;
      NumsConcat(ms[1..], ns);
      assert EncodeNum(ms[0]) + (EncodeNums(ms[1..]) + EncodeNums(ns))
          == EncodeNum(ms[0]) + EncodeNums(ms[1..]) + EncodeNums(ns);
    }
  }

  lemma OneNum(n: int32)
    ensures NumCode(n) == NumsCode([n])
  {
    hide EncodeNum;
    var one := [n];
    assert one[1..] == [];
    assert EncodeNums(one) == EncodeNum(n) + EncodeNums(one[1..]) == EncodeNum(n);
  }

  /** Numbers emitted one by one are a run of numbers. */
  lemma ThenNum(ns: seq<int32>, n: int32)
    ensures Then(NumCode(n), NumsCode(ns)) == NumsCode([n] + ns)
    ensures Then(NumsCode(ns), NumCode(n)) == NumsCode(ns + [n])
  {
    hide EncodeNum, EncodeNums;
    OneNum(n);
    NumsConcat([n], ns);
    NumsConcat(ns, [n]);
  }

  lemma TwoNums(o: Emission, a: int32, b: int32)
    ensures Then(Then(o, NumCode(a)), NumCode(b)) == Then(o, NumsCode([a, b]))
  {
    hide Then, NumCode, NumsCode;
    ThenAssoc(o, NumCode(a), NumCode(b));
    OneNum(b);
    ThenNum([b], a);
    assert [a] + [b] == [a, b];
  }

  lemma ThreeNums(o: Emission, a: int32, b: int32, c: int32)
    ensures Then(Then(Then(o, NumCode(a)), NumCode(b)), NumCode(c)) == Then(o, NumsCode([a, b, c]))
  {
    hide Then, NumCode, NumsCode;
    Regroup3(o, NumCode(a), NumCode(b), NumCode(c));
    OneNum(c);
    ThenNum([c], b);
    ThenNum([b, c], a);
    assert [b] + [c] == [b, c] && [a] + [b, c] == [a, b, c];
  }

  lemma FourNums(o: Emission, a: int32, b: int32, c: int32, d: int32)
    ensures Then(Then(Then(Then(o, NumCode(a)), NumCode(b)), NumCode(c)), NumCode(d)) == Then(o, NumsCode([a, b, c, d]))
  {
    hide Then, NumCode, NumsCode;
    Regroup4(o, NumCode(a), NumCode(b), NumCode(c), NumCode(d));
    OneNum(d);
    ThenNum([d], c);
    ThenNum([c, d], b);
    ThenNum([b, c, d], a);
    assert [c] + [d] == [c, d] && [b] + [c, d] == [b, c, d] && [a] + [b, c, d] == [a, b, c, d];
  }

  lemma SixNums(o: Emission, a: int32, b: int32, c: int32, d: int32, e: int32, f: int32)
    ensures Then(Then(Then(Then(Then(Then(o, NumCode(a)), NumCode(b)), NumCode(c)), NumCode(d)), NumCode(e)), NumCode(f))
         == Then(o, NumsCode([a, b, c, d, e, f]))
  {
    hide Then, NumCode, NumsCode;
    ThenAssoc(Then(Then(Then(Then(o, NumCode(a)), NumCode(b)), NumCode(c)), NumCode(d)), NumCode(e), NumCode(f));
    Regroup5(o, NumCode(a), NumCode(b), NumCode(c), NumCode(d), Then(NumCode(e), NumCode(f)));
    OneNum(f);
    ThenNum([f], e);
    ThenNum([e, f], d);
    ThenNum([d, e, f], c);
    ThenNum([c, d, e, f], b);
    ThenNum([b, c, d, e, f], a);
    assert [e] + [f] == [e, f] && [d] + [e, f] == [d, e, f] && [c] + [d, e, f] == [c, d, e, f];
    assert [b] + [c, d, e, f] == [b, c, d, e, f] && [a] + [b, c, d, e, f] == [a, b, c, d, e, f];
  }

  ghost function NameNums(strs: seq<CString>, q: Name, ns: seq<int32>): Emission
    requires Small(strs)
  {
    if HasName(strs, q) then Some(EncodeNums([Index(strs, q.name), Index(strs, q.space)] + ns)) else None
  }

  lemma NameIsNums(strs: seq<CString>, q: Name)
    requires Small(strs)
    ensures NameCode(strs, q) == NameNums(strs, q, [])
  {
    hide EncodeNum, EncodeNums, Index;
    if HasName(strs, q) {
      var i, j := Index(strs, q.name), Index(strs, q.space);
      OneNum(i);
      ThenNum([i], j);
      assert [i] + [j] == [i, j] + [];
    }
  }

  lemma NameThenNum(strs: seq<CString>, q: Name, ns: seq<int32>, n: int32)
    requires Small(strs)
    ensures Then(NameNums(strs, q, ns), NumCode(n)) == NameNums(strs, q, ns + [n])
  {
    hide EncodeNum, EncodeNums, Index;
    if HasName(strs, q) {
      var pair := [Index(strs, q.name), Index(strs, q.space)];
      ThenNum(pair + ns, n);
      assert pair + ns + [n] == pair + (ns + [n]);
    }
  }

  // ------------------------------------------------------------------- Sections

  ghost function SectionCode(strs: seq<CString>, x: Section): Emission
    requires Small(strs)
  {
    if Fits(strs, x) then Some(SectionBytes(strs, x)) else None
  }

  ghost predicate AllFit(strs: seq<CString>, xs: seq<Section>) {
    forall i :: 0 <= i < |xs| ==> Fits(strs, xs[i])
  }

  ghost function SectionsCode(strs: seq<CString>, xs: seq<Section>): (e: Emission)
    requires Small(strs)
    ensures e.Some? <==> AllFit(strs, xs)
  {
    if AllFit(strs, xs) then Some(SectionsBytes(strs, xs)) else None
  }

  lemma {:induction false} SectionsConcat(strs: seq<CString>, xs: seq<Section>, ys: seq<Section>)
    requires Small(strs)
    ensures SectionsCode(strs, xs + ys) == Then(SectionsCode(strs, xs), SectionsCode(strs, ys))
    decreases |xs|
  {
    hide Fits, SectionBytes;
    AllFitConcat(strs, xs, ys);
    if xs == [] {
      assert xs + ys == ys;
      ThenNothing(SectionsCode(strs, ys));
    } else {
      assert (xs + ys)[1..] == xs[1..] + ys;
      AllFitConcat(strs, [xs[0]], xs[1..]);
      AllFitConcat(strs, [xs[0]], xs[1..] + ys);
      assert [xs[0]] + xs[1..] == xs && [xs[0]] + (xs[1..] + ys) == xs + ys;
      SectionsConcat(strs, xs[1..], ys);
      if AllFit(strs, xs + ys) {
        assert SectionBytes(strs, xs[0]) + (SectionsBytes(strs, xs[1..]) + SectionsBytes(strs, ys))
            == (SectionBytes(strs, xs[0]) + SectionsBytes(strs, xs[1..])) + SectionsBytes(strs, ys);
      }
    }
  }

  lemma AllFitConcat(strs: seq<CString>, xs: seq<Section>, ys: seq<Section>)
    ensures AllFit(strs, xs + ys) <==> AllFit(strs, xs) && AllFit(strs, ys)
  {
    hide Fits;
    if AllFit(strs, xs + ys) {
      assert forall i :: 0 <= i < |xs| ==> (xs + ys)[i] == xs[i];
      forall i | 0 <= i < |ys| ensures Fits(strs, ys[i]) {
        assert (xs + ys)[|xs| + i] == ys[i];
      }
    }
  }

  lemma OneSection(strs: seq<CString>, x: Section)
    requires Small(strs)
    ensures SectionsCode(strs, [x]) == SectionCode(strs, x)
    ensures SectionsCode(strs, []) == NOTHING
  {
    hide Fits, SectionBytes;
    assert [x][1..] == [];
    assert AllFit(strs, [x]) <==> Fits(strs, [x][0]);
    if Fits(strs, x) {
      assert SectionsBytes(strs, [x]) == SectionBytes(strs, x) + [] == SectionBytes(strs, x);
    }
  }

  ghost function RefsCode(strs: seq<CString>, refs: seq<Ref>): Emission
    requires Small(strs)
  {
    if refs == [] then NOTHING else Then(RefCode(strs, refs[0]), RefsCode(strs, refs[1..]))
  }

  lemma {:induction false} RefsCodeIs(strs: seq<CString>, refs: seq<Ref>)
    requires Small(strs)
    ensures RefsCode(strs, refs)
         == if forall i :: 0 <= i < |refs| ==> Writable(strs, refs[i]) then Some(RefsBytes(strs, refs)) else None
    decreases |refs|
  {
    hide Writable, EncodeRef;
    if refs != [] {
      RefsCodeIs(strs, refs[1..]);
      assert refs == [refs[0]] + refs[1..];
    }
  }

  ghost function HandlerCode(strs: seq<CString>, h: Handler): Emission
    requires Small(strs)
  {
    if HandlerFits(strs, h) then Some(HandlerBytes(strs, h)) else None
  }

  ghost function HandlersCode(strs: seq<CString>, hs: seq<Handler>): Emission
    requires Small(strs)
  {
    if hs == [] then NOTHING else Then(HandlerCode(strs, hs[0]), HandlersCode(strs, hs[1..]))
  }

  lemma {:induction false} HandlersCodeIs(strs: seq<CString>, hs: seq<Handler>)
    requires Small(strs)
    ensures HandlersCode(strs, hs)
         == if forall i :: 0 <= i < |hs| ==> HandlerFits(strs, hs[i]) then Some(HandlersBytes(strs, hs)) else None
    decreases |hs|
  {
    hide HandlerFits, HandlerBytes;
    if hs != [] {
      HandlersCodeIs(strs, hs[1..]);
      assert hs == [hs[0]] + hs[1..];
    }
  }

  /** The name of a type, with the kind of the reference in its low bits. */
  ghost function TypeNameCode(strs: seq<CString>, s: CString): Emission
    requires Small(strs)
  {
    if s in strs then NumCode(Index(strs, s) * 4 + 1) else None
  }

  lemma RefParts(strs: seq<CString>, ref: Ref)
    requires Small(strs)
    ensures ref.NoRef? ==> RefCode(strs, ref) == NumCode(0)
    ensures ref.SlotRef? && 0 <= ref.slot < NUM_CLASS_PROP ==> RefCode(strs, ref) == NumCode(ref.slot * 4 + 2)
    ensures ref.NameRef? ==>
      RefCode(strs, ref) == Then(TypeNameCode(strs, ref.qname.name), ConstCode(strs, ref.qname.space))
  {
    hide EncodeNum, EncodeNums, IndexOf;
    match ref
    case NoRef => OneNum(0);
    case SlotRef(slot) =>
      if 0 <= slot < NUM_CLASS_PROP {
        OneNum(slot * 4 + 2);
      }
    case NameRef(q) =>
      if HasName(strs, q) {
        var a, b := Index(strs, q.name) * 4 + 1, Index(strs, q.space);
        OneNum(a);
        ThenNum([a], b);
        assert [a] + [b] == [a, b];
      }
  }

  lemma HandlerParts(strs: seq<CString>, h: Handler)
    requires Small(strs)
    ensures HandlerCode(strs, h)
         == Then(OneByte(h.flags),
                 Then(NumsCode([h.tryStart, h.tryEnd, h.handlerStart, h.handlerEnd, h.numBlocks, h.numStack]),
                      RefCode(strs, h.catchType)))
  {
    hide EncodeNums, EncodeRef, Writable;
  }

  /** The exception section of a function, if it has handlers. */
  ghost function ExceptionCode(strs: seq<CString>, hs: seq<Handler>): Emission
    requires Small(strs)
  {
    if hs == [] then NOTHING else Then(OneByte(SECT_EXCEPTION), HandlersCode(strs, hs))
  }

  function LineCode(line: DebugLine): Emission
    requires |line.source| + 1 < TWO_31
  {
    Then(NumCode(line.offset), Then(NumCode(|line.source| + 1), Some(line.source + [0])))
  }

  /** The debug section, if there is one; it fails if it is too long for its size word. */
  function DebugCode(debug: Option<seq<DebugLine>>): Emission {
    match debug
    case None => NOTHING
    case Some(lines) =>
      var bytes := DebugBytes(lines);
      if |bytes| <= ENCODE_MAX_WORD then Some([SECT_DEBUG] + (EncodeWord(|bytes|) + bytes)) else None
  }

  function LinesCode(lines: seq<DebugLine>): Emission
    requires forall i :: 0 <= i < |lines| ==> |lines[i].source| + 1 < TWO_31
  {
    if lines == [] then NOTHING else Then(LineCode(lines[0]), LinesCode(lines[1..]))
  }

  lemma {:induction false} LinesCodeIs(lines: seq<DebugLine>)
    requires forall i :: 0 <= i < |lines| ==> |lines[i].source| + 1 < TWO_31
    ensures LinesCode(lines) == Some(LinesBytes(lines))
    decreases |lines|
  {
    hide EncodeNum;
    if lines != [] {
      LinesCodeIs(lines[1..]);
      var line := lines[0];
      assert EncodeNum(line.offset) + (EncodeNum(|line.source| + 1) + (line.source + [0]))
          == EncodeNum(line.offset) + MultiBytes(line.source);
    }
  }

  /** Replacing four bytes of the code; fails on a word that is too large. */
  function PatchCode(o: Emission, offset: nat, value: int): Emission
    requires o.Some? ==> offset + 4 <= |o.value|
  {
    if o.None? || Abs(value) > ENCODE_MAX_WORD then None
    else Some(o.value[..offset] + EncodeWord(value) + o.value[offset + 4..])
  }

  /** A word that was reserved and then patched might as well have been emitted right away. */
  lemma PatchReserved(o: seq<byte>, tag: byte, bytes: seq<byte>, value: int)
    ensures PatchCode(Some(o + [tag] + EncodeWord(0) + bytes), |o| + 1, value)
         == if Abs(value) > ENCODE_MAX_WORD then None else Some(o + ([tag] + (EncodeWord(value) + bytes)))
  {
    hide EncodeWord;
    if Abs(value) <= ENCODE_MAX_WORD {
      var code := o + [tag] + EncodeWord(0) + bytes;
      assert code[..|o| + 1] == o + [tag];
      assert code[|o| + 1 + 4..] == bytes;
      assert o + [tag] + EncodeWord(value) + bytes == o + ([tag] + (EncodeWord(value) + bytes));
    }
  }

  lemma DebugBytesParts(lines: seq<DebugLine>)
    requires |lines| < TWO_31
    ensures Then(NumCode(|lines|), Some(LinesBytes(lines))) == Some(DebugBytes(lines))
  {
  }

  // --------------------------------------------------- Sections from their parts

  /** Lengths that fit their fields, as those of a function in memory do. */
  predicate CodeSized(f: FunHeader, code: Code) {
    match code
    case NoCode => f.numHandlers == 0
    case Code(bytes, handlers, debug) =>
      && 0 < |bytes| < TWO_31 && f.numHandlers == |handlers|
      && (debug.Some? ==> |debug.value| < TWO_31)
      && (debug.Some? ==> forall i :: 0 <= i < |debug.value| ==> |debug.value[i].source| + 1 < TWO_31)
  }

  ghost function FunHeadCode(strs: seq<CString>, f: FunHeader): Emission
    requires Small(strs)
  {
    Then(NameNums(strs, f.qname, [f.attributes]),
         Then(OneByte(f.strict),
              Then(RefCode(strs, f.resultType), NumsCode([f.slot, f.numProp, f.numArgs, f.numDefault]))))
  }

  function FunBodyCode(f: FunHeader, code: Code): Emission
    requires CodeSized(f, code)
  {
    Then(NumsCode([f.numHandlers, CodeLen(code)]), Some(if code.NoCode? then [] else code.bytes))
  }

  ghost function TailCode(strs: seq<CString>, code: Code): Emission
    requires Small(strs)
  {
    if code.NoCode? then NOTHING else Then(ExceptionCode(strs, code.handlers), DebugCode(code.debug))
  }

  lemma FunHeadParts(strs: seq<CString>, f: FunHeader, code: Code)
    requires Small(strs) && CodeSized(f, code) && CodeFits(strs, f, code)
    ensures Then(FunHeadCode(strs, f), FunBodyCode(f, code))
         == if FunFits(strs, f) then Some(FunBytes(strs, f, code)) else None
  {
    hide EncodeNums, EncodeRef, Writable, CodeFits;
    if FunFits(strs, f) {
      var a := EncodeNums([Index(strs, f.qname.name), Index(strs, f.qname.space)] + [f.attributes]);
      var r := EncodeRef(strs, f.resultType);
      var n := EncodeNums([f.slot, f.numProp, f.numArgs, f.numDefault]);
      var m := EncodeNums([f.numHandlers, CodeLen(code)]);
      var b := if code.NoCode? then [] else code.bytes;
      NumsConcat([f.slot, f.numProp, f.numArgs, f.numDefault], [f.numHandlers, CodeLen(code)]);
      assert [f.slot, f.numProp, f.numArgs, f.numDefault] + [f.numHandlers, CodeLen(code)]
          == [f.slot, f.numProp, f.numArgs, f.numDefault, f.numHandlers, CodeLen(code)];
      assert [Index(strs, f.qname.name), Index(strs, f.qname.space)] + [f.attributes]
          == [Index(strs, f.qname.name), Index(strs, f.qname.space), f.attributes];
      Reassociate(a, [f.strict], r, n, m, b);
    }
  }

  lemma Reassociate(a: seq<byte>, s: seq<byte>, r: seq<byte>, n: seq<byte>, m: seq<byte>, b: seq<byte>)
    ensures (a + (s + (r + n))) + (m + b) == a + (s + (r + ((n + m) + b)))
  {
  }

  /** The exception and debug sections fit exactly if the code does. */
  lemma TailParts(strs: seq<CString>, f: FunHeader, code: Code)
    requires Small(strs) && CodeSized(f, code)
    ensures TailCode(strs, code) == if CodeFits(strs, f, code) then Some(CodeTailBytes(strs, f, code)) else None
  {
    hide HandlersBytes, HandlerFits, DebugBytes, EncodeWord;
    if code.Code? {
      HandlersCodeIs(strs, code.handlers);
    }
  }

  /** A function section up to its members. */
  ghost function FunStartCode(strs: seq<CString>, f: FunHeader, code: Code): Emission
    requires Small(strs) && CodeSized(f, code)
  {
    Then(OneByte(SECT_FUNCTION), Then(FunHeadCode(strs, f), Then(FunBodyCode(f, code), TailCode(strs, code))))
  }

  lemma FunctionParts(strs: seq<CString>, f: FunHeader, code: Code, body: seq<Section>)
    requires Small(strs) && CodeSized(f, code)
    ensures SectionCode(strs, Function(f, code, body))
         == Then(FunStartCode(strs, f, code), Then(SectionsCode(strs, body), OneByte(SECT_FUNCTION_END)))
  {
    hide FunHeadCode, FunBodyCode, TailCode, CodeFits, FunFits, FunBytes, CodeTailBytes, SectionsBytes;
    TailParts(strs, f, code);
    var tag, head := OneByte(SECT_FUNCTION), Then(FunHeadCode(strs, f), FunBodyCode(f, code));
    var rest := Then(SectionsCode(strs, body), OneByte(SECT_FUNCTION_END));
    ThenAssoc(FunHeadCode(strs, f), FunBodyCode(f, code), TailCode(strs, code));
    ThenAssoc(tag, Then(head, TailCode(strs, code)), rest);
    ThenAssoc(head, TailCode(strs, code), rest);
    if CodeFits(strs, f, code) {
      FunHeadParts(strs, f, code);
    }
  }

  ghost function ClassHeadCode(strs: seq<CString>, c: ClassHeader): Emission
    requires Small(strs) && |c.interfaces| < TWO_31
  {
    Then(NameNums(strs, c.qname, [c.attributes, c.slot]),
         Then(RefCode(strs, c.base),
              Then(NumsCode([c.numTypeProp, c.numInstanceProp, |c.interfaces|]), RefsCode(strs, c.interfaces))))
  }

  lemma ClassHeadParts(strs: seq<CString>, c: ClassHeader)
    requires Small(strs) && |c.interfaces| < TWO_31
    ensures ClassHeadCode(strs, c) == if ClassFits(strs, c) then Some(ClassBytes(strs, c)) else None
  {
    hide EncodeNums, EncodeRef, Writable, RefsBytes;
    RefsCodeIs(strs, c.interfaces);
    if HasName(strs, c.qname) {
      assert [Index(strs, c.qname.name), Index(strs, c.qname.space)] + [c.attributes, c.slot]
          == [Index(strs, c.qname.name), Index(strs, c.qname.space), c.attributes, c.slot];
    }
  }

  lemma ClassParts(strs: seq<CString>, c: ClassHeader, body: seq<Section>)
    requires Small(strs) && |c.interfaces| < TWO_31
    ensures SectionCode(strs, Class(c, body))
         == Then(Then(OneByte(SECT_CLASS), ClassHeadCode(strs, c)),
                 Then(SectionsCode(strs, body), OneByte(SECT_CLASS_END)))
  {
    hide ClassHeadCode, ClassFits, ClassBytes, SectionsBytes;
    ClassHeadParts(strs, c);
    ThenAssoc(OneByte(SECT_CLASS), ClassHeadCode(strs, c), Then(SectionsCode(strs, body), OneByte(SECT_CLASS_END)));
  }

  ghost function BlockStartCode(strs: seq<CString>, b: BlockHeader): Emission
    requires Small(strs)
  {
    Then(OneByte(SECT_BLOCK), Then(ConstCode(strs, b.name), NumsCode([b.slot, b.numProp])))
  }

  lemma BlockParts(strs: seq<CString>, b: BlockHeader, body: seq<Section>)
    requires Small(strs)
    ensures SectionCode(strs, Block(b, body))
         == Then(BlockStartCode(strs, b),
                 Then(SectionsCode(strs, body), OneByte(SECT_BLOCK_END)))
  {
    hide EncodeNum, EncodeNums, SectionsBytes;
    ThenAssoc(OneByte(SECT_BLOCK), Then(ConstCode(strs, b.name), NumsCode([b.slot, b.numProp])),
              Then(SectionsCode(strs, body), OneByte(SECT_BLOCK_END)));
    if b.name in strs {
      ThenNum([b.slot, b.numProp], Index(strs, b.name));
      assert [Index(strs, b.name)] + [b.slot, b.numProp] == [Index(strs, b.name), b.slot, b.numProp];
    }
  }

  ghost function ValueCode(strs: seq<CString>, value: Option<CString>): Emission
    requires Small(strs)
  {
    if value.None? then NOTHING else ConstCode(strs, value.value)
  }

  lemma PropertyParts(strs: seq<CString>, p: PropHeader)
    requires Small(strs) && (p.value.Some? <==> HasBit(p.attributes, PROP_HAS_VALUE))
    ensures SectionCode(strs, Property(p))
         == Then(OneByte(SECT_PROPERTY),
                 Then(NameNums(strs, p.qname, [p.attributes, p.slot]),
                      Then(RefCode(strs, p.ptype), ValueCode(strs, p.value))))
  {
    hide EncodeNum, EncodeNums, EncodeRef, Writable;
    if HasName(strs, p.qname) {
      assert [Index(strs, p.qname.name), Index(strs, p.qname.space)] + [p.attributes, p.slot]
          == [Index(strs, p.qname.name), Index(strs, p.qname.space), p.attributes, p.slot];
    }
    if p.value.Some? && p.value.value in strs {
      OneNum(Index(strs, p.value.value));
    }
  }

  lemma DocParts(strs: seq<CString>, text: CString)
    requires Small(strs)
    ensures SectionCode(strs, Doc(text)) == Then(OneByte(SECT_DOC), ConstCode(strs, text))
  {
    hide EncodeNum, EncodeNums;
    if text in strs {
      OneNum(Index(strs, text));
    }
  }

  lemma DependencyParts(strs: seq<CString>, x: Section)
    requires Small(strs) && x.Dependency?
    ensures SectionCode(strs, x)
         == Then(OneByte(SECT_DEPENDENCY), Then(ConstCode(strs, x.name), NumsCode([x.checksum, x.minVersion, x.maxVersion])))
  {
    hide EncodeNum, EncodeNums;
    if x.name in strs {
      ThenNum([x.checksum, x.minVersion, x.maxVersion], Index(strs, x.name));
      assert [Index(strs, x.name)] + [x.checksum, x.minVersion, x.maxVersion]
          == [Index(strs, x.name), x.checksum, x.minVersion, x.maxVersion];
    }
  }

  /** A section emitted behind others: its tag, then what it holds. */
  lemma AppendSection(strs: seq<CString>, o: Emission, xs: seq<Section>, x: Section, tag: byte, rest: Emission)
    requires Small(strs) && SectionCode(strs, x) == Then(OneByte(tag), rest)
    ensures Then(Then(Then(o, SectionsCode(strs, xs)), OneByte(tag)), rest) == Then(o, SectionsCode(strs, xs + [x]))
  {
    hide Then, SectionCode, SectionsCode;
    SectionsConcat(strs, xs, [x]);
    OneSection(strs, x);
    Regroup3(o, SectionsCode(strs, xs), OneByte(tag), rest);
  }

  /** A section with members, emitted behind others. */
  lemma AppendContainer(strs: seq<CString>, o: Emission, xs: seq<Section>, x: Section,
                        start: Emission, body: seq<Section>, end: byte)
    requires Small(strs) && SectionCode(strs, x) == Then(start, Then(SectionsCode(strs, body), OneByte(end)))
    ensures Then(Then(Then(Then(o, SectionsCode(strs, xs)), start), SectionsCode(strs, body)), OneByte(end))
         == Then(o, SectionsCode(strs, xs + [x]))
  {
    hide Then, SectionCode, SectionsCode;
    SectionsConcat(strs, xs, [x]);
    OneSection(strs, x);
    Regroup4(o, SectionsCode(strs, xs), start, SectionsCode(strs, body), OneByte(end));
  }

  /** A debug section with its size patched in. */
  lemma DebugPatched(o: Emission, lines: seq<DebugLine>, offset: nat)
    requires o.Some? ==> offset == |o.value| + 1
    ensures var code := Then(Then(Then(o, OneByte(SECT_DEBUG)), Some(EncodeWord(0))), Some(DebugBytes(lines)));
      && (o.Some? ==> code.Some? && |code.value| == offset + 4 + |DebugBytes(lines)|)
      && (o.None? ==> code.None?)
      && PatchCode(code, offset, |DebugBytes(lines)|) == Then(o, DebugCode(Some(lines)))
  {
    hide EncodeWord, DebugBytes;
    if o.Some? {
      PatchReserved(o.value, SECT_DEBUG, DebugBytes(lines), |DebugBytes(lines)|);
    }
  }

  lemma PatchFailed(offset: nat, value: int)
    ensures PatchCode(None, offset, value) == None
  {
  }

  lemma ThenFails(e: Emission)
    ensures Then(None, e) == None
  {
  }
}

/**
 The section writers (src/compiler/ecModuleWrite.c). Each emits the bytes of
 the section tree that ObjectTree gives for the object it is handed, or marks
 the write as failed exactly when a string is missing from the locked pool or
 a debug record is too long; and each adds the section's checksum.
 */
module SectionWriter {
  import opened AttributeBits
  import opened Bytes
  import opened NumberCodec
  import opened ConstantPool
  import opened GlobalRef
  import opened ModuleFormat
  import opened ObjectTree
  import opened CodeBuffer
  import opened Emission
  import opened Checksum

  class Writer {
    const env: Env
    const buf: Buffer
    const constants: EjsConstants
    var checksum: int32
    var fatalError: bool
    ghost var strs: seq<CString>  // the strings of the pool, once it is locked
    ghost var out: Emission       // the code so far, or none after an error

    ghost predicate Ready(): (ok: bool)
      ensures ok ==> Small(strs)
      reads this`strs, this`fatalError, this`out, buf, buf.data, constants, constants.pool, constants.index
    {
      && buf.Valid() && buf.data != constants.pool
      && constants.Valid() && constants.Agrees() && constants.locked && constants.strs == strs && Small(strs)
      && fatalError == out.None? && (out.Some? ==> buf.Contents() == out.value)
    }

    /** Before the pool is locked: nothing failed yet. */
    ghost predicate Open()
      reads this`fatalError, this`out, buf, buf.data, constants, constants.pool, constants.index
    {
      && buf.Valid() && buf.data != constants.pool
      && constants.Valid() && constants.Agrees() && !constants.locked
      && !fatalError && out == Some(buf.Contents())
    }

    lemma OpenSize()
      requires Open()
      ensures buf.Valid() && out == Some(buf.Contents()) && buf.end == |out.value|
    {
    }

    lemma CodeIsOut()
      requires Ready() && out.Some?
      ensures buf.Valid() && buf.Contents() == out.value
    {
    }

    lemma BufferIsValid()
      requires Ready()
      ensures buf.Valid()
    {
    }

    lemma PoolIsDistinct()
      requires Ready()
      ensures Distinct(strs)
    {
      AgreementIsInterning(constants.strs, constants.table, constants.locked);
    }

    lemma PoolIsFlat()
      requires Ready()
      ensures constants.indexCount == |strs| && constants.poolLength == |Flatten(strs)|
      ensures constants.poolLength <= constants.pool.Length && constants.pool[..constants.poolLength] == Flatten(strs)
    {
    }

    lemma SizeOfCode()
      requires Ready()
      ensures out.Some? ==> buf.end == |out.value|
    {
    }

    lemma ErrorIsNone()
      requires Ready()
      ensures fatalError <==> out.None?
    {
    }

    constructor (env: Env, constants: EjsConstants, checksum: int32)
      ensures this.env == env && this.constants == constants && fresh(buf) && fresh(buf.data)
      ensures this.checksum == checksum && !fatalError && out == NOTHING && buf.Valid() && buf.Contents() == []
    {
      this.env, this.constants, this.checksum, fatalError := env, constants, checksum, false;
      buf := new Buffer();
      strs, out := [], NOTHING;
    }

    /** `fatalError = 1` */
    method Fail()
      requires Ready()
      modifies this`out, this`fatalError
      ensures Ready() && out.None?
    {
      fatalError, out := true, None;
    }

    method EncodeByte(value: byte)
      requires Ready() || Open()
      modifies this`out, buf, buf.data
      ensures (old(Ready()) ==> Ready()) && (old(Open()) ==> Open())
      ensures buf.data == old(buf.data) || fresh(buf.data)
      ensures out == Then(old(out), OneByte(value)) && buf.end >= old(buf.end)
    {
      buf.EncodeByte(value);
      out := Then(out, OneByte(value));
    }

    method EncodeNum(n: int32)
      requires Ready() || Open()
      modifies this`out, buf, buf.data
      ensures (old(Ready()) ==> Ready()) && (old(Open()) ==> Open())
      ensures buf.data == old(buf.data) || fresh(buf.data)
      ensures out == Then(old(out), NumCode(n)) && buf.end >= old(buf.end)
    {
      hide NumberCodec.EncodeNum;
      buf.EncodeNum(n);
      out := Then(out, NumCode(n));
    }

    method EncodeBlock(block: seq<byte>)
      requires Ready() || Open()
      modifies this`out, buf, buf.data
      ensures (old(Ready()) ==> Ready()) && (old(Open()) ==> Open())
      ensures buf.data == old(buf.data) || fresh(buf.data)
      ensures out == Then(old(out), Some(block)) && buf.end >= old(buf.end)
    {
      buf.EncodeBlock(block);
      out := Then(out, Some(block));
    }

    /** ecEncodeConst: fails on a string that was not added before the pool was locked. */
    method EncodeConst(s: CString)
      requires Ready()
      modifies this`out, this`fatalError, buf, buf.data, constants
      ensures Ready() && (buf.data == old(buf.data) || fresh(buf.data))
      ensures out == Then(old(out), ConstCode(strs, s))
    {
      hide NumberCodec.EncodeNum, EjsConstants.Valid, EjsConstants.Agrees, Buffer.Contents, Buffer.Valid, IndexOf;
      var offset := constants.AddModuleConstant(s);
      if offset < 0 {
        out, fatalError := None, true;
        return;
      }
      out := Then(out, ConstCode(strs, s));
      buf.EncodeNum(offset);
    }

    method EncodeName(q: Name)
      requires Ready()
      modifies this`out, this`fatalError, buf, buf.data, constants
      ensures Ready() && (buf.data == old(buf.data) || fresh(buf.data))
      ensures out == Then(old(out), NameCode(strs, q))
    {
      hide ConstCode;
      ThenAssoc(out, ConstCode(strs, q.name), ConstCode(strs, q.space));
      EncodeConst(q.name);
      EncodeConst(q.space);
    }

    /** encodeTypeName, the kind in the flags being that of a name. */
    method EncodeTypeName(s: CString)
      requires Ready()
      modifies this`out, this`fatalError, buf, buf.data, constants
      ensures Ready() && (buf.data == old(buf.data) || fresh(buf.data))
      ensures out == Then(old(out), TypeNameCode(strs, s))
    {
      hide NumberCodec.EncodeNum, EjsConstants.Valid, EjsConstants.Agrees, Buffer.Contents, Buffer.Valid, IndexOf;
      var offset := constants.AddModuleConstant(s);
      if offset < 0 {
        out, fatalError := None, true;
        return;
      }
      out := Then(out, TypeNameCode(strs, s));
      buf.EncodeNum(offset * 4 + 1);
    }

    /** ecEncodeGlobal, or the code for no type. */
    method EncodeGlobal(q: Option<Name>)
      requires Ready()
      modifies this`out, this`fatalError, buf, buf.data, constants
      ensures Ready() && (buf.data == old(buf.data) || fresh(buf.data))
      ensures out == Then(old(out), RefCode(strs, TypeRef(env, q)))
    {
      hide Writer.Ready, RefCode, Writable, ConstCode, TypeNameCode, Then;
      RefParts(strs, TypeRef(env, q));
      if q.None? {
        EncodeNum(0);
        return;
      }
      var slot := Lookup(env.global, q.value);
      if slot < NUM_CLASS_PROP && slot >= 0 {
        EncodeNum(slot * 4 + 2);
        return;
      }
      ThenAssoc(out, TypeNameCode(strs, q.value.name), ConstCode(strs, q.value.space));
      EncodeTypeName(q.value.name);
      EncodeConst(q.value.space);
    }

    /** Six numbers of a handler, one after the other. */
    method EncodeRange(x: Ex)
      requires Ready()
      modifies this`out, buf, buf.data
      ensures Ready() && (buf.data == old(buf.data) || fresh(buf.data))
      ensures out == Then(old(out),
        NumsCode([x.tryStart, x.tryEnd, x.handlerStart, x.handlerEnd, x.numBlocks, x.numStack]))
    {
      hide Writer.Ready, EncodeNums, NumberCodec.EncodeNum;
      EncodeNum(x.tryStart);
      EncodeNum(x.tryEnd);
      EncodeNum(x.handlerStart);
      EncodeNum(x.handlerEnd);
      EncodeNum(x.numBlocks);
      EncodeNum(x.numStack);
      SixNums(old(out), x.tryStart, x.tryEnd, x.handlerStart, x.handlerEnd, x.numBlocks, x.numStack);
    }

    method EncodeHandler(x: Ex)
      requires Ready()
      modifies this`out, this`fatalError, buf, buf.data, constants
      ensures Ready() && (buf.data == old(buf.data) || fresh(buf.data))
      ensures out == Then(old(out), HandlerCode(strs, HandlerOf(env, x)))
    {
      hide Writer.Ready, EncodeNums, Then, RefCode, TypeRef, HandlerCode;
      EncodeByte(x.flags);
      EncodeRange(x);
      EncodeGlobal(x.catchType);
      HandlerParts(strs, HandlerOf(env, x));
      Regroup3(old(out), OneByte(x.flags),
        NumsCode([x.tryStart, x.tryEnd, x.handlerStart, x.handlerEnd, x.numBlocks, x.numStack]),
        RefCode(strs, TypeRef(env, x.catchType)));
    }

    method CreateExceptionSection(xs: seq<Ex>)
      requires Ready() && xs != []
      modifies this`out, this`fatalError, buf, buf.data, constants
      ensures Ready() && (buf.data == old(buf.data) || fresh(buf.data))
      ensures out == Then(old(out), ExceptionCode(strs, HandlersOf(env, xs)))
    {
      hide Writer.Ready, Then, HandlerCode;
      EncodeByte(SECT_EXCEPTION);
      ghost var tagged := out;
      for i := 0 to |xs|
        invariant Ready() && (buf.data == old(buf.data) || fresh(buf.data))
        invariant Then(out, HandlersCode(strs, HandlersOf(env, xs[i..])))
               == Then(tagged, HandlersCode(strs, HandlersOf(env, xs)))
      {
        ghost var rest := HandlersCode(strs, HandlersOf(env, xs[i + 1..]));
        assert xs[i..] == [xs[i]] + xs[i + 1..];
        ThenAssoc(out, HandlerCode(strs, HandlerOf(env, xs[i])), rest);
        EncodeHandler(xs[i]);
      }
      ThenNothing(out);
      ThenAssoc(old(out), OneByte(SECT_EXCEPTION), HandlersCode(strs, HandlersOf(env, xs)));
    }

    method EncodeInt32(value: int)
      requires (Ready() || Open()) && Abs(value) <= ENCODE_MAX_WORD
      modifies this`out, buf, buf.data
      ensures (old(Ready()) ==> Ready()) && (old(Open()) ==> Open())
      ensures buf.data == old(buf.data) || fresh(buf.data)
      ensures out == Then(old(out), Some(EncodeWord(value))) && buf.end == old(buf.end) + 4
    {
      hide EncodeWord, EjsConstants.Valid, EjsConstants.Agrees;
      buf.EncodeInt32(value);
      assert |buf.Contents()| == buf.end;
      out := Then(out, Some(EncodeWord(value)));
    }

    /** ecEncodeInt32AtPos */
    method EncodeInt32AtPos(offset: nat, value: int)
      requires Ready() && offset + 4 <= buf.end
      modifies this`out, this`fatalError, buf.data
      ensures old(out).Some? ==> offset + 4 <= |old(out).value|
      ensures Ready() && out == PatchCode(old(out), offset, value)
    {
      hide EncodeWord, EjsConstants.Valid, EjsConstants.Agrees;
      var ok := buf.EncodeInt32AtPos(offset, value);
      out := PatchCode(out, offset, value);
      if !ok {
        fatalError := true;
      }
    }

    /** ecEncodeWideAsMulti behind the offset of a line. */
    method EncodeLine(line: DebugLine)
      requires Ready() && |line.source| + 1 < TWO_31
      modifies this`out, buf, buf.data
      ensures Ready() && (buf.data == old(buf.data) || fresh(buf.data))
      ensures out == Then(old(out), LineCode(line)) && buf.end >= old(buf.end)
    {
      hide Writer.Ready, NumCode, Then;
      var len := |line.source| + 1;
      EncodeNum(line.offset);
      EncodeNum(len);
      EncodeBlock(line.source + [0]);
      Regroup3(old(out), NumCode(line.offset), NumCode(len), Some(line.source + [0]));
    }

    method EncodeLines(lines: seq<DebugLine>)
      requires Ready() && |lines| < TWO_31 && forall i :: 0 <= i < |lines| ==> |lines[i].source| + 1 < TWO_31
      modifies this`out, buf, buf.data
      ensures Ready() && (buf.data == old(buf.data) || fresh(buf.data))
      ensures out == Then(old(out), Some(DebugBytes(lines))) && buf.end >= old(buf.end)
    {
      hide Writer.Ready, NumCode, Then, LineCode;
      EncodeNum(|lines|);
      ghost var counted := out;
      for i := 0 to |lines|
        invariant Ready() && (buf.data == old(buf.data) || fresh(buf.data)) && buf.end >= old(buf.end)
        invariant Then(out, LinesCode(lines[i..])) == Then(counted, LinesCode(lines))
      {
        assert lines[i..] == [lines[i]] + lines[i + 1..];
        ThenAssoc(out, LineCode(lines[i]), LinesCode(lines[i + 1..]));
        EncodeLine(lines[i]);
      }
      ThenNothing(out);
      ThenAssoc(old(out), NumCode(|lines|), LinesCode(lines));
      LinesCodeIs(lines);
      DebugBytesParts(lines);
    }

    /** The size that is patched in counts the bytes behind its own word. */
    method CreateDebugSection(lines: seq<DebugLine>)
      requires Ready() && |lines| < TWO_31 && forall i :: 0 <= i < |lines| ==> |lines[i].source| + 1 < TWO_31
      modifies this`out, this`fatalError, buf, buf.data
      ensures Ready() && (buf.data == old(buf.data) || fresh(buf.data))
      ensures out == Then(old(out), DebugCode(Some(lines)))
    {
      hide Writer.Ready, EncodeWord, DebugBytes, Then, DebugCode;
      ghost var bytes := DebugBytes(lines);
      SizeOfCode();
      EncodeByte(SECT_DEBUG);
      SizeOfTagged(old(out), SECT_DEBUG);
      var patchSizeOffset := buf.end;
      EncodeInt32(0);
      var startDebug := buf.end;
      EncodeLines(lines);
      DebugPatched(old(out), lines, patchSizeOffset);
      SizeOfCode();
      EncodeInt32AtPos(patchSizeOffset, buf.end - startDebug);
      PatchFailed(patchSizeOffset, buf.end - startDebug);
      ThenFails(DebugCode(Some(lines)));
    }

    lemma SizeOfTagged(o: Emission, tag: byte)
      requires Ready() && out == Then(o, OneByte(tag))
      ensures o.Some? ==> buf.end == |o.value| + 1
    {
    }

    // --------------------------------------------------------------- Functions

    method EncodeFunHead(q: Name, attributes: int32, slot: int32, f: Fun)
      requires Ready() && FunOk(f)
      modifies this`out, this`fatalError, buf, buf.data, constants
      ensures Ready() && (buf.data == old(buf.data) || fresh(buf.data))
      ensures out == Then(old(out), FunHeadCode(strs, FunHeaderOf(env, q, attributes, slot, f)))
    {
      hide Writer.Ready, Then, NumCode, NumsCode, RefCode, TypeRef, NameNums;
      var info := f.info;
      EncodeNameAndNum(q, attributes);
      ghost var named := NameNums(strs, q, [attributes]);
      EncodeByte(if info.strict then 1 else 0);
      EncodeGlobal(info.resultType);
      EncodeFour(slot, |f.activation|, info.numArgs, info.numDefault);
      Regroup4(old(out), named, OneByte(if info.strict then 1 else 0), RefCode(strs, TypeRef(env, info.resultType)),
               NumsCode([slot, |f.activation|, info.numArgs, info.numDefault]));
    }

    method EncodeNameAndNum(q: Name, n: int32)
      requires Ready()
      modifies this`out, this`fatalError, buf, buf.data, constants
      ensures Ready() && (buf.data == old(buf.data) || fresh(buf.data))
      ensures out == Then(old(out), NameNums(strs, q, [n]))
    {
      hide Writer.Ready, Then, NumCode, NameCode, NameNums;
      NameIsNums(strs, q);
      NameThenNum(strs, q, [], n);
      assert [] + [n] == [n];
      ThenAssoc(out, NameCode(strs, q), NumCode(n));
      EncodeName(q);
      EncodeNum(n);
    }

    method EncodeFour(a: int32, b: int32, c: int32, d: int32)
      requires Ready()
      modifies this`out, buf, buf.data
      ensures Ready() && (buf.data == old(buf.data) || fresh(buf.data))
      ensures out == Then(old(out), NumsCode([a, b, c, d]))
    {
      hide Writer.Ready, NumCode, NumsCode, Then;
      EncodeNum(a);
      EncodeNum(b);
      EncodeNum(c);
      EncodeNum(d);
      FourNums(old(out), a, b, c, d);
    }

    /** The byte code of a function; without any, two zeroes stand for it. */
    method EncodeCode(body: Body, ghost f: FunHeader)
      requires Ready() && BodyOk(body)
      requires f.numHandlers == if body.Native? then 0 else |body.handlers|
      modifies this`out, buf, buf.data
      ensures Ready() && (buf.data == old(buf.data) || fresh(buf.data))
      ensures CodeSized(f, CodeOf(env, body)) && out == Then(old(out), FunBodyCode(f, CodeOf(env, body)))
    {
      hide Writer.Ready, Then, NumCode, NumsCode;
      match body
      case Native =>
        EncodeNum(0);
        EncodeNum(0);
        TwoNums(old(out), 0, 0);
        ThenNothing(NumsCode([0, 0]));
      case ByteCode(bytes, handlers, debug) =>
        EncodeNum(|handlers|);
        EncodeNum(|bytes|);
        TwoNums(old(out), |handlers|, |bytes|);
        EncodeBlock(bytes);
        ThenAssoc(old(out), NumsCode([|handlers|, |bytes|]), Some(bytes));
    }

    /** The exception and debug sections of a function. */
    method EncodeTail(body: Body)
      requires Ready() && BodyOk(body)
      modifies this`out, this`fatalError, buf, buf.data, constants
      ensures Ready() && (buf.data == old(buf.data) || fresh(buf.data))
      ensures out == Then(old(out), TailCode(strs, CodeOf(env, body)))
    {
      hide Writer.Ready, Then, HandlersCode, DebugCode;
      ThenNothing(out);
      match body
      case Native =>
      case ByteCode(bytes, handlers, debug) =>
        if handlers != [] {
          CreateExceptionSection(handlers);
        }
        ThenNothing(out);
        ThenAssoc(old(out), ExceptionCode(strs, HandlersOf(env, handlers)), DebugCode(debug));
        NoDebug();
        if debug.Some? {
          CreateDebugSection(debug.value);
        }
    }

    // -------------------------------------------------------------- Leaf sections

    method CreateDocSection(p: Prop, tag: string)
      requires Ready()
      modifies this`out, this`fatalError, buf, buf.data, constants
      ensures Ready() && (buf.data == old(buf.data) || fresh(buf.data))
      ensures out == Then(old(out), SectionsCode(strs, DocOf(p, tag)))
    {
      hide Writer.Ready, Then, ConstCode, SectionCode, SectionsCode;
      OneSection(strs, Doc([]));
      ThenNothing(out);
      if tag in p.docs {
        var text := p.docs[tag];
        EncodeByte(SECT_DOC);
        EncodeConst(text);
        ThenAssoc(old(out), OneByte(SECT_DOC), ConstCode(strs, text));
        DocParts(strs, text);
        OneSection(strs, Doc(text));
      }
    }

    /** `checksum +=` the sum of a string. */
    method AddSumOfString(s: CString)
      modifies this`checksum
      ensures checksum == ToInt32(old(checksum) + SumString(s))
    {
      hide ToInt32, SumString;
      var sum := SumOfString(s);
      WrapAdd(SumString(s), checksum);
      checksum := ToInt32(checksum + sum);
    }

    method CreatePropertySection(p: Prop, slot: int32, uri: Option<CString>, atGlobal: bool)
      requires Ready() && p.traits.Some?
      modifies this`out, this`fatalError, this`checksum, buf, buf.data, constants
      ensures Ready() && (buf.data == old(buf.data) || fresh(buf.data))
      ensures out == Then(old(out),
        SectionsCode(strs, DocOf(p, "var") + [Property(PropHeaderOf(env, p, slot, uri, atGlobal))]))
      ensures checksum == ToInt32(old(checksum) + SumString(p.qname.name))
    {
      hide Writer.Ready, Then, SectionCode, SectionsCode, NameNums, RefCode, ValueCode, TypeRef, ToInt32, SumString;
      ghost var h := PropHeaderOf(env, p, slot, uri, atGlobal);
      CreateDocSection(p, "var");
      EncodeByte(SECT_PROPERTY);
      EncodePropHead(p, slot, uri, atGlobal);
      PropertyParts(strs, h);
      AppendSection(strs, old(out), DocOf(p, "var"), Property(h), SECT_PROPERTY,
        Then(NameNums(strs, h.qname, [h.attributes, h.slot]), Then(RefCode(strs, h.ptype), ValueCode(strs, h.value))));
      AddSumOfString(p.qname.name);
    }

    /** What a property section holds behind its tag. */
    method EncodePropHead(p: Prop, slot: int32, uri: Option<CString>, atGlobal: bool)
      requires Ready() && p.traits.Some?
      modifies this`out, this`fatalError, buf, buf.data, constants
      ensures Ready() && (buf.data == old(buf.data) || fresh(buf.data))
      ensures var h := PropHeaderOf(env, p, slot, uri, atGlobal);
        out == Then(old(out), Then(NameNums(strs, h.qname, [h.attributes, h.slot]),
                                   Then(RefCode(strs, h.ptype), ValueCode(strs, h.value))))
    {
      hide Writer.Ready, Then, NumCode, NameNums, RefCode, TypeRef, ConstCode;
      var t := p.traits.value;
      var attributes := SetIf(t.attributes, PROP_HAS_VALUE, t.ptype.Some? && t.isNamespace);
      EncodeNameAndTwo(p.qname, attributes, SlotOf(env, slot, atGlobal));
      EncodeGlobal(t.ptype);
      ThenNothing(out);
      ghost var h := PropHeaderOf(env, p, slot, uri, atGlobal);
      Regroup3(old(out), NameNums(strs, h.qname, [h.attributes, h.slot]), RefCode(strs, h.ptype),
               ValueCode(strs, h.value));
      if HasBit(attributes, PROP_HAS_VALUE) {
        EncodeConst(if uri.Some? then uri.value else []);
      }
    }

    method EncodeNameAndTwo(q: Name, a: int32, b: int32)
      requires Ready()
      modifies this`out, this`fatalError, buf, buf.data, constants
      ensures Ready() && (buf.data == old(buf.data) || fresh(buf.data))
      ensures out == Then(old(out), NameNums(strs, q, [a, b]))
    {
      hide Writer.Ready, Then, NumCode, NameNums;
      EncodeNameAndNum(q, a);
      EncodeNum(b);
      NameThenNum(strs, q, [a], b);
      assert [a] + [b] == [a, b];
      ThenAssoc(old(out), NameNums(strs, q, [a]), NumCode(b));
    }

    // ------------------------------------------------------------------- Classes

    /** Whether some type implemented is not an interface. */
    method FindFixup(implements: seq<Interface>) returns (fixup: bool)
      ensures fixup == NeedsFixup(implements)
    {
      fixup := false;
      for i := 0 to |implements|
        invariant !fixup && forall k :: 0 <= k < i ==> implements[k].isInterface
      {
        if !implements[i].isInterface {
          return true;
        }
      }
    }

    method EncodeClassAttributes(p: Prop, slot: int32, info: TypeInfo)
      requires Ready() && p.traits.Some?
      modifies this`out, this`fatalError, buf, buf.data, constants
      ensures Ready() && (buf.data == old(buf.data) || fresh(buf.data))
      ensures out == Then(old(out), NameNums(strs, p.qname,
        [ClassAttributes(p.traits.value.attributes, info), if env.bind then slot else -1]))
    {
      hide Writer.Ready, Then, NameNums, SetIf, ClearIf;
      var fixup := FindFixup(info.implements);
      var attributes := ClearIf(p.traits.value.attributes, TYPE_FIXUP, true);
      attributes := SetIf(attributes, TYPE_HAS_CONSTRUCTOR, info.hasConstructor);
      attributes := SetIf(attributes, TYPE_HAS_TYPE_INITIALIZER, info.hasInitializer);
      attributes := SetIf(attributes, TYPE_HAS_INSTANCE_VARS, info.hasInstanceVars);
      attributes := SetIf(attributes, TYPE_CALLS_SUPER, info.callsSuper);
      attributes := SetIf(attributes, TYPE_FIXUP, fixup);
      EncodeNameAndTwo(p.qname, attributes, if env.bind then slot else -1);
    }

    method EncodeInterfaces(xs: seq<Interface>)
      requires Ready()
      modifies this`out, this`fatalError, buf, buf.data, constants
      ensures Ready() && (buf.data == old(buf.data) || fresh(buf.data))
      ensures out == Then(old(out), RefsCode(strs, InterfacesOf(env, xs)))
    {
      hide Writer.Ready, Then, RefCode, RefOf;
      for i := 0 to |xs|
        invariant Ready() && (buf.data == old(buf.data) || fresh(buf.data))
        invariant Then(out, RefsCode(strs, InterfacesOf(env, xs[i..])))
               == Then(old(out), RefsCode(strs, InterfacesOf(env, xs)))
      {
        assert xs[i..] == [xs[i]] + xs[i + 1..];
        ThenAssoc(out, RefCode(strs, RefOf(env.global, xs[i].qname)), RefsCode(strs, InterfacesOf(env, xs[i + 1..])));
        EncodeGlobal(Some(xs[i].qname));
      }
      ThenNothing(out);
    }

    method EncodeThree(a: int32, b: int32, c: int32)
      requires Ready()
      modifies this`out, buf, buf.data
      ensures Ready() && (buf.data == old(buf.data) || fresh(buf.data))
      ensures out == Then(old(out), NumsCode([a, b, c]))
    {
      hide Writer.Ready, NumCode, NumsCode, Then;
      EncodeNum(a);
      EncodeNum(b);
      EncodeNum(c);
      ThreeNums(old(out), a, b, c);
    }

    /** What a class section holds between its tag and its members. */
    method EncodeClassHead(p: Prop, slot: int32)
      requires Ready() && PropOk(p, true) && !p.Hole() && p.value.value.TypeObj?
      modifies this`out, this`fatalError, buf, buf.data, constants
      ensures Ready() && (buf.data == old(buf.data) || fresh(buf.data))
      ensures out == Then(old(out), ClassHeadCode(strs, ClassHeaderOf(env, p, slot)))
    {
      hide Writer.Ready, Then, NumsCode, NameNums, RefCode, RefsCode, TypeRef, InterfacesOf, ClassAttributes;
      var t := p.value.value;
      ghost var h := ClassHeaderOf(env, p, slot);
      EncodeClassAttributes(p, slot, t.info);
      EncodeGlobal(t.info.base);
      EncodeThree(|t.statics|, |t.prototype|, |t.info.implements|);
      EncodeInterfaces(t.info.implements);
      Regroup4(old(out), NameNums(strs, h.qname, [h.attributes, h.slot]), RefCode(strs, h.base),
               NumsCode([h.numTypeProp, h.numInstanceProp, |h.interfaces|]), RefsCode(strs, h.interfaces));
    }

    // ------------------------------------------------------- The recursive sections

    /** A function section up to its members. */
    method EncodeFunStart(q: Name, attributes: int32, slot: int32, f: Fun)
      requires Ready() && FunOk(f)
      modifies this`out, this`fatalError, buf, buf.data, constants
      ensures Ready() && (buf.data == old(buf.data) || fresh(buf.data))
      ensures CodeSized(FunHeaderOf(env, q, attributes, slot, f), CodeOf(env, f.info.body))
      ensures out == Then(old(out), FunStartCode(strs, FunHeaderOf(env, q, attributes, slot, f), CodeOf(env, f.info.body)))
    {
      hide Writer.Ready, Then, FunHeadCode, FunBodyCode, TailCode, CodeOf, CodeSized;
      ghost var h, code := FunHeaderOf(env, q, attributes, slot, f), CodeOf(env, f.info.body);
      EncodeByte(SECT_FUNCTION);
      EncodeFunHead(q, attributes, slot, f);
      EncodeCode(f.info.body, h);
      EncodeTail(f.info.body);
      Regroup4(old(out), OneByte(SECT_FUNCTION), FunHeadCode(strs, h), FunBodyCode(h, code), TailCode(strs, code));
    }

    method CreateFunctionSection(q: Name, attributes: int32, slot: int32, f: Fun)
      requires Ready() && FunOk(f)
      modifies this`out, this`fatalError, this`checksum, buf, buf.data, constants
      ensures Ready() && (buf.data == old(buf.data) || fresh(buf.data))
      ensures out == Then(old(out), SectionCode(strs, FunSection(env, q, attributes, slot, f)))
      ensures out.Some? ==> checksum == ToInt32(old(checksum) + Sum(FunSection(env, q, attributes, slot, f)))
      decreases f, 0
    {
      hide Writer.Ready, Then, FunStartCode, SectionCode, SectionsCode, CodeOf, CodeSized, PropsSections, FunHeaderOf,
        ToInt32, Sum, SumAll, FunctionSum;
      ghost var h, code := FunHeaderOf(env, q, attributes, slot, f), CodeOf(env, f.info.body);
      ghost var body := PropsSections(env, f.activation, 0);
      EncodeFunStart(q, attributes, slot, f);
      CreateSections(f.activation, 0);
      EncodeByte(SECT_FUNCTION_END);
      FunctionParts(strs, h, code, body);
      Regroup3(old(out), FunStartCode(strs, h, code), SectionsCode(strs, body), OneByte(SECT_FUNCTION_END));
      AddFunctionSum(q, f);
      SumOfFunction(env, q, attributes, slot, f);
      WrapAdd(old(checksum) + SumAll(body), FunctionSum(q, f));
    }

    /** The counts and the name of a function. */
    method AddFunctionSum(q: Name, f: Fun)
      requires BodyOk(f.info.body) && |f.activation| < TWO_31
      modifies this`checksum
      ensures checksum == ToInt32(old(checksum) + FunctionSum(q, f))
    {
      hide ToInt32, SumString, Contains;
      var handlers := if f.info.body.Native? then 0 else |f.info.body.handlers|;
      var counts := |f.activation| + handlers;
      checksum := ToInt32(checksum + counts);
      var dynamic_ := ContainsAsc(q.name, DYNAMIC_FUN);
      if dynamic_ < 0 {
        WrapAdd(old(checksum) + counts, SumString(q.name));
        AddSumOfString(q.name);
      }
    }

    /** createFunctionSection for the function of a slot, behind its documentation. */
    method CreateSlotFunction(p: Prop, slot: int32, f: Fun, isSetter: bool, atGlobal: bool)
      requires Ready() && FunOk(f) && p.traits.Some?
      modifies this`out, this`fatalError, this`checksum, buf, buf.data, constants
      ensures Ready() && (buf.data == old(buf.data) || fresh(buf.data))
      ensures out == Then(old(out), SectionsCode(strs, SlotFunSections(env, p, slot, f, isSetter, atGlobal)))
      ensures out.Some? ==>
        checksum == ToInt32(old(checksum) + SumAll(SlotFunSections(env, p, slot, f, isSetter, atGlobal)))
      decreases f, 1
    {
      hide Writer.Ready, Then, SectionCode, SectionsCode, FunSection, ToInt32, Sum, SumAll, SetIf, ClearIf;
      var attributes := FunAttributes(SlotFunAttributes(p.traits.value.attributes, f.info, isSetter), f.info);
      ghost var x := FunSection(env, p.qname, attributes, SlotOf(env, slot, atGlobal), f);
      CreateDocSection(p, "fun");
      CreateFunctionSection(p.qname, attributes, SlotOf(env, slot, atGlobal), f);
      BehindDoc(old(out), strs, p, "fun", x);
    }

    /** The loops over the properties of a class, a prototype, an activation or a block. */
    method CreateSections(props: seq<Prop>, numInherited: nat)
      requires Ready() && PropsOk(props)
      modifies this`out, this`fatalError, this`checksum, buf, buf.data, constants
      ensures Ready() && (buf.data == old(buf.data) || fresh(buf.data))
      ensures out == Then(old(out), SectionsCode(strs, PropsSections(env, props, numInherited)))
      ensures out.Some? ==> checksum == ToInt32(old(checksum) + SumAll(PropsSections(env, props, numInherited)))
      decreases props, 0
    {
      hide Writer.Ready, Then, SectionsCode, ToInt32, SumAll, SlotSections, PropsSections, PropOk, Inherited;
      NoSections(old(out), strs, env, numInherited, old(checksum));
      for i := 0 to |props|
        invariant Ready() && (buf.data == old(buf.data) || fresh(buf.data))
        invariant PropsOk(props[..i])
        invariant out == Then(old(out), SectionsCode(strs, PropsSections(env, props[..i], numInherited)))
        invariant out.Some? ==> checksum == ToInt32(old(checksum) + SumAll(PropsSections(env, props[..i], numInherited)))
      {
        MoreSections(old(out), strs, env, props, i, numInherited, old(checksum));
        if Inherited(props[i], i, numInherited) {
          continue;
        }
        CreateSection(props[i], i, false);
      }
      assert props[..|props|] == props;
    }

    /** What a block section holds between its tag and its members. */
    method EncodeBlockStart(b: BlockHeader)
      requires Ready()
      modifies this`out, this`fatalError, buf, buf.data, constants
      ensures Ready() && (buf.data == old(buf.data) || fresh(buf.data))
      ensures out == Then(old(out), BlockStartCode(strs, b))
    {
      hide Writer.Ready, Then, NumCode, NumsCode, ConstCode;
      EncodeByte(SECT_BLOCK);
      EncodeConst(b.name);
      ghost var named := out;
      EncodeNum(b.slot);
      EncodeNum(b.numProp);
      TwoNums(named, b.slot, b.numProp);
      Regroup3(old(out), OneByte(SECT_BLOCK), ConstCode(strs, b.name), NumsCode([b.slot, b.numProp]));
    }

    method CreateBlockSection(p: Prop, slot: int32, props: seq<Prop>)
      requires Ready() && PropsOk(props)
      modifies this`out, this`fatalError, this`checksum, buf, buf.data, constants
      ensures Ready() && (buf.data == old(buf.data) || fresh(buf.data))
      ensures var x := Block(BlockHeader(p.qname.name, slot, |props|), PropsSections(env, props, 0));
        && out == Then(old(out), SectionsCode(strs, [x]))
        && (out.Some? ==> checksum == ToInt32(old(checksum) + SumAll([x])))
      decreases props, 1
    {
      hide Writer.Ready, Then, SectionCode, SectionsCode, PropsSections, ToInt32, BlockStartCode, SumAll;
      var b := BlockHeader(p.qname.name, slot, |props|);
      ghost var body := PropsSections(env, props, 0);
      EncodeBlockStart(b);
      CreateSections(props, 0);
      EncodeByte(SECT_BLOCK_END);
      BlockParts(strs, b, body);
      Regroup3(old(out), BlockStartCode(strs, b), SectionsCode(strs, body), OneByte(SECT_BLOCK_END));
      OneSection(strs, Block(b, body));
      SumOne(Block(b, body));
    }

    method CreateClassMembers(p: Prop, slot: int32)
      requires Ready() && PropOk(p, true) && !p.Hole() && p.value.value.TypeObj?
      modifies this`out, this`fatalError, this`checksum, buf, buf.data, constants
      ensures Ready() && (buf.data == old(buf.data) || fresh(buf.data))
      ensures out == Then(old(out), SectionsCode(strs, ClassBody(env, p, slot)))
      ensures out.Some? ==> checksum == ToInt32(old(checksum) + SumAll(ClassBody(env, p, slot)))
      decreases p, 0
    {
      hide Writer.Ready, Then, SectionsCode, PropsSections, SlotFunSections, ToInt32, SumAll;
      var t := p.value.value;
      ghost var made := if t.info.hasConstructor then SlotFunSections(env, p, slot, t.self, false, true) else [];
      ghost var statics, instances := PropsSections(env, t.statics, 0), PropsSections(env, t.prototype, t.info.numInherited);
      NoSections(out, strs, env, 0, checksum);
      if t.info.hasConstructor {
        CreateSlotFunction(p, slot, t.self, false, true);
      }
      CreateSections(t.statics, 0);
      JoinSections(old(out), strs, made, statics, old(checksum));
      CreateSections(t.prototype, t.info.numInherited);
      JoinSections(old(out), strs, made + statics, instances, old(checksum));
    }

    /** A class section up to its members. */
    method EncodeClassStart(p: Prop, slot: int32)
      requires Ready() && PropOk(p, true) && !p.Hole() && p.value.value.TypeObj?
      modifies this`out, this`fatalError, buf, buf.data, constants
      ensures Ready() && (buf.data == old(buf.data) || fresh(buf.data))
      ensures out == Then(old(out), Then(OneByte(SECT_CLASS), ClassHeadCode(strs, ClassHeaderOf(env, p, slot))))
    {
      hide Writer.Ready, Then, ClassHeadCode, ClassHeaderOf, PropOk;
      ThenAssoc(out, OneByte(SECT_CLASS), ClassHeadCode(strs, ClassHeaderOf(env, p, slot)));
      EncodeByte(SECT_CLASS);
      EncodeClassHead(p, slot);
    }

    /** The counts and the name of a class. */
    method AddClassSum(p: Prop)
      requires !p.Hole() && p.value.value.TypeObj?
      modifies this`checksum
      ensures checksum == ToInt32(old(checksum) + ClassSum(p))
    {
      hide ToInt32, SumString;
      var t := p.value.value;
      var counts := |t.statics| + |t.prototype| + |t.info.implements|;
      checksum := ToInt32(checksum + counts);
      WrapAdd(old(checksum) + counts, SumString(p.qname.name));
      AddSumOfString(p.qname.name);
    }

    /** createClassSection; classes stand at the global level only. */
    method CreateClassSection(p: Prop, slot: int32)
      requires Ready() && PropOk(p, true) && !p.Hole() && p.value.value.TypeObj?
      modifies this`out, this`fatalError, this`checksum, buf, buf.data, constants
      ensures Ready() && (buf.data == old(buf.data) || fresh(buf.data))
      ensures var xs := DocOf(p, "class") + [Class(ClassHeaderOf(env, p, slot), ClassBody(env, p, slot))];
        out == Then(old(out), SectionsCode(strs, xs)) && (out.Some? ==> checksum == ToInt32(old(checksum) + SumAll(xs)))
      decreases p, 1
    {
      hide Writer.Ready, Then, SectionCode, SectionsCode, ClassHeadCode, ClassHeaderOf, ClassBody, PropOk,
        ToInt32, SumAll, ClassSum;
      ghost var h, body := ClassHeaderOf(env, p, slot), ClassBody(env, p, slot);
      ghost var doc, head := SectionsCode(strs, DocOf(p, "class")), ClassHeadCode(strs, h);
      CreateDocSection(p, "class");
      EncodeClassStart(p, slot);
      ClassParts(strs, h, body);
      AppendContainer(strs, old(out), DocOf(p, "class"), Class(h, body), Then(OneByte(SECT_CLASS), head), body,
                      SECT_CLASS_END);
      ErrorIsNone();
      if fatalError {
        return;
      }
      CreateClassMembers(p, slot);
      AddClassSum(p);
      EncodeByte(SECT_CLASS_END);
      SumOfClass(env, strs, p, slot);
      WrapAdd(old(checksum) + SumAll(body), ClassSum(p));
    }

    method CreateSection(p: Prop, slot: int32, atGlobal: bool)
      requires Ready() && PropOk(p, atGlobal)
      modifies this`out, this`fatalError, this`checksum, buf, buf.data, constants
      ensures Ready() && (buf.data == old(buf.data) || fresh(buf.data))
      ensures out == Then(old(out), SectionsCode(strs, SlotSections(env, p, slot, atGlobal)))
      ensures out.Some? ==> checksum == ToInt32(old(checksum) + SumAll(SlotSections(env, p, slot, atGlobal)))
      decreases p, 2
    {
      hide Writer.Ready, Then, SectionsCode, PropsSections, SlotFunSections, ClassBody, ToInt32, SumAll, PropHeaderOf,
        ClassHeaderOf;
      NoSections(out, strs, env, 0, checksum);
      if p.Hole() {
        return;
      }
      match p.value.value
      case TypeObj(_, _, _, _) =>
        CreateClassSection(p, slot);
      case FunObj(fun, setter) =>
        ghost var getterSections := SlotFunSections(env, p, slot, fun, false, atGlobal);
        CreateSlotFunction(p, slot, fun, false, atGlobal);
        if HasBit(p.traits.value.attributes, TRAIT_SETTER) {
          JoinSections(old(out), strs, getterSections, SlotFunSections(env, p, slot, setter.value, true, atGlobal),
                       old(checksum));
          CreateSlotFunction(p, slot, setter.value, true, atGlobal);
        } else {
          assert getterSections + [] == getterSections;
        }
      case BlockObj(props) =>
        CreateBlockSection(p, slot, props);
      case ValueObj(uri) =>
        CreatePropertySection(p, slot, uri, atGlobal);
        SumOfProperty(env, p, slot, uri, atGlobal);
    }
  }

  ghost function ClassSum(p: Prop): int
    requires !p.Hole() && p.value.value.TypeObj?
  {
    var t := p.value.value;
    |t.statics| + |t.prototype| + |t.info.implements| + SumString(p.qname.name)
  }

  lemma SumOfClass(env: Env, strs: seq<CString>, p: Prop, slot: int32)
    requires Small(strs) && PropOk(p, true) && !p.Hole() && p.value.value.TypeObj?
    ensures SumAll(DocOf(p, "class") + [Class(ClassHeaderOf(env, p, slot), ClassBody(env, p, slot))])
      == SumAll(ClassBody(env, p, slot)) + ClassSum(p)
  {
    hide SumString, ClassBody, SumAll;
    BehindDoc(NOTHING, strs, p, "class", Class(ClassHeaderOf(env, p, slot), ClassBody(env, p, slot)));
  }

  lemma SumOfProperty(env: Env, p: Prop, slot: int32, uri: Option<CString>, atGlobal: bool)
    requires p.traits.Some?
    ensures SumAll(DocOf(p, "var") + [Property(PropHeaderOf(env, p, slot, uri, atGlobal))]) == SumString(p.qname.name)
  {
    hide SumString;
    BehindDoc(NOTHING, [], p, "var", Property(PropHeaderOf(env, p, slot, uri, atGlobal)));
  }

  lemma JoinSums(xs: seq<Section>, ys: seq<Section>, sum: int32)
    ensures ToInt32(ToInt32(sum + SumAll(xs)) + SumAll(ys)) == ToInt32(sum + SumAll(xs + ys))
  {
    hide SumAll, ToInt32;
    SumConcat(xs, ys);
    WrapAdd(sum + SumAll(xs), SumAll(ys));
  }

  lemma JoinSections(o: Emission, strs: seq<CString>, xs: seq<Section>, ys: seq<Section>, sum: int32)
    requires Small(strs)
    ensures Then(Then(o, SectionsCode(strs, xs)), SectionsCode(strs, ys)) == Then(o, SectionsCode(strs, xs + ys))
    ensures ToInt32(ToInt32(sum + SumAll(xs)) + SumAll(ys)) == ToInt32(sum + SumAll(xs + ys))
  {
    hide Then, SectionsCode, SumAll, ToInt32, AllFit, Fits;
    SectionsConcat(strs, xs, ys);
    ThenAssoc(o, SectionsCode(strs, xs), SectionsCode(strs, ys));
    JoinSums(xs, ys, sum);
  }

  /** Nothing is written yet. */
  lemma NoSections(o: Emission, strs: seq<CString>, env: Env, numInherited: nat, sum: int32)
    requires Small(strs)
    ensures PropsSections(env, [], numInherited) == []
    ensures o == Then(o, SectionsCode(strs, PropsSections(env, [], numInherited)))
    ensures sum == ToInt32(sum + SumAll([]))
  {
    hide Then, ToInt32;
    OneSection(strs, Doc([]));
    ThenNothing(o);
    ToInt32Same(sum);
  }

  /** The sections of one property more. */
  lemma MoreSections(o: Emission, strs: seq<CString>, env: Env, props: seq<Prop>, i: nat, numInherited: nat, sum: int32)
    requires Small(strs) && PropsOk(props) && i < |props|
    ensures PropsOk(props[..i]) && PropsOk(props[..i + 1]) && PropOk(props[i], false)
    ensures var done := PropsSections(env, props[..i], numInherited);
      var more := PropsSections(env, props[..i + 1], numInherited);
      if Inherited(props[i], i, numInherited) then more == done
      else
        var next := SlotSections(env, props[i], i, false);
        && Then(Then(o, SectionsCode(strs, done)), SectionsCode(strs, next)) == Then(o, SectionsCode(strs, more))
        && ToInt32(ToInt32(sum + SumAll(done)) + SumAll(next)) == ToInt32(sum + SumAll(more))
  {
    hide Then, SectionsCode, SlotSections, SumAll, ToInt32, Inherited, PropOk;
    assert props[..i + 1][..i] == props[..i] && props[..i + 1][i] == props[i];
    var done := PropsSections(env, props[..i], numInherited);
    if Inherited(props[i], i, numInherited) {
      assert done + [] == done;
    } else {
      var next := SlotSections(env, props[i], i, false);
      JoinSections(o, strs, done, next, sum);
    }
  }

  /** A section behind its documentation, which adds nothing to the checksum. */
  lemma BehindDoc(o: Emission, strs: seq<CString>, p: Prop, tag: string, x: Section)
    requires Small(strs)
    ensures Then(Then(o, SectionsCode(strs, DocOf(p, tag))), SectionCode(strs, x))
         == Then(o, SectionsCode(strs, DocOf(p, tag) + [x]))
    ensures SumAll(DocOf(p, tag) + [x]) == Sum(x)
  {
    hide Then, SectionsCode, SectionCode;
    var doc := DocOf(p, tag);
    SectionsConcat(strs, doc, [x]);
    OneSection(strs, x);
    ThenAssoc(o, SectionsCode(strs, doc), SectionCode(strs, x));
    SumConcat(doc, [x]);
    SumOne(x);
    SumOne(Doc([]));
    if tag in p.docs {
      SumOne(Doc(p.docs[tag]));
    }
  }

  ghost function FunctionSum(q: Name, f: Fun): int {
    |f.activation| + (if f.info.body.Native? then 0 else |f.info.body.handlers|)
    + if Contains(q.name, DYNAMIC_FUN) then 0 else SumString(q.name)
  }

  lemma SumOfFunction(env: Env, q: Name, attributes: int32, slot: int32, f: Fun)
    requires FunOk(f)
    ensures Sum(FunSection(env, q, attributes, slot, f)) == SumAll(PropsSections(env, f.activation, 0)) + FunctionSum(q, f)
  {
    hide PropsSections, Contains, SumString;
  }

  lemma NoDebug()
    ensures DebugCode(None) == NOTHING
  {
  }
}

/**
 Lists of numbers, and references to global types: nothing, a core global by
 slot, or any other global by name, told apart by the low two bits of a number
 (ecEncodeGlobal in src/compiler/ecModuleWrite.c, read by ejsModuleReadType in
 src/vm/ejsLoader.c and by getGlobal in src/cmd/listing.c).
 */
module GlobalRef {
  import opened Bytes
  import opened NumberCodec
  import opened ConstantPool

  const NUM_CLASS_PROP: nat := 147  // ES_global_NUM_CLASS_PROP

  /** Pools small enough that an index shifted left by two is a C int. */
  ghost predicate Small(strs: seq<CString>) {
    |strs| <= 0x2000_0000
  }

  // -------------------------------------------------------- Runs of numbers

  function EncodeNums(ns: seq<int32>): seq<byte> {
    if ns == [] then [] else EncodeNum(ns[0]) + EncodeNums(ns[1..])
  }

  /** Reads `count` numbers, one after the other, each cast to int. */
  function ReadNums(s: seq<byte>, pos: nat, count: nat, signed: bool): (r: Option<(seq<int32>, nat)>)
    requires pos <= |s|
    ensures r.Some? ==> |r.value.0| == count && pos <= r.value.1 <= |s|
    decreases count
  {
    if count == 0 then Some(([], pos))
    else match ReadInt(s, pos, signed)
         case None => None
         case Some((n, next)) =>
           match ReadNums(s, next, count - 1, signed)
           case None => None
           case Some((ns, end)) => Some(([n] + ns, end))
  }

  lemma {:induction false} ReadNumsInverts(s: seq<byte>, pos: nat, ns: seq<int32>, signed: bool)
    requires At(s, pos, EncodeNums(ns))
    ensures ReadNums(s, pos, |ns|, signed) == Some((ns, pos + |EncodeNums(ns)|))
    decreases |ns|
  {
    hide EncodeNum, ReadInt;
    if ns != [] {
      assert ns == [ns[0]] + ns[1..];
      AtConcat(s, pos, EncodeNum(ns[0]), EncodeNums(ns[1..]));
      ReadIntInverts(s, pos, ns[0], signed);
      ReadNumsInverts(s, pos + |EncodeNum(ns[0])|, ns[1..], signed);
    }
  }

  // ------------------------------------------------------- Names and strings

  datatype Name = Name(name: CString, space: CString)

  /** The index emitted for a string constant. */
  function Index(strs: seq<CString>, s: CString): (i: int32)
    requires Small(strs) && s in strs
  {
    IndexOf(strs, s)
  }

  /** ejsCreateStringFromConst, on the list of strings a pool holds. */
  function StringFromConst(strs: seq<CString>, i: int): Option<CString> {
    if 0 <= i < |strs| then Some(strs[i]) else None
  }

  ghost predicate HasName(strs: seq<CString>, q: Name) {
    q.name in strs && q.space in strs
  }

  // -------------------------------------------------------------- References

  datatype Ref = NoRef | SlotRef(slot: int) | NameRef(qname: Name)

  /** ejsLookupProperty on the global object: a slot, or -1. */
  function Lookup(global: seq<Name>, q: Name): (slot: int)
    ensures -1 <= slot < |global|
    ensures slot >= 0 ==> global[slot] == q
    ensures slot < 0 <==> q !in global
  {
    if global == [] then -1
    else if global[0] == q then 0
    else
      var i := Lookup(global[1..], q);
      if i < 0 then -1 else i + 1
  }

  /** How ecEncodeGlobal refers to a global: core classes by slot, all others by name. */
  function RefOf(global: seq<Name>, q: Name): Ref {
    var slot := Lookup(global, q);
    if 0 <= slot < NUM_CLASS_PROP then SlotRef(slot) else NameRef(q)
  }

  ghost predicate Writable(strs: seq<CString>, ref: Ref) {
    match ref
    case NoRef => true
    case SlotRef(slot) => 0 <= slot < NUM_CLASS_PROP
    case NameRef(q) => HasName(strs, q)
  }

  /** The numbers emitted for a reference: kind in the low two bits of the first. */
  function RefNums(strs: seq<CString>, ref: Ref): (ns: seq<int32>)
    requires Small(strs) && Writable(strs, ref)
    ensures 1 <= |ns| <= 2
  {
    match ref
    case NoRef => [0]
    case SlotRef(slot) => [slot * 4 + 2]
    case NameRef(q) => [Index(strs, q.name) * 4 + 1, Index(strs, q.space)]
  }

  function EncodeRef(strs: seq<CString>, ref: Ref): seq<byte>
    requires Small(strs) && Writable(strs, ref)
  {
    EncodeNums(RefNums(strs, ref))
  }

  /**
   ejsModuleReadType from a file (signed) and getGlobal from byte code
   (unsigned), which alone refuses a negative number. None is an error or a
   failed assertion there.
   */
  function ReadRef(strs: seq<CString>, s: seq<byte>, pos: nat, signed: bool): (r: Option<(Ref, nat)>)
    ensures r.Some? ==> pos < r.value.1 <= |s|
  {
    match ReadInt(s, pos, signed)
    case None => None
    case Some((t, next)) =>
      if t < 0 && !signed then None
      else if t % 4 == 0 then Some((NoRef, next))
      else if t % 4 == 2 then Some((SlotRef(t / 4), next))
      else if t % 4 == 1 then
        match (StringFromConst(strs, t / 4), ReadInt(s, next, signed))
        case (Some(name), Some((u, end))) =>
          (match StringFromConst(strs, u)
           case Some(space) => Some((NameRef(Name(name, space)), end))
           case None => None)
        case _ => None
      else None
  }

  /** The qualified name a reference stands for when read against a global object. */
  function Resolve(global: seq<Name>, ref: Ref): Option<Name> {
    match ref
    case NoRef => None
    case SlotRef(slot) => if 0 <= slot < |global| then Some(global[slot]) else None
    case NameRef(q) => Some(q)
  }

  /** However a global is referred to, its name comes back. */
  lemma ResolveRef(global: seq<Name>, q: Name)
    ensures Resolve(global, RefOf(global, q)) == Some(q)
  {
  }

  /** Both readers recover the reference and consume exactly its bytes. */
  lemma ReadRefInverts(strs: seq<CString>, s: seq<byte>, pos: nat, ref: Ref, signed: bool)
    requires Small(strs) && Writable(strs, ref) && At(s, pos, EncodeRef(strs, ref))
    ensures ReadRef(strs, s, pos, signed) == Some((ref, pos + |EncodeRef(strs, ref)|))
  {
    hide EncodeNum, ReadInt;
    var ns := RefNums(strs, ref);
    var one := EncodeNum(ns[0]);
    var rest := EncodeNums(ns[1..]);
    AtConcat(s, pos, one, rest);
    ReadIntInverts(s, pos, ns[0], signed);
    if ref.NameRef? {
      assert ns[1..] == [ns[1]] && ns[1..][1..] == [];
      assert rest == EncodeNum(ns[1]) + EncodeNums([]);
      ReadIntInverts(s, pos + |one|, ns[1], signed);
    } else {
      assert ns[1..] == [];
    }
  }

  /**
   Decoding what was encoded for a name yields a slot exactly for the core
   globals, and always stands for the same name, wherever the module is loaded
   with the same core globals.
   */
  lemma GlobalRoundTrip(strs: seq<CString>, global: seq<Name>, loaded: seq<Name>, s: seq<byte>, pos: nat,
                        q: Name, signed: bool)
    requires Small(strs) && Writable(strs, RefOf(global, q))
    requires |loaded| >= NUM_CLASS_PROP && |global| >= NUM_CLASS_PROP
    requires loaded[..NUM_CLASS_PROP] == global[..NUM_CLASS_PROP]
    requires At(s, pos, EncodeRef(strs, RefOf(global, q)))
    ensures var r := ReadRef(strs, s, pos, signed);
            && r.Some? && r.value.1 == pos + |EncodeRef(strs, RefOf(global, q))|
            && !r.value.0.NoRef?
            && (r.value.0.SlotRef? <==> q in global[..NUM_CLASS_PROP])
            && Resolve(loaded, r.value.0) == Some(q)
  {
    ReadRefInverts(strs, s, pos, RefOf(global, q), signed);
    LookupCore(global, q);
    var slot := Lookup(global, q);
    if 0 <= slot < NUM_CLASS_PROP {
      assert loaded[slot] == loaded[..NUM_CLASS_PROP][slot] == global[..NUM_CLASS_PROP][slot];
    }
  }

  lemma {:induction false} LookupCore(global: seq<Name>, q: Name)
    requires |global| >= NUM_CLASS_PROP
    ensures 0 <= Lookup(global, q) < NUM_CLASS_PROP <==> q in global[..NUM_CLASS_PROP]
  {
    var slot := Lookup(global, q);
    if 0 <= slot < NUM_CLASS_PROP {
      assert global[..NUM_CLASS_PROP][slot] == q;
    }
    if i :| 0 <= i < NUM_CLASS_PROP && global[i] == q {
      LookupFirst(global, q, i);
    }
  }

  lemma {:induction false} LookupFirst(global: seq<Name>, q: Name, i: nat)
    requires i < |global| && global[i] == q
    ensures 0 <= Lookup(global, q) <= i
    decreases i
  {
    if global[0] != q {
      LookupFirst(global[1..], q, i - 1);
    }
  }

  /** Exactly the first 147 globals are referred to by slot, and exactly these slots can be written. */
  lemma SlotRefIff(strs: seq<CString>, global: seq<Name>, q: Name, slot: int)
    ensures Writable(strs, SlotRef(slot)) <==> 0 <= slot < 147
    ensures RefOf(global, q).SlotRef? <==> exists i :: 0 <= i < |global| && i < 147 && global[i] == q
  {
    hide Lookup;
    if i :| 0 <= i < |global| && i < 147 && global[i] == q {
      LookupFirst(global, q, i);
    }
  }

  /** The kinds are never confused: no two references share a code. */
  lemma EncodeRefInjective(strs: seq<CString>, a: Ref, b: Ref)
    requires Small(strs) && Writable(strs, a) && Writable(strs, b)
    requires EncodeRef(strs, a) == EncodeRef(strs, b)
    ensures a == b
  {
    var code := EncodeRef(strs, a);
    assert code[0..|code|] == code;
    ReadRefInverts(strs, code, 0, a, true);
    ReadRefInverts(strs, code, 0, b, true);
  }
}

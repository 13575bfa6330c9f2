/**
 The format byte by byte: how a number is laid out, in closed form, and one
 record of each kind written out as the bytes of the file (the emitters of
 src/compiler/ecModuleWrite.c, ejsEncodeNum in src/vm/ejsModule.c). The fields
 of a record hold different values, so each is seen to stand where it does.
 */
module FormatVectors {
  import opened AttributeBits
  import opened Bytes
  import opened NumberCodec
  import opened ConstantPool
  import opened GlobalRef
  import opened ModuleFormat
  import opened ModuleFile

  // --------------------------------------------------------------------- Numbers

  /** The continuation bit: set on all bytes but the last. */
  function More(size: nat, k: nat): nat {
    if k + 1 < size then 128 else 0
  }

  lemma {:induction false} GroupByte(first: int, rest: nat, k: nat)
    requires 0 <= first < 128 && k < |Groups(first, rest)|
    ensures Groups(first, rest)[k]
         == (if k == 0 then first else rest / Pow128(k - 1) % 128) + More(|Groups(first, rest)|, k)
    decreases k
  {
    if k > 0 {
      GroupByte(rest % 128, rest / 128, k - 1);
      if k > 1 {
        DivDiv(rest, Pow128(k - 2));
      }
    }
  }

  lemma DivDiv(a: nat, b: nat)
    requires b > 0
    ensures a / (128 * b) == a / 128 / b
  {
    var q, r := a / 128 / b, a / 128 % b;
    assert a == (q * b + r) * 128 + a % 128;
    assert a == q * (128 * b) + (r * 128 + a % 128);
    assert 0 <= r * 128 + a % 128 < 128 * b;
    DivIs(a, 128 * b, q, r * 128 + a % 128);
  }

  lemma DivIs(a: nat, d: nat, q: nat, r: nat)
    requires d > 0 && r < d && a == q * d + r
    ensures a / d == q
  {
    var x := a / d - q;
    assert x * d == a / d * d - q * d == r - a % d;
    AtLeast(x, d);
  }

  lemma AtLeast(x: int, d: int)
    requires d > 0
    ensures x >= 1 ==> x * d >= d
    ensures x <= -1 ==> x * d + d <= 0
  {
  }

  /**
   A number byte by byte: the sign in bit 0 of the first byte with six bits of
   the magnitude above it, seven bits in each later byte, the lowest first, and
   bit 7 on all but the last, which is not 0 if it is not the first.
   */
  lemma NumberBytes(n: int, k: nat)
    requires k < |EncodeNum(n)|
    ensures EncodeNum(n)[k]
         == (if k == 0 then Abs(n) % 64 * 2 + (if n < 0 then 1 else 0) else Abs(n) / 64 / Pow128(k - 1) % 128)
            + More(|EncodeNum(n)|, k)
    ensures |EncodeNum(n)| == 1 <==> Abs(n) < 64
  {
    GroupByte(FirstGroup(n), Abs(n) / 64, k);
    GroupsLength(FirstGroup(n), Abs(n) / 64, 0);
  }

  /** Four bytes: the number, and zeroes behind it. */
  lemma WordBytes(n: int, k: nat)
    requires Abs(n) <= ENCODE_MAX_WORD && k < 4
    ensures EncodeWord(n)[k] == if k < |EncodeNum(n)| then EncodeNum(n)[k] else 0
  {
    WordLength(n);
  }

  // --------------------------------------------------------- Reading any bytes

  /** k bytes with the continuation bit, and then one without it. */
  predicate IsRun(s: seq<byte>, pos: nat, k: nat) {
    pos + k < |s| && s[pos + k] < 128 && forall i :: pos <= i < pos + k ==> s[i] >= 128
  }

  /** The magnitude spelled by the bytes from pos + 1 up to pos + k, whether or not its last group is 0. */
  function Later(s: seq<byte>, pos: nat, k: nat): nat
    requires pos + k < |s|
  {
    if k == 0 then 0 else Later(s, pos, k - 1) + Share(s[pos + k], 64 * Pow128(k - 1))
  }

  /** Seven bits in their place. */
  function Share(c: byte, mult: nat): nat {
    c % 128 * mult
  }

  lemma PartWhole(c: byte, mult: nat, signed: bool)
    requires Share(c, mult) < if signed then TWO_31 else TWO_32
    ensures Part(c, mult, signed) == Share(c, mult)
  {
  }

  lemma PlaceValue(j: nat)
    requires j <= 4
    ensures 64 * Pow128(j) * 128 == 64 * Pow128(j + 1)
    ensures j <= 3 ==> 64 * Pow128(j) < TWO_32
  {
    assert Pow128(0) == 1 && Pow128(1) == 0x80 && Pow128(2) == 0x4000 && Pow128(3) == 0x20_0000;
  }

  function Magnitude(s: seq<byte>, pos: nat, k: nat): nat
    requires pos + k < |s|
  {
    s[pos] / 2 % 64 + Later(s, pos, k)
  }

  lemma {:induction false} LaterGrows(s: seq<byte>, pos: nat, j: nat, k: nat)
    requires j <= k && pos + k < |s|
    ensures Later(s, pos, j) <= Later(s, pos, k)
    decreases k
  {
    hide Share, Pow128;
    if j < k {
      LaterGrows(s, pos, j, k - 1);
    }
  }

  lemma {:induction false} RestOfRun(s: seq<byte>, pos: nat, j: nat, k: nat, signed: bool)
    requires j <= k <= 4 && IsRun(s, pos, k)
    requires Magnitude(s, pos, k) < if signed then TWO_31 else TWO_32
    ensures DecodeRest(s, pos + j + 1, s[pos + j], Magnitude(s, pos, j), 64 * Pow128(j), signed)
         == Num(Magnitude(s, pos, k), pos + k + 1)
    decreases k - j
  {
    hide Share, Pow128, Part;
    if j < k {
      LaterGrows(s, pos, j + 1, k);
      PlaceValue(j);
      PartWhole(s[pos + j + 1], 64 * Pow128(j), signed);
      RestOfRun(s, pos, j + 1, k, signed);
    }
  }

  /**
   Any bytes, canonical or not: up to five bytes that spell a magnitude within
   the width of the decoder are that number, with the sign of the first byte.
   */
  lemma DecodeRun(s: seq<byte>, pos: nat, k: nat, signed: bool)
    requires k <= 4 && IsRun(s, pos, k)
    requires Magnitude(s, pos, k) < if signed then TWO_31 else TWO_32
    ensures DecodeNum(s, pos, signed)
         == Num(if s[pos] % 2 == 1 then 0 - Magnitude(s, pos, k) else Magnitude(s, pos, k), pos + k + 1)
  {
    hide DecodeRest;
    RestOfRun(s, pos, 0, k, signed);
    assert Pow128(0) == 1;
  }

  /** Five bytes with the continuation bit make a shift that has no result; bytes that end before they do are too few. */
  lemma DecodeEndless(s: seq<byte>, pos: nat, k: nat, signed: bool)
    requires pos + k <= |s| && forall i :: pos <= i < pos + k ==> s[i] >= 128
    ensures k <= 5 && pos + k == |s| ==> DecodeNum(s, pos, signed) == Overrun
    ensures k == 5 && pos + k < |s| ==> DecodeNum(s, pos, signed) == Undefined
  {
    if k <= 5 && (k == 5 || pos + k == |s|) {
      EndlessRest(s, pos, k, signed);
    }
  }

  lemma EndlessRest(s: seq<byte>, pos: nat, k: nat, signed: bool)
    requires k <= 5 && pos + k <= |s| && (forall i :: pos <= i < pos + k ==> s[i] >= 128) && (k == 5 || pos + k == |s|)
    ensures DecodeNum(s, pos, signed) == if pos + k == |s| then Overrun else Undefined
  {
    if k > 0 {
      RestEndless(s, pos + 1, pos + k, s[pos], s[pos] / 2 % 64, 64, 5, signed);
    }
  }

  lemma {:induction false} RestEndless(s: seq<byte>, pos: nat, end: nat, c: byte, t: int, mult: nat, left: nat, signed: bool)
    requires pos <= end <= |s| && c >= 128 && (forall i :: pos <= i < end ==> s[i] >= 128)
    requires 1 <= left <= 5 && mult * Pow128(left - 1) == 64 * Pow128(4)
    requires end - pos < left && (end - pos == left - 1 || end == |s|)
    ensures DecodeRest(s, pos, c, t, mult, signed) == if end == |s| then Overrun else Undefined
    decreases left
  {
    assert Pow128(0) == 1 && Pow128(1) == 0x80 && Pow128(2) == 0x4000 && Pow128(3) == 0x20_0000 && Pow128(4) == 0x1000_0000;
    MultIs(mult, left);
    if pos < end {
      RestEndless(s, pos + 1, end, s[pos], t + Part(s[pos], mult, signed), mult * 128, left - 1, signed);
    }
  }

  lemma MultIs(mult: nat, left: nat)
    requires 1 <= left <= 5 && mult * Pow128(left - 1) == 64 * Pow128(4)
    ensures mult == match left case 5 => 64 case 4 => 0x2000 case 3 => 0x10_0000 case 2 => 0x800_0000 case _ => 0x4_0000_0000
  {
    assert Pow128(0) == 1 && Pow128(1) == 0x80 && Pow128(2) == 0x4000 && Pow128(3) == 0x20_0000 && Pow128(4) == 0x1000_0000;
  }

  // ------------------------------------------------------------- Small numbers

  predicate AreSmall(ns: seq<int32>) {
    forall i :: 0 <= i < |ns| ==> -64 < ns[i] < 64
  }

  function SmallCode(n: int): byte
    requires -64 < n < 64
  {
    if n < 0 then -2 * n + 1 else 2 * n
  }

  lemma {:induction false} SmallNums(ns: seq<int32>)
    requires AreSmall(ns)
    ensures |EncodeNums(ns)| == |ns| && forall i :: 0 <= i < |ns| ==> EncodeNums(ns)[i] == SmallCode(ns[i])
    decreases |ns|
  {
    if ns != [] {
      SmallNums(ns[1..]);
    }
  }

  lemma SmallWord(n: int)
    requires -64 < n < 64
    ensures EncodeWord(n) == [SmallCode(n), 0, 0, 0]
  {
  }

  // --------------------------------------------------------------------- Records

  const ABC: seq<CString> := [[0x61], [0x62], [0x63]]

  lemma Indices()
    ensures Small(ABC) && Distinct(ABC)
    ensures [0x61] in ABC && [0x62] in ABC && [0x63] in ABC
    ensures Index(ABC, [0x61]) == 0 && Index(ABC, [0x62]) == 1 && Index(ABC, [0x63]) == 2
  {
    assert ABC[1..][0] == [0x62] && ABC[1..][1..][0] == [0x63];
    assert ABC[0] == [0x61] && ABC[1] == [0x62] && ABC[2] == [0x63];
  }

  lemma DependencyVector()
    ensures var x := Dependency([0x62], 7, -8, 9);
            Fits(ABC, x) && SectionBytes(ABC, x) == [4, 2, 14, 17, 18]
  {
    Indices();
    SmallNums([1, 7, -8, 9]);
  }

  lemma DocVector()
    ensures Fits(ABC, Doc([0x63])) && SectionBytes(ABC, Doc([0x63])) == [13, 4]
  {
    Indices();
    SmallNums([2]);
  }

  /** References: none, core slot 5, and the name c in space a. */
  lemma RefVectors()
    ensures Writable(ABC, NameRef(Name([0x63], [0x61])))
    ensures EncodeRef(ABC, NoRef) == [0]
    ensures EncodeRef(ABC, SlotRef(5)) == [44]
    ensures EncodeRef(ABC, NameRef(Name([0x63], [0x61]))) == [18, 0]
  {
    Indices();
    SmallNums([0]);
    SmallNums([22]);
    SmallNums([9, 0]);
  }

  /** A property of namespace type: name, space, attributes, slot, type, value. */
  lemma PropertyVector()
    ensures var x := Property(PropHeader(Name([0x61], [0x62]), 0x200, -1, SlotRef(5), Some([0x63])));
            Fits(ABC, x) && SectionBytes(ABC, x) == [11, 0, 2, 128, 8, 3, 44, 4]
  {
    hide EncodeNum, EncodeRef, HasBit;
    Indices();
    RefVectors();
    HasValueBit();
    assert EncodeNums([0, 1, 0x200, -1]) == [0, 2, 128, 8, 3] by {
      NumsFront(0, [1, 0x200, -1]);
      NumsFront(1, [0x200, -1]);
      NumsFront(0x200, [-1]);
      SmallNums([-1]);
      SmallOne(0);
      SmallOne(1);
      TwoBytes(0x200);
    }
    assert EncodeNums([2]) == [4] by { SmallNums([2]); }
  }

  lemma HasValueBit()
    ensures HasBit(0x200, PROP_HAS_VALUE)
  {
  }

  lemma NumsFront(n: int32, ns: seq<int32>)
    ensures EncodeNums([n] + ns) == EncodeNum(n) + EncodeNums(ns)
  {
    assert ([n] + ns)[1..] == ns;
  }

  lemma SmallOne(n: int)
    requires -64 < n < 64
    ensures EncodeNum(n) == [SmallCode(n)]
  {
  }

  lemma TwoBytes(n: nat)
    requires 64 <= n < 0x2000
    ensures EncodeNum(n) == [n % 64 * 2 + 128, n / 64]
  {
    assert Groups(n / 64 % 128, n / 64 / 128) == [n / 64];
  }

  /** A block: name, slot, number of properties, what it holds, and the end tag. */
  lemma BlockVector()
    ensures var x := Block(BlockHeader([0x62], 3, 4), [Doc([0x63])]);
            Fits(ABC, x) && SectionBytes(ABC, x) == [9, 2, 6, 8, 13, 4, 10]
  {
    hide EncodeNum;
    Indices();
    DocVector();
    OneSectionBytes(Doc([0x63]));
    assert EncodeNums([1, 3, 4]) == [2, 6, 8] by { SmallNums([1, 3, 4]); }
  }

  lemma OneSectionBytes(x: Section)
    requires Fits(ABC, x) && Small(ABC)
    ensures SectionsBytes(ABC, [x]) == SectionBytes(ABC, x)
  {
    hide SectionBytes, Fits;
    assert [x][1..] == [];
  }

  const CLASS: ClassHeader := ClassHeader(Name([0x61], [0x62]), 7, 8, NoRef, 9, 10, [SlotRef(5), NoRef])

  lemma ClassHead()
    ensures ClassFits(ABC, CLASS) && ClassBytes(ABC, CLASS) == [0, 2, 14, 16, 0, 18, 20, 4, 44, 0]
  {
    hide EncodeNum, EncodeRef;
    Indices();
    RefVectors();
    assert EncodeNums([0, 1, 7, 8]) == [0, 2, 14, 16] by { SmallNums([0, 1, 7, 8]); }
    assert EncodeNums([9, 10, 2]) == [18, 20, 4] by { SmallNums([9, 10, 2]); }
    hide EncodeNums;
    var refs := CLASS.interfaces;
    assert refs[1..] == [NoRef] && refs[1..][1..] == [];
    assert RefsBytes(ABC, refs[1..]) == EncodeRef(ABC, NoRef) + RefsBytes(ABC, []);
  }

  /** A class: name, space, attributes, slot, base, static and instance properties, interfaces, members, end tag. */
  lemma ClassVector()
    ensures var x := Class(CLASS, [Doc([0x63])]);
            Fits(ABC, x) && SectionBytes(ABC, x) == [5, 0, 2, 14, 16, 0, 18, 20, 4, 44, 0, 13, 4, 6]
  {
    hide ClassFits, ClassBytes, SectionsBytes, EncodeNums;
    Indices();
    ClassHead();
    DocVector();
    OneSectionBytes(Doc([0x63]));
  }

  const CODE: Code :=
    Code([0xC1, 0xC2], [Handler(3, 4, 5, 6, 7, 8, 9, NoRef)], Some([DebugLine(11, [0x78, 0x79])]))

  /** The size in front of debug records counts the bytes behind it: lines, offset, length with the NUL, text. */
  lemma DebugVector()
    ensures LinesFit([DebugLine(11, [0x78, 0x79])])
    ensures DebugSectionBytes(Some([DebugLine(11, [0x78, 0x79])])) == [3, 12, 0, 0, 0, 2, 22, 6, 0x78, 0x79, 0]
  {
    var lines := [DebugLine(11, [0x78, 0x79])];
    SmallOne(1);
    SmallOne(11);
    SmallOne(3);
    hide EncodeNum;
    assert lines[1..] == [];
    assert LinesBytes(lines) == [22, 6, 0x78, 0x79, 0] + LinesBytes([]);
    assert DebugBytes(lines) == [2, 22, 6, 0x78, 0x79, 0];
    SmallWord(6);
  }

  lemma HandlerVector()
    ensures HandlersBytes(ABC, CODE.handlers) == [3, 8, 10, 12, 14, 16, 18, 0]
  {
    hide EncodeNum, EncodeRef;
    RefVectors();
    Indices();
    var h := CODE.handlers[0];
    assert EncodeNums([4, 5, 6, 7, 8, 9]) == [8, 10, 12, 14, 16, 18] by { SmallNums([4, 5, 6, 7, 8, 9]); }
    assert CODE.handlers[1..] == [];
    assert HandlersBytes(ABC, CODE.handlers) == HandlerBytes(ABC, h) + HandlersBytes(ABC, []);
  }

  const FUN: FunHeader := FunHeader(Name([0x61], [0x62]), 12, 1, NameRef(Name([0x63], [0x61])), 13, 14, 15, 16, 1)

  lemma FunctionNums()
    ensures EncodeNums([0, 1, 12]) == [0, 2, 24]
    ensures EncodeNums([13, 14, 15, 16, 1, 2]) == [26, 28, 30, 32, 2, 4]
  {
    hide EncodeNums;
    SmallNums([0, 1, 12]);
    SmallNums([13, 14, 15, 16, 1, 2]);
  }

  lemma FunctionHead()
    ensures FunFits(ABC, FUN) && CodeFits(ABC, FUN, CODE)
    ensures FunBytes(ABC, FUN, CODE) == [0, 2, 24, 1, 18, 0, 26, 28, 30, 32, 2, 4, 0xC1, 0xC2]
  {
    hide EncodeNums, EncodeRef, LinesFit, DebugSectionBytes, Distinct, IndexOf;
    Indices();
    RefVectors();
    DebugVector();
    FunctionNums();
  }

  lemma FunctionTail()
    requires CodeFits(ABC, FUN, CODE) && Small(ABC)
    ensures CodeTailBytes(ABC, FUN, CODE)
         == [12, 3, 8, 10, 12, 14, 16, 18, 0] + [3, 12, 0, 0, 0, 2, 22, 6, 0x78, 0x79, 0]
  {
    hide LinesFit, DebugSectionBytes, HandlersBytes;
    DebugVector();
    HandlerVector();
  }

  /**
   A function: name, space, attributes, strict, result type, slot, properties,
   arguments, defaults, handlers, code length, code; exceptions, debug records,
   members, end tag.
   */
  lemma FunctionVector()
    ensures var x := Function(FUN, CODE, [Doc([0x63])]);
            && Fits(ABC, x)
            && SectionBytes(ABC, x)
               == [7, 0, 2, 24, 1, 18, 0, 26, 28, 30, 32, 2, 4, 0xC1, 0xC2]
                  + [12, 3, 8, 10, 12, 14, 16, 18, 0]
                  + [3, 12, 0, 0, 0, 2, 22, 6, 0x78, 0x79, 0]
                  + [13, 4, 8]
  {
    hide FunFits, CodeFits, FunBytes, CodeTailBytes, SectionsBytes, EncodeNums;
    Indices();
    FunctionHead();
    FunctionTail();
    DocVector();
    OneSectionBytes(Doc([0x63]));
  }

  const MODULE: Module := Module([0x62], 5, 7, ABC, [Doc([0x63])])

  lemma ModuleHead()
    ensures ModuleFits(MODULE)
    ensures PreambleBytes(MODULE) == [2, 10, 14, 0, 0, 0, 12, 6, 0x61, 0, 0x62, 0, 0x63, 0]
  {
    hide EncodeNum, EncodeWord, Flatten;
    Indices();
    DocVector();
    PoolVector();
    SmallWord(7);
    assert EncodeNums([1, 5]) == [2, 10] by { SmallNums([1, 5]); }
    assert EncodeNums([6, 3]) == [12, 6] by { SmallNums([6, 3]); }
    hide EncodeNums;
  }

  lemma ModuleVector()
    ensures ModuleFits(MODULE)
    ensures ModuleBytes(MODULE) == [1, 2, 10, 14, 0, 0, 0, 12, 6, 0x61, 0, 0x62, 0, 0x63, 0, 13, 4, 2]
  {
    hide PreambleBytes, SectionsBytes, Flatten, Fits;
    ModuleHead();
    DocVector();
    OneSectionBytes(Doc([0x63]));
  }

  /** A file of one module: header, tag, name, version, checksum word, pool size, strings, pool, sections, end tag. */
  lemma FileVector()
    ensures ModuleFits(MODULE)
    ensures FileBytes([MODULE])
         == [0xDA, 0xC7, 0, 0, 3, 0, 0, 0, 0, 0, 0, 0]
            + [1, 2, 10, 14, 0, 0, 0, 12, 6, 0x61, 0, 0x62, 0, 0x63, 0, 13, 4, 2]
  {
    hide ModuleFits, ModuleBytes;
    ModuleVector();
    assert [MODULE][1..] == [];
    assert ModulesBytes([MODULE]) == ModuleBytes(MODULE) + ModulesBytes([]);
  }

  lemma PoolVector()
    ensures Flatten(ABC) == [0x61, 0, 0x62, 0, 0x63, 0]
  {
    assert ABC[..2] == [[0x61], [0x62]] && ABC[..2][..1] == [[0x61]] && ABC[..2][..1][..0] == [];
    assert Flatten(ABC[..2][..1]) == [0x61, 0];
    assert Flatten(ABC[..2]) == [0x61, 0, 0x62, 0];
  }
}

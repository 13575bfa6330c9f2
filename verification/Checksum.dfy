/**
 The additive checksum of a module (sumNum, sumString and the `checksum +=`
 statements of src/compiler/ecModuleWrite.c), as a fold over the section tree.
 It is kept in a C int, so everything is modulo 2^32.
 */
module Checksum {
  import opened Bytes
  import opened NumberCodec
  import opened ConstantPool
  import opened GlobalRef
  import opened ModuleFormat

  /** A byte as a signed char. */
  function SignedChar(b: byte): int {
    if b < 0x80 then b else b - 0x100
  }

  function SumString(s: seq<byte>): int {
    if s == [] then 0 else SumString(s[..|s| - 1]) + SignedChar(s[|s| - 1])
  }

  ghost predicate Contains(s: seq<byte>, pat: seq<byte>) {
    exists i: nat :: At(s, i, pat)
  }

  /** ejsContainsAsc: the first place where pat stands in s, or -1. */
  method ContainsAsc(s: CString, pat: CString) returns (index: int)
    requires pat != []
    ensures index == -1 <==> !Contains(s, pat)
    ensures index != -1 ==> index >= 0 && At(s, index, pat) && forall k: nat :: k < index ==> !At(s, k, pat)
  {
    for i := 0 to |s|
      invariant forall k: nat :: k < i ==> !At(s, k, pat)
    {
      var j := 0;
      while j < |pat| && i + j < |s| && s[i + j] == pat[j]
        invariant j <= |pat| && i + j <= |s| && forall k :: 0 <= k < j ==> s[i + k] == pat[k]
      {
        j := j + 1;
      }
      if j == |pat| {
        assert s[i..i + |pat|] == pat && At(s, i, pat);
        return i;
      }
      if At(s, i, pat) {
        AtIndex(s, i, pat, j);
      }
    }
    index := -1;
  }

  const DYNAMIC_FUN: CString := [0x2D, 0x2D, 0x66, 0x75, 0x6E, 0x5F]  // --fun_

  /**
   What one section adds: its counts and its name, and what is inside it.
   Functions without a name of their own add none.
   */
  ghost function Sum(x: Section): int
    decreases x, 1
  {
    match x
    case Dependency(name, _, _, _) => SumString(name)
    case Doc(_) => 0
    case Class(c, body) =>
      SumAll(body) + (c.numTypeProp + c.numInstanceProp + |c.interfaces|) + SumString(c.qname.name)
    case Function(f, code, body) =>
      SumAll(body) + f.numProp + (if code.NoCode? then 0 else |code.handlers|)
      + if Contains(f.qname.name, DYNAMIC_FUN) then 0 else SumString(f.qname.name)
    case Block(_, body) => SumAll(body)
    case Property(p) => SumString(p.qname.name)
  }

  ghost function SumAll(xs: seq<Section>): int
    decreases xs, 0
  {
    if xs == [] then 0 else Sum(xs[0]) + SumAll(xs[1..])
  }

  lemma {:induction false} SumConcat(xs: seq<Section>, ys: seq<Section>)
    ensures SumAll(xs + ys) == SumAll(xs) + SumAll(ys)
    decreases |xs|
  {
    if xs == [] {
      assert xs + ys == ys;
    } else {
      assert (xs + ys)[1..] == xs[1..] + ys;
      SumConcat(xs[1..], ys);
    }
  }

  lemma SumOne(x: Section)
    ensures SumAll([x]) == Sum(x) && SumAll([]) == 0
  {
    hide Sum;
    assert [x][1..] == [];
  }

  lemma WrapAdd(a: int, b: int)
    ensures ToInt32(ToInt32(a) + b) == ToInt32(a + b)
  {
    var k := (a - ToInt32(a)) / TWO_32;
    assert a == ToInt32(a) + k * TWO_32;
    assert (a + b) % TWO_32 == (ToInt32(a) + b) % TWO_32 by {
      ModShift(ToInt32(a) + b, k);
    }
  }

  lemma ModShift(x: int, k: int)
    ensures (x + k * TWO_32) % TWO_32 == x % TWO_32
  {
    var q, r := x / TWO_32, x % TWO_32;
    assert x + k * TWO_32 == (q + k) * TWO_32 + r;
  }

  /** sumString */
  method SumOfString(name: CString) returns (sum: int32)
    ensures sum == ToInt32(SumString(name))
  {
    sum := 0;
    for i := 0 to |name|
      invariant sum == ToInt32(SumString(name[..i]))
    {
      assert name[..i + 1][..i] == name[..i];
      WrapAdd(SumString(name[..i]), SignedChar(name[i]));
      sum := ToInt32(sum + SignedChar(name[i]));
    }
    assert name[..|name|] == name;
  }

  // -------------------------------------------------------------------- In numbers

  lemma LetterSum(b: byte)
    ensures SumString([b]) == SignedChar(b)
  {
    assert [b][..0] == [];
  }

  /** What a dependency, a text, a property and a block add of themselves: names count, spaces and values do not. */
  lemma LeafSumIs(q: Name, p: PropHeader, b: BlockHeader)
    requires q.name == [0x61] && p.qname == q
    ensures Sum(Dependency([0x62], 7, 8, 9)) == 0x62 && Sum(Doc([0x62])) == 0
    ensures Sum(Property(p)) == 0x61 && Sum(Block(b, [Property(p)])) == 0x61
  {
    LetterSum(0x61);
    LetterSum(0x62);
    SumOne(Property(p));
  }

  /** A class: its members, its two numbers of properties, its interfaces, and its name. */
  lemma ClassSumIs(c: ClassHeader, x: Section)
    requires c.qname.name == [0xE1] && c.numTypeProp == 1000 && c.numInstanceProp == 20_000
    requires |c.interfaces| == 300_000 && x == Dependency([0x62], 0, 0, 0)
    ensures Sum(Class(c, [x])) == 321_000 + 0x62 - 31
  {
    hide SumString;
    LetterSum(0xE1);
    LetterSum(0x62);
    SumOne(x);
  }

  /** A function: its members, its locals, its handlers if it has byte code, and its name unless it has none of its own. */
  lemma FunctionSumIs(f: FunHeader, hs: seq<Handler>, x: Section)
    requires f.numProp == 1000 && f.numArgs == 7 && |hs| == 20_000 && x == Dependency([0x62], 0, 0, 0)
    ensures f.qname.name == [0x61] ==> Sum(Function(f, Code([1], hs, None), [x])) == 21_000 + 0x62 + 0x61
    ensures f.qname.name == [0x61] ==> Sum(Function(f, NoCode, [x])) == 1000 + 0x62 + 0x61
    ensures f.qname.name == [0x61] + DYNAMIC_FUN ==> Sum(Function(f, NoCode, [x])) == 1000 + 0x62
  {
    hide SumString;
    LetterSum(0x61);
    LetterSum(0x62);
    SumOne(x);
    if f.qname.name == [0x61] + DYNAMIC_FUN {
      assert f.qname.name[1..1 + |DYNAMIC_FUN|] == DYNAMIC_FUN && At(f.qname.name, 1, DYNAMIC_FUN);
    }
  }
}

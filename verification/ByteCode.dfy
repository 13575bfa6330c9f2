/**
 Byte code as the compiler emits it with ecEncodeOpcode and the other emitters
 of src/compiler/ecModuleWrite.c, and as the lister sweeps it (interp and
 decodeOperands in src/cmd/listing.c). Both sides are driven by an opcode
 table; the results hold for every table and so for ejsOptable.
 */
module ByteCode {
  import opened Bytes
  import opened NumberCodec
  import opened ConstantPool
  import opened GlobalRef
  import opened OpTable

  type Table = seq<OpInfo>

  datatype Operand =
    | Byte(b: byte)
    | Double(eight: seq<byte>)
    | Num(n: int32)
    | Str(str: CString)
    | Global(ref: Ref)
    | Jump(offset: int32)
    | Jumps8(entries8: seq<byte>)
    | Jumps(entries: seq<int32>)
    | Attributes(argc: int32, attributes: seq<int32>)
    | Missing  // refers to a string, or in a way, that does not exist

  datatype Instr = Instr(opcode: byte, operands: seq<Operand>)

  // ---------------------------------------------------------------- Emitting

  ghost predicate OperandFits(strs: seq<CString>, k: Kind, x: Operand) {
    match k
    case BYTE => x.Byte?
    case JMP8 => x.Byte?
    case DOUBLE => x.Double? && |x.eight| == 8
    case STRING => x.Str? && x.str in strs
    case GLOBAL => x.Global? && Writable(strs, x.ref)
    case JMP => x.Jump? && Abs(x.offset) <= ENCODE_MAX_WORD
    case INIT_DEFAULT8 => x.Jumps8? && |x.entries8| < 0x100
    case INIT_DEFAULT =>
      x.Jumps? && |x.entries| < 0x100 && forall i :: 0 <= i < |x.entries| ==> Abs(x.entries[i]) <= ENCODE_MAX_WORD
    case NEW_OBJECT => x.Attributes? && x.argc == |x.attributes|
    case _ => x.Num?
  }

  /** A jump, or an entry of a jump table, can be emitted exactly if its offset fits four bytes. */
  lemma JumpFitsIff(strs: seq<CString>, n: int32)
    ensures OperandFits(strs, JMP, Jump(n)) <==> |EncodeNum(n)| <= 4
    ensures OperandFits(strs, INIT_DEFAULT, Jumps([n])) <==> |EncodeNum(n)| <= 4
  {
    WordLength(n);
    assert forall i :: 0 <= i < |[n]| ==> [n][i] == n;
    assert [n][0] == n;
  }

  function WordsBytes(ns: seq<int32>): seq<byte>
    requires forall i :: 0 <= i < |ns| ==> Abs(ns[i]) <= ENCODE_MAX_WORD
  {
    if ns == [] then [] else EncodeWord(ns[0]) + WordsBytes(ns[1..])
  }

  function OperandBytes(strs: seq<CString>, k: Kind, x: Operand): seq<byte>
    requires Small(strs) && OperandFits(strs, k, x)
  {
    match k
    case BYTE => [x.b]
    case JMP8 => [x.b]
    case DOUBLE => x.eight
    case STRING => EncodeNums([Index(strs, x.str)])
    case GLOBAL => EncodeRef(strs, x.ref)
    case JMP => EncodeWord(x.offset)
    case INIT_DEFAULT8 => [|x.entries8|] + x.entries8
    case INIT_DEFAULT => [|x.entries|] + WordsBytes(x.entries)
    case NEW_OBJECT => EncodeNums([|x.attributes|]) + EncodeNums(x.attributes)
    case _ => EncodeNums([x.n])
  }

  ghost predicate OperandsFit(strs: seq<CString>, ks: seq<Kind>, xs: seq<Operand>) {
    |ks| == |xs| && forall i :: 0 <= i < |ks| ==> OperandFits(strs, ks[i], xs[i])
  }

  function OperandsBytes(strs: seq<CString>, ks: seq<Kind>, xs: seq<Operand>): seq<byte>
    requires Small(strs) && OperandsFit(strs, ks, xs)
  {
    if ks == [] then [] else OperandBytes(strs, ks[0], xs[0]) + OperandsBytes(strs, ks[1..], xs[1..])
  }

  /** As many operands as the table gives the opcode. */
  predicate OfTable(tab: Table, x: Instr) {
    x.opcode < |tab| && |tab[x.opcode].args| == |x.operands|
  }

  ghost predicate Shaped(tab: Table, xs: seq<Instr>) {
    forall i :: 0 <= i < |xs| ==> OfTable(tab, xs[i])
  }

  /** Table entries are addressed by a byte, and ecEncodeOpcode asserts opcodes below 240. */
  ghost predicate InstrFits(tab: Table, strs: seq<CString>, x: Instr): (ok: bool)
    ensures ok ==> OfTable(tab, x)
  {
    x.opcode < |tab| && x.opcode < 240 && OperandsFit(strs, tab[x.opcode].args, x.operands)
  }

  function InstrBytes(tab: Table, strs: seq<CString>, x: Instr): (code: seq<byte>)
    requires Small(strs) && InstrFits(tab, strs, x)
    ensures |code| >= 1
  {
    [x.opcode] + OperandsBytes(strs, tab[x.opcode].args, x.operands)
  }

  ghost predicate CodeFits(tab: Table, strs: seq<CString>, xs: seq<Instr>): (ok: bool)
    ensures ok ==> Shaped(tab, xs)
  {
    forall i :: 0 <= i < |xs| ==> InstrFits(tab, strs, xs[i])
  }

  function CodeBytes(tab: Table, strs: seq<CString>, xs: seq<Instr>): seq<byte>
    requires Small(strs) && CodeFits(tab, strs, xs)
  {
    if xs == [] then [] else InstrBytes(tab, strs, xs[0]) + CodeBytes(tab, strs, xs[1..])
  }

  // ---------------------------------------------------------------- Sweeping

  function ReadWords(s: seq<byte>, pos: nat, count: nat): (r: Option<(seq<int32>, nat)>)
    requires pos <= |s|
    ensures r.Some? ==> pos <= r.value.1 <= |s|
    decreases count
  {
    if count == 0 then Some(([], pos))
    else match ReadWord(s, pos)
         case None => None
         case Some((n, next)) =>
           match ReadWords(s, next, count - 1)
           case None => None
           case Some((ns, end)) => Some(([n] + ns, end))
  }

  /**
   getGlobal: a negative number, an unknown kind or a name that is not in the pool
   is noted, and the listing goes on behind what was read; a namespace is read
   only behind a name that is there.
   */
  function ReadGlobal(strs: seq<CString>, s: seq<byte>, pos: nat): (r: Option<(Operand, nat)>)
    requires pos <= |s|
    ensures r.Some? ==> pos <= r.value.1 <= |s|
  {
    match ReadRef(strs, s, pos, false)
    case Some((ref, end)) => Some((Global(ref), end))
    case None =>
      match ReadInt(s, pos, false)
      case None => None
      case Some((t, next)) =>
        if t < 0 || t % 4 != 1 || StringFromConst(strs, t / 4).None? then Some((Missing, next))
        else match ReadInt(s, next, false)
             case None => None
             case Some((_, end)) => Some((Missing, end))
  }

  /** One case of the operand switch in decodeOperands; None reads past the code. */
  function ReadOperand(strs: seq<CString>, s: seq<byte>, pos: nat, k: Kind): (r: Option<(Operand, nat)>)
    requires pos <= |s|
    ensures r.Some? ==> pos <= r.value.1 <= |s|
  {
    match k
    case BYTE => if pos < |s| then Some((Byte(s[pos]), pos + 1)) else None
    case JMP8 => if pos < |s| then Some((Byte(s[pos]), pos + 1)) else None
    case DOUBLE => if pos + 8 <= |s| then Some((Double(s[pos..pos + 8]), pos + 8)) else None
    case STRING =>
      (match ReadInt(s, pos, false)
       case None => None
       case Some((i, next)) =>
         match StringFromConst(strs, i)
         case None => Some((Missing, next))
         case Some(str) => Some((Str(str), next)))
    case GLOBAL => ReadGlobal(strs, s, pos)
    case JMP =>
      (match ReadWord(s, pos)
       case None => None
       case Some((n, next)) => Some((Jump(n), next)))
    case INIT_DEFAULT8 =>
      if pos >= |s| || pos + 1 + s[pos] > |s| then None
      else Some((Jumps8(s[pos + 1..pos + 1 + s[pos]]), pos + 1 + s[pos]))
    case INIT_DEFAULT =>
      if pos >= |s| then None
      else (match ReadWords(s, pos + 1, s[pos])
            case None => None
            case Some((ns, next)) => Some((Jumps(ns), next)))
    case NEW_OBJECT =>
      (match ReadInt(s, pos, false)
       case None => None
       case Some((argc, next)) =>
         match ReadNums(s, next, if argc < 0 then 0 else argc, false)
         case None => None
         case Some((ns, end)) => Some((Attributes(argc, ns), end)))
    case _ =>
      (match ReadInt(s, pos, false)
       case None => None
       case Some((n, next)) => Some((Operand.Num(n), next)))
  }

  function ReadOperands(strs: seq<CString>, s: seq<byte>, pos: nat, ks: seq<Kind>): (r: Option<(seq<Operand>, nat)>)
    requires pos <= |s|
    ensures r.Some? ==> pos <= r.value.1 <= |s|
    decreases |ks|
  {
    if ks == [] then Some(([], pos))
    else match ReadOperand(strs, s, pos, ks[0])
         case None => None
         case Some((x, next)) =>
           match ReadOperands(strs, s, next, ks[1..])
           case None => None
           case Some((xs, end)) => Some(([x] + xs, end))
  }

  lemma {:induction false} ReadWordsInverts(s: seq<byte>, pos: nat, ns: seq<int32>)
    requires forall i :: 0 <= i < |ns| ==> Abs(ns[i]) <= ENCODE_MAX_WORD
    requires At(s, pos, WordsBytes(ns))
    ensures ReadWords(s, pos, |ns|) == Some((ns, pos + |WordsBytes(ns)|))
    decreases |ns|
  {
    hide EncodeWord, ReadWord;
    if ns != [] {
      assert ns == [ns[0]] + ns[1..];
      AtConcat(s, pos, EncodeWord(ns[0]), WordsBytes(ns[1..]));
      ReadWordInverts(s, pos, ns[0]);
      ReadWordsInverts(s, pos + 4, ns[1..]);
    }
  }

  lemma OneNum(s: seq<byte>, pos: nat, n: int32)
    requires At(s, pos, EncodeNums([n]))
    ensures ReadInt(s, pos, false) == Some((n, pos + |EncodeNums([n])|))
  {
    hide EncodeNum, ReadInt;
    assert [n][1..] == [];
    assert EncodeNums([n]) == EncodeNum(n) + EncodeNums([]);
    ReadIntInverts(s, pos, n, false);
  }

  /** The operands of one byte and of eight. */
  lemma FixedInverts(strs: seq<CString>, s: seq<byte>, pos: nat, k: Kind, x: Operand)
    requires k == BYTE || k == JMP8 || k == DOUBLE
    requires Small(strs) && OperandFits(strs, k, x) && At(s, pos, OperandBytes(strs, k, x))
    ensures ReadOperand(strs, s, pos, k) == Some((x, pos + |OperandBytes(strs, k, x)|))
  {
    if !k.DOUBLE? {
      AtIndex(s, pos, [x.b], 0);
    }
  }

  lemma StringInverts(strs: seq<CString>, s: seq<byte>, pos: nat, x: Operand)
    requires Small(strs) && OperandFits(strs, STRING, x) && At(s, pos, OperandBytes(strs, STRING, x))
    ensures ReadOperand(strs, s, pos, STRING) == Some((x, pos + |OperandBytes(strs, STRING, x)|))
  {
    hide EncodeNums, ReadInt;
    OneNum(s, pos, Index(strs, x.str));
  }

  lemma GlobalInverts(strs: seq<CString>, s: seq<byte>, pos: nat, x: Operand)
    requires Small(strs) && OperandFits(strs, GLOBAL, x) && At(s, pos, OperandBytes(strs, GLOBAL, x))
    ensures ReadOperand(strs, s, pos, GLOBAL) == Some((x, pos + |OperandBytes(strs, GLOBAL, x)|))
  {
    hide EncodeRef, ReadRef;
    ReadRefInverts(strs, s, pos, x.ref, false);
  }

  lemma JumpInverts(strs: seq<CString>, s: seq<byte>, pos: nat, x: Operand)
    requires Small(strs) && OperandFits(strs, JMP, x) && At(s, pos, OperandBytes(strs, JMP, x))
    ensures ReadOperand(strs, s, pos, JMP) == Some((x, pos + |OperandBytes(strs, JMP, x)|))
  {
    hide EncodeWord, ReadWord;
    ReadWordInverts(s, pos, x.offset);
  }

  lemma JumpBytesInvert(strs: seq<CString>, s: seq<byte>, pos: nat, x: Operand)
    requires Small(strs) && OperandFits(strs, INIT_DEFAULT8, x) && At(s, pos, OperandBytes(strs, INIT_DEFAULT8, x))
    ensures ReadOperand(strs, s, pos, INIT_DEFAULT8) == Some((x, pos + |OperandBytes(strs, INIT_DEFAULT8, x)|))
  {
    AtConcat(s, pos, [|x.entries8|], x.entries8);
    AtIndex(s, pos, [|x.entries8|], 0);
  }

  lemma JumpTableInverts(strs: seq<CString>, s: seq<byte>, pos: nat, x: Operand)
    requires Small(strs) && OperandFits(strs, INIT_DEFAULT, x) && At(s, pos, OperandBytes(strs, INIT_DEFAULT, x))
    ensures ReadOperand(strs, s, pos, INIT_DEFAULT) == Some((x, pos + |OperandBytes(strs, INIT_DEFAULT, x)|))
  {
    hide WordsBytes, ReadWords;
    AtConcat(s, pos, [|x.entries|], WordsBytes(x.entries));
    AtIndex(s, pos, [|x.entries|], 0);
    ReadWordsInverts(s, pos + 1, x.entries);
  }

  lemma AttributesInvert(strs: seq<CString>, s: seq<byte>, pos: nat, x: Operand)
    requires Small(strs) && OperandFits(strs, NEW_OBJECT, x) && At(s, pos, OperandBytes(strs, NEW_OBJECT, x))
    ensures ReadOperand(strs, s, pos, NEW_OBJECT) == Some((x, pos + |OperandBytes(strs, NEW_OBJECT, x)|))
  {
    hide EncodeNums, ReadInt, ReadNums;
    var head := EncodeNums([|x.attributes|]);
    AtConcat(s, pos, head, EncodeNums(x.attributes));
    OneNum(s, pos, |x.attributes|);
    ReadNumsInverts(s, pos + |head|, x.attributes, false);
  }

  /** All other operands are one number. */
  predicate IsNumber(k: Kind) {
    k == NUM || k == SLOT || k == ARGC || k == ARGC2 || k == ARGC3 || k == NEW_ARRAY
  }

  lemma NumberInverts(strs: seq<CString>, s: seq<byte>, pos: nat, k: Kind, x: Operand)
    requires IsNumber(k)
    requires Small(strs) && OperandFits(strs, k, x) && At(s, pos, OperandBytes(strs, k, x))
    ensures ReadOperand(strs, s, pos, k) == Some((x, pos + |OperandBytes(strs, k, x)|))
  {
    hide EncodeNums, ReadInt;
    OneNum(s, pos, x.n);
  }

  /** Every kind of operand is read back, and ends where its bytes end. */
  lemma ReadOperandInverts(strs: seq<CString>, s: seq<byte>, pos: nat, k: Kind, x: Operand)
    requires Small(strs) && OperandFits(strs, k, x) && At(s, pos, OperandBytes(strs, k, x))
    ensures ReadOperand(strs, s, pos, k) == Some((x, pos + |OperandBytes(strs, k, x)|))
  {
    hide OperandFits, OperandBytes, ReadOperand, At;
    match k {
      case BYTE => FixedInverts(strs, s, pos, k, x);
      case JMP8 => FixedInverts(strs, s, pos, k, x);
      case DOUBLE => FixedInverts(strs, s, pos, k, x);
      case STRING => StringInverts(strs, s, pos, x);
      case GLOBAL => GlobalInverts(strs, s, pos, x);
      case JMP => JumpInverts(strs, s, pos, x);
      case INIT_DEFAULT8 => JumpBytesInvert(strs, s, pos, x);
      case INIT_DEFAULT => JumpTableInverts(strs, s, pos, x);
      case NEW_OBJECT => AttributesInvert(strs, s, pos, x);
      case _ => NumberInverts(strs, s, pos, k, x);
    }
  }

  lemma {:induction false} ReadOperandsInvert(strs: seq<CString>, s: seq<byte>, pos: nat, ks: seq<Kind>, xs: seq<Operand>)
    requires Small(strs) && OperandsFit(strs, ks, xs) && At(s, pos, OperandsBytes(strs, ks, xs))
    ensures ReadOperands(strs, s, pos, ks) == Some((xs, pos + |OperandsBytes(strs, ks, xs)|))
    decreases |ks|
  {
    hide OperandBytes, ReadOperand, OperandFits;
    if ks != [] {
      assert xs == [xs[0]] + xs[1..];
      AtConcat(s, pos, OperandBytes(strs, ks[0], xs[0]), OperandsBytes(strs, ks[1..], xs[1..]));
      ReadOperandInverts(strs, s, pos, ks[0], xs[0]);
      ReadOperandsInvert(strs, s, pos + |OperandBytes(strs, ks[0], xs[0])|, ks[1..], xs[1..]);
    }
  }

  // ------------------------------------------------------------ Stack effects

  /** Items an operand pops beyond the table value: one, two or three a counted argument. */
  function Pops(k: Kind, x: Operand): int {
    match (k, x)
    case (ARGC, Num(n)) => n
    case (ARGC2, Num(n)) => 2 * n
    case (ARGC3, Num(n)) => 3 * n
    case (NEW_ARRAY, Num(n)) => 2 * n
    case (NEW_OBJECT, Attributes(n, _)) => 3 * n
    case _ => 0
  }

  function SumPops(ks: seq<Kind>, xs: seq<Operand>): int
    requires |ks| == |xs|
  {
    if ks == [] then 0 else SumPops(ks[..|ks| - 1], xs[..|xs| - 1]) + Pops(ks[|ks| - 1], xs[|xs| - 1])
  }

  /** The integer the operand switch leaves behind; some operands leave the previous one. */
  function Ival(x: Operand, previous: int): int {
    match x
    case Byte(b) => b
    case Num(n) => n
    case Jump(n) => n
    case Attributes(n, _) => n
    case Jumps8(es) => if es == [] then previous else es[|es| - 1]
    case Jumps(es) => if es == [] then previous else es[|es| - 1]
    case _ => previous
  }

  /** The declared stack effect of an instruction. */
  function Effect(info: OpInfo, xs: seq<Operand>): int
    requires |info.args| == |xs|
  {
    if info.effect == POPN && xs != [] then
      Pops(info.args[0], xs[0]) - Ival(xs[0], 0) - SumPops(info.args, xs)
    else
      info.effect - SumPops(info.args, xs)
  }

  /** Operands already read, before what is still to be read. */
  function Prepend(xs: seq<Operand>, r: Option<(seq<Operand>, nat)>): Option<(seq<Operand>, nat)> {
    match r
    case None => None
    case Some((rest, end)) => Some((xs + rest, end))
  }

  lemma PrependNothing(r: Option<(seq<Operand>, nat)>)
    ensures Prepend([], r) == r
  {
    if r.Some? {
      assert [] + r.value.0 == r.value.0;
    }
  }

  lemma PrependStep(strs: seq<CString>, s: seq<byte>, pc: nat, ks: seq<Kind>, i: nat, xs: seq<Operand>)
    requires pc <= |s| && i < |ks|
    ensures Prepend(xs, ReadOperands(strs, s, pc, ks[i..]))
         == match ReadOperand(strs, s, pc, ks[i])
            case None => None
            case Some((x, next)) => Prepend(xs + [x], ReadOperands(strs, s, next, ks[i + 1..]))
  {
    hide ReadOperand;
    assert ks[i..][0] == ks[i] && ks[i..][1..] == ks[i + 1..];
    match ReadOperand(strs, s, pc, ks[i]) {
      case None =>
      case Some((x, next)) =>
        var r := ReadOperands(strs, s, next, ks[i + 1..]);
        if r.Some? {
          assert xs + ([x] + r.value.0) == xs + [x] + r.value.0;
        }
    }
  }

  /** decodeOperands: the operands, where they end, and the stack effect. */
  method DecodeOperands(strs: seq<CString>, s: seq<byte>, start: nat, info: OpInfo)
    returns (r: Option<(seq<Operand>, nat)>, stackEffect: int)
    requires start <= |s|
    ensures r == ReadOperands(strs, s, start, info.args)
    ensures r.Some? ==> |r.value.0| == |info.args| && stackEffect == Effect(info, r.value.0)
  {
    hide ReadOperand, ReadOperands, Effect, Pops, Ival;
    stackEffect := info.effect;
    var pc, ival, xs := start, 0, [];
    NoOperands(info);
    PrependNothing(ReadOperands(strs, s, start, info.args));
    assert info.args[0..] == info.args;
    for i := 0 to |info.args|
      invariant start <= pc <= |s| && |xs| == i
      invariant Prepend(xs, ReadOperands(strs, s, pc, info.args[i..])) == ReadOperands(strs, s, start, info.args)
      invariant i == 0 ==> ival == 0
      invariant stackEffect == Effect(OpInfo(info.effect, info.args[..i]), xs)
    {
      PrependStep(strs, s, pc, info.args, i, xs);
      match ReadOperand(strs, s, pc, info.args[i]) {
        case None =>
          r := None;
          return;
        case Some((x, next)) =>
          EffectStep(info, xs, i, x);
          stackEffect := stackEffect - Pops(info.args[i], x);
          ival := Ival(x, ival);
          if i == 0 && info.effect == POPN {
            stackEffect := -ival;
          }
          pc, xs := next, xs + [x];
      }
    }
    assert info.args[..|info.args|] == info.args && info.args[|info.args|..] == [];
    NoMoreOperands(strs, s, pc);
    r := Some((xs, pc));
  }

  lemma NoMoreOperands(strs: seq<CString>, s: seq<byte>, pc: nat)
    requires pc <= |s|
    ensures forall xs :: Prepend(xs, ReadOperands(strs, s, pc, [])) == Some((xs, pc))
  {
    forall xs: seq<Operand> ensures xs + [] == xs {
    }
  }

  lemma NoOperands(info: OpInfo)
    ensures Effect(OpInfo(info.effect, info.args[..0]), []) == info.effect
  {
  }

  lemma EffectStep(info: OpInfo, xs: seq<Operand>, i: nat, x: Operand)
    requires i < |info.args| && |xs| == i
    ensures var now := Effect(OpInfo(info.effect, info.args[..i + 1]), xs + [x]);
            if i == 0 && info.effect == POPN then now == -Ival(x, 0)
            else now == Effect(OpInfo(info.effect, info.args[..i]), xs) - Pops(info.args[i], x)
  {
    hide Pops, Ival;
    var ks, ys := info.args[..i + 1], xs + [x];
    assert ks[..|ks| - 1] == info.args[..i] && ys[..|ys| - 1] == xs;
    assert SumPops(ks, ys) == SumPops(info.args[..i], xs) + Pops(info.args[i], x);
  }

  // ------------------------------------------------------------- The listing

  datatype Line = Line(address: nat, depth: int, instr: Instr)
  datatype Status = Done | BadOpcode | Overran
  datatype Listing = Listing(lines: seq<Line>, status: Status)

  predicate IsReturn(opcode: int) {
    opcode == OP_RETURN || opcode == OP_RETURN_VALUE
  }

  function DepthStep(tab: Table, x: Instr, depth: int): int
    requires OfTable(tab, x)
  {
    if IsReturn(x.opcode) then 0 else depth + Effect(tab[x.opcode], x.operands)
  }

  function Listed(line: Line, rest: Listing): Listing {
    Listing([line] + rest.lines, rest.status)
  }

  /** What remains to be listed from `pos` on, the stack standing at `depth`. */
  function Sweep(tab: Table, strs: seq<CString>, s: seq<byte>, pos: nat, depth: int): Listing
    decreases |s| - pos
  {
    if pos >= |s| then Listing([], Done)
    else if s[pos] >= |tab| then Listing([], BadOpcode)
    else match ReadOperands(strs, s, pos + 1, tab[s[pos]].args)
         case None => Listing([], Overran)
         case Some((xs, next)) =>
           OperandCount(strs, s, pos + 1, tab[s[pos]].args);
           var x := Instr(s[pos], xs);
           Listed(Line(pos, depth, x), Sweep(tab, strs, s, next, DepthStep(tab, x, depth)))
  }

  lemma {:induction false} OperandCount(strs: seq<CString>, s: seq<byte>, pos: nat, ks: seq<Kind>)
    requires pos <= |s|
    ensures var r := ReadOperands(strs, s, pos, ks); r.Some? ==> |r.value.0| == |ks|
    decreases |ks|
  {
    hide ReadOperand;
    if ks != [] {
      match ReadOperand(strs, s, pos, ks[0])
      case None =>
      case Some((x, next)) => OperandCount(strs, s, next, ks[1..]);
    }
  }

  function Joined(lines: seq<Line>, rest: Listing): Listing {
    Listing(lines + rest.lines, rest.status)
  }

  lemma JoinedStep(lines: seq<Line>, line: Line, rest: Listing)
    ensures Joined(lines + [line], rest) == Joined(lines, Listed(line, rest))
  {
    assert lines + [line] + rest.lines == lines + ([line] + rest.lines);
  }

  lemma JoinedFront(line: Line, lines: seq<Line>, rest: Listing)
    ensures Joined([line] + lines, rest) == Listed(line, Joined(lines, rest))
  {
    assert [line] + lines + rest.lines == [line] + (lines + rest.lines);
  }

  /** interp: the sweep over the code of one function. */
  method Interp(tab: Table, strs: seq<CString>, s: seq<byte>) returns (listing: Listing)
    ensures listing == Sweep(tab, strs, s, 0, 0)
  {
    hide ReadOperands, Effect;
    var pc, stack := 0, 0;
    var lines: seq<Line> := [];
    assert lines + Sweep(tab, strs, s, 0, 0).lines == Sweep(tab, strs, s, 0, 0).lines;
    while pc < |s|
      invariant Sweep(tab, strs, s, 0, 0) == Joined(lines, Sweep(tab, strs, s, pc, stack))
      decreases |s| - pc
    {
      var opcode := s[pc];
      if opcode >= |tab| {
        return Listing(lines, BadOpcode);
      }
      var r, stackEffect := DecodeOperands(strs, s, pc + 1, tab[opcode]);
      match r {
        case None =>
          return Listing(lines, Overran);
        case Some((xs, next)) =>
          var line := Line(pc, stack, Instr(opcode, xs));
          JoinedStep(lines, line, Sweep(tab, strs, s, next, DepthStep(tab, line.instr, stack)));
          lines := lines + [line];
          stack := stack + stackEffect;
          if opcode == OP_RETURN_VALUE || opcode == OP_RETURN {
            stack := 0;
          }
          pc := next;
      }
    }
    listing := Listing(lines, Done);
  }

  // -------------------------------------------------------------- Round trip

  function DepthAfter(tab: Table, xs: seq<Instr>, depth: int): int
    requires Shaped(tab, xs)
  {
    if xs == [] then depth
    else
      var last := |xs| - 1;
      DepthStep(tab, xs[last], DepthAfter(tab, xs[..last], depth))
  }

  /** The listing of emitted code: every instruction at its address and depth. */
  function Lines(tab: Table, strs: seq<CString>, xs: seq<Instr>, address: nat, depth: int): seq<Line>
    requires Small(strs) && CodeFits(tab, strs, xs)
  {
    if xs == [] then []
    else [Line(address, depth, xs[0])]
         + Lines(tab, strs, xs[1..], address + |InstrBytes(tab, strs, xs[0])|, DepthStep(tab, xs[0], depth))
  }

  lemma {:induction false} DepthFromFront(tab: Table, xs: seq<Instr>, depth: int)
    requires Shaped(tab, xs) && xs != []
    ensures DepthAfter(tab, xs, depth) == DepthAfter(tab, xs[1..], DepthStep(tab, xs[0], depth))
    decreases |xs|
  {
    hide DepthStep, OfTable;
    var last := |xs| - 1;
    if last > 0 {
      DepthFromFront(tab, xs[..last], depth);
      assert xs[..last][1..] == xs[1..][..last - 1];
    } else {
      assert xs[..last] == [] && xs[1..] == [];
    }
  }

  lemma InstrInverts(tab: Table, strs: seq<CString>, s: seq<byte>, pos: nat, x: Instr)
    requires Small(strs) && InstrFits(tab, strs, x) && At(s, pos, InstrBytes(tab, strs, x))
    ensures pos < |s| && s[pos] == x.opcode
    ensures ReadOperands(strs, s, pos + 1, tab[x.opcode].args)
         == Some((x.operands, pos + |InstrBytes(tab, strs, x)|))
  {
    hide ReadOperands, OperandsBytes;
    var operands := OperandsBytes(strs, tab[x.opcode].args, x.operands);
    AtConcat(s, pos, [x.opcode], operands);
    AtIndex(s, pos, [x.opcode], 0);
    ReadOperandsInvert(strs, s, pos + 1, tab[x.opcode].args, x.operands);
  }

  lemma SweepInstr(tab: Table, strs: seq<CString>, s: seq<byte>, pos: nat, x: Instr, depth: int)
    requires Small(strs) && InstrFits(tab, strs, x) && At(s, pos, InstrBytes(tab, strs, x))
    ensures Sweep(tab, strs, s, pos, depth)
         == Listed(Line(pos, depth, x),
                   Sweep(tab, strs, s, pos + |InstrBytes(tab, strs, x)|, DepthStep(tab, x, depth)))
  {
    hide ReadOperands, InstrBytes, DepthStep;
    InstrInverts(tab, strs, s, pos, x);
  }

  /**
   Sweeping emitted code lists exactly its instructions, each at its address and
   with its stack depth, and then goes on behind the code at the depth it leaves.
   */
  lemma {:induction false} SweepInverts(tab: Table, strs: seq<CString>, s: seq<byte>, pos: nat, xs: seq<Instr>, depth: int)
    requires Small(strs) && CodeFits(tab, strs, xs) && At(s, pos, CodeBytes(tab, strs, xs))
    ensures var rest := Sweep(tab, strs, s, pos + |CodeBytes(tab, strs, xs)|, DepthAfter(tab, xs, depth));
            Sweep(tab, strs, s, pos, depth) == Joined(Lines(tab, strs, xs, pos, depth), rest)
    decreases |xs|
  {
    hide Sweep, InstrBytes, DepthStep, OperandFits;
    if xs != [] {
      AtConcat(s, pos, InstrBytes(tab, strs, xs[0]), CodeBytes(tab, strs, xs[1..]));
      SweepInstr(tab, strs, s, pos, xs[0], depth);
      DepthFromFront(tab, xs, depth);
      var next, after := pos + |InstrBytes(tab, strs, xs[0])|, DepthStep(tab, xs[0], depth);
      SweepInverts(tab, strs, s, next, xs[1..], after);
      var end := pos + |CodeBytes(tab, strs, xs)|;
      JoinedFront(Line(pos, depth, xs[0]), Lines(tab, strs, xs[1..], next, after),
                  Sweep(tab, strs, s, end, DepthAfter(tab, xs, depth)));
    }
  }

  /** Listing a whole function: all instructions, to the last byte, without an error. */
  lemma CodeRoundTrip(tab: Table, strs: seq<CString>, xs: seq<Instr>)
    requires Small(strs) && CodeFits(tab, strs, xs)
    ensures Sweep(tab, strs, CodeBytes(tab, strs, xs), 0, 0) == Listing(Lines(tab, strs, xs, 0, 0), Done)
  {
    hide CodeBytes, Lines;
    var code := CodeBytes(tab, strs, xs);
    assert code[0..|code|] == code;
    SweepInverts(tab, strs, code, 0, xs, 0);
    var lines := Lines(tab, strs, xs, 0, 0);
    assert lines + [] == lines;
  }

  // ------------------------------------------------- Addresses and the depth column

  lemma {:induction false} CodeConcat(tab: Table, strs: seq<CString>, xs: seq<Instr>, ys: seq<Instr>)
    requires Small(strs) && CodeFits(tab, strs, xs) && CodeFits(tab, strs, ys)
    ensures CodeFits(tab, strs, xs + ys)
    ensures CodeBytes(tab, strs, xs + ys) == CodeBytes(tab, strs, xs) + CodeBytes(tab, strs, ys)
    decreases |xs|
  {
    hide InstrBytes, InstrFits;
    if xs == [] {
      assert xs + ys == ys;
    } else {
      assert (xs + ys)[1..] == xs[1..] + ys;
      CodeConcat(tab, strs, xs[1..], ys);
    }
  }

  /** Code for xs then ys is listed as xs, then ys shifted by the code and depth of xs. */
  lemma {:induction false} LinesConcat(tab: Table, strs: seq<CString>, xs: seq<Instr>, ys: seq<Instr>,
                                       address: nat, depth: int)
    requires Small(strs) && CodeFits(tab, strs, xs) && CodeFits(tab, strs, ys)
    ensures CodeFits(tab, strs, xs + ys)
    ensures Lines(tab, strs, xs + ys, address, depth)
         == Lines(tab, strs, xs, address, depth)
            + Lines(tab, strs, ys, address + |CodeBytes(tab, strs, xs)|, DepthAfter(tab, xs, depth))
    decreases |xs|
  {
    hide InstrBytes, InstrFits, OfTable, DepthStep;
    if xs == [] {
      assert xs + ys == ys;
    } else {
      assert (xs + ys)[1..] == xs[1..] + ys && (xs + ys)[0] == xs[0];
      DepthFromFront(tab, xs, depth);
      var next, after := address + |InstrBytes(tab, strs, xs[0])|, DepthStep(tab, xs[0], depth);
      LinesConcat(tab, strs, xs[1..], ys, next, after);
      var first, rest := [Line(address, depth, xs[0])], Lines(tab, strs, xs[1..], next, after);
      var more := Lines(tab, strs, ys, next + |CodeBytes(tab, strs, xs[1..])|, DepthAfter(tab, xs[1..], after));
      assert first + rest + more == first + (rest + more);
    }
  }

  /** One line an instruction, at the length of the code before it. */
  lemma LineAt(tab: Table, strs: seq<CString>, xs: seq<Instr>, address: nat, depth: int, k: nat)
    requires Small(strs) && CodeFits(tab, strs, xs) && k < |xs|
    ensures k < |Lines(tab, strs, xs, address, depth)|
    ensures Lines(tab, strs, xs, address, depth)[k]
         == Line(address + |CodeBytes(tab, strs, xs[..k])|, DepthAfter(tab, xs[..k], depth), xs[k])
  {
    hide InstrBytes, InstrFits, DepthStep, CodeBytes;
    assert xs == xs[..k] + xs[k..];
    LinesConcat(tab, strs, xs[..k], xs[k..], address, depth);
    LinesCount(tab, strs, xs[..k], address, depth);
  }

  lemma {:induction false} LinesCount(tab: Table, strs: seq<CString>, xs: seq<Instr>, address: nat, depth: int)
    requires Small(strs) && CodeFits(tab, strs, xs)
    ensures |Lines(tab, strs, xs, address, depth)| == |xs|
    decreases |xs|
  {
    hide InstrBytes, OperandFits, DepthStep;
    if xs != [] {
      LinesCount(tab, strs, xs[1..], address + |InstrBytes(tab, strs, xs[0])|, DepthStep(tab, xs[0], depth));
    }
  }

  /** Where counting starts for instruction k: behind the last return before it. */
  function LastReset(xs: seq<Instr>, k: nat): (r: nat)
    requires k <= |xs|
    ensures r <= k
  {
    if k == 0 then 0 else if IsReturn(xs[k - 1].opcode) then k else LastReset(xs, k - 1)
  }

  function SumEffects(tab: Table, xs: seq<Instr>): int
    requires Shaped(tab, xs)
  {
    if xs == [] then 0
    else
      var last := |xs| - 1;
      SumEffects(tab, xs[..last]) + Effect(tab[xs[last].opcode], xs[last].operands)
  }

  lemma {:induction false} DepthIsSum(tab: Table, xs: seq<Instr>, k: nat)
    requires Shaped(tab, xs) && k <= |xs|
    ensures DepthAfter(tab, xs[..k], 0) == SumEffects(tab, xs[LastReset(xs, k)..k])
    decreases k
  {
    hide Effect;
    if k > 0 {
      assert xs[..k][..k - 1] == xs[..k - 1];
      DepthIsSum(tab, xs, k - 1);
      var r := LastReset(xs, k);
      if !IsReturn(xs[k - 1].opcode) {
        assert xs[r..k][..k - r - 1] == xs[r..k - 1];
      }
    }
  }

  function Instrs(lines: seq<Line>): (xs: seq<Instr>)
    ensures |xs| == |lines|
  {
    if lines == [] then [] else [lines[0].instr] + Instrs(lines[1..])
  }

  /** The sweep of any bytes lists instructions of the table, at the depths of a run of their effects. */
  lemma {:induction false} SweepDepths(tab: Table, strs: seq<CString>, s: seq<byte>, pos: nat, depth: int, k: nat)
    ensures var lines := Sweep(tab, strs, s, pos, depth).lines;
      && Shaped(tab, Instrs(lines))
      && (k < |lines| ==> lines[k].depth == DepthAfter(tab, Instrs(lines)[..k], depth))
    decreases |s| - pos
  {
    hide ReadOperands, DepthStep;
    var all := Sweep(tab, strs, s, pos, depth);
    if all.lines != [] {
      OperandCount(strs, s, pos + 1, tab[s[pos]].args);
      var x, next := all.lines[0].instr, ReadOperands(strs, s, pos + 1, tab[s[pos]].args).value.1;
      var rest := Sweep(tab, strs, s, next, DepthStep(tab, x, depth));
      assert all == Listed(Line(pos, depth, x), rest);
      assert all.lines[1..] == rest.lines && Instrs(all.lines) == [x] + Instrs(rest.lines);
      SweepDepths(tab, strs, s, next, DepthStep(tab, x, depth), if k > 0 then k - 1 else 0);
      if k < |all.lines| {
        DepthsTail(tab, x, Instrs(rest.lines), depth, k);
      }
    }
  }

  lemma DepthsTail(tab: Table, x: Instr, xs: seq<Instr>, depth: int, k: nat)
    requires OfTable(tab, x) && Shaped(tab, xs) && k <= |xs|
    ensures DepthAfter(tab, ([x] + xs)[..k], depth)
         == if k == 0 then depth else DepthAfter(tab, xs[..k - 1], DepthStep(tab, x, depth))
  {
    if k > 0 {
      assert ([x] + xs)[..k][1..] == xs[..k - 1];
      DepthFromFront(tab, ([x] + xs)[..k], depth);
    }
  }

  /** In the listing of any bytes, the depth shown is the sum of the declared effects since the last return. */
  lemma DepthColumn(tab: Table, strs: seq<CString>, s: seq<byte>, k: nat)
    requires k < |Sweep(tab, strs, s, 0, 0).lines|
    ensures var lines := Sweep(tab, strs, s, 0, 0).lines;
      && Shaped(tab, Instrs(lines))
      && lines[k].depth == SumEffects(tab, Instrs(lines)[LastReset(Instrs(lines), k)..k])
  {
    hide Sweep;
    SweepDepths(tab, strs, s, 0, 0, k);
    DepthIsSum(tab, Instrs(Sweep(tab, strs, s, 0, 0).lines), k);
  }

  /** The depth code leaves depends on the depth it started from only if it never returns. */
  lemma {:induction false} DepthShift(tab: Table, xs: seq<Instr>, depth: int)
    requires Shaped(tab, xs)
    ensures DepthAfter(tab, xs, depth) - DepthAfter(tab, xs, 0)
         == if exists i :: 0 <= i < |xs| && IsReturn(xs[i].opcode) then 0 else depth
    decreases |xs|
  {
    hide Effect;
    if xs != [] {
      var last := |xs| - 1;
      DepthShift(tab, xs[..last], depth);
      assert forall i :: 0 <= i < last ==> xs[..last][i] == xs[i];
    }
  }

  // ----------------------------------------------------------- The real table

  /** ejsOptable, read as a table of this module. */
  lemma OptableFacts()
    ensures |OPTABLE| == 208
    ensures OPTABLE[OP_RETURN] == OpInfo(0, []) && OPTABLE[OP_RETURN_VALUE] == OpInfo(-1, [])
    ensures OPTABLE[OP_POP_ITEMS] == OpInfo(POPN, [BYTE])
  {
    assert OPTABLE[OP_POP_ITEMS].args == [BYTE];
  }

  /** The round trip for the real instruction set, whose every opcode ecEncodeOpcode accepts. */
  lemma OptableRoundTrip(strs: seq<CString>, xs: seq<Instr>)
    requires Small(strs)
    requires forall i :: 0 <= i < |xs| ==>
               xs[i].opcode < |OPTABLE| && OperandsFit(strs, OPTABLE[xs[i].opcode].args, xs[i].operands)
    ensures CodeFits(OPTABLE, strs, xs)
    ensures Sweep(OPTABLE, strs, CodeBytes(OPTABLE, strs, xs), 0, 0) == Listing(Lines(OPTABLE, strs, xs, 0, 0), Done)
  {
    OptableFacts();
    CodeRoundTrip(OPTABLE, strs, xs);
  }
}

/**
 The listing of any bytes, line by line, in numbers: where each line stands, how
 it follows from the line before, and what each instruction does to the depth
 (interp and decodeOperands in src/cmd/listing.c).
 */
module StackDepth {
  import opened Bytes
  import opened NumberCodec
  import opened ConstantPool
  import opened GlobalRef
  import opened OpTable
  import opened ByteCode

  /** Operands that count what an instruction takes from the stack. */
  predicate Counts(k: Kind) {
    k == ARGC || k == ARGC2 || k == ARGC3 || k == NEW_ARRAY || k == NEW_OBJECT
  }

  /** Operand j is the only one that counts. */
  predicate OnlyCount(ks: seq<Kind>, j: nat) {
    j < |ks| && Counts(ks[j]) && forall i :: 0 <= i < |ks| && Counts(ks[i]) ==> i == j
  }

  predicate NoCount(ks: seq<Kind>) {
    forall i :: 0 <= i < |ks| ==> !Counts(ks[i])
  }

  /** What an operand of this kind looks like, as read from any bytes. */
  predicate Typed(k: Kind, x: Operand) {
    match k
    case BYTE => x.Byte?
    case NEW_OBJECT => x.Attributes? && |x.attributes| == if x.argc < 0 then 0 else x.argc
    case _ => Counts(k) ==> x.Num?
  }

  lemma {:induction false} OperandsTyped(strs: seq<CString>, s: seq<byte>, pos: nat, ks: seq<Kind>)
    requires pos <= |s| && ReadOperands(strs, s, pos, ks).Some?
    ensures var xs := ReadOperands(strs, s, pos, ks).value.0;
            |xs| == |ks| && forall i :: 0 <= i < |ks| ==> Typed(ks[i], xs[i])
    decreases |ks|
  {
    hide ReadOperand, Typed;
    if ks != [] {
      OperandTyped(strs, s, pos, ks[0]);
      OperandsTyped(strs, s, ReadOperand(strs, s, pos, ks[0]).value.1, ks[1..]);
    }
  }

  lemma OperandTyped(strs: seq<CString>, s: seq<byte>, pos: nat, k: Kind)
    requires pos <= |s|
    ensures var r := ReadOperand(strs, s, pos, k); r.Some? ==> Typed(k, r.value.0)
  {
  }

  /** A string operand is the string of its index, or noted as missing; the listing goes on behind it. */
  lemma StringOperand(strs: seq<CString>, s: seq<byte>, pos: nat)
    requires pos <= |s|
    ensures ReadOperand(strs, s, pos, STRING).Some? <==> ReadInt(s, pos, false).Some?
    ensures ReadInt(s, pos, false).Some? ==>
      var i, next := ReadInt(s, pos, false).value.0, ReadInt(s, pos, false).value.1;
      ReadOperand(strs, s, pos, STRING) == Some((if 0 <= i < |strs| then Str(strs[i]) else Missing, next))
  {
    hide ReadInt;
  }

  /**
   A reference operand by its number t: with low bits 0 nothing, 2 the slot t / 4,
   1 the string t / 4 in the space of the number behind it; all else is missing.
   */
  lemma GlobalOperand(strs: seq<CString>, s: seq<byte>, pos: nat)
    requires pos <= |s| && ReadInt(s, pos, false).Some?
    ensures var t, next := ReadInt(s, pos, false).value.0, ReadInt(s, pos, false).value.1;
      var r := ReadOperand(strs, s, pos, GLOBAL);
      if t < 0 || t % 4 == 3 || (t % 4 == 1 && t / 4 >= |strs|) then r == Some((Missing, next))
      else if t % 4 == 0 then r == Some((Global(NoRef), next))
      else if t % 4 == 2 then r == Some((Global(SlotRef(t / 4)), next))
      else match ReadInt(s, next, false)
           case None => r == None
           case Some((u, end)) =>
             r == Some((if 0 <= u < |strs| then Global(NameRef(Name(strs[t / 4], strs[u]))) else Missing, end))
  {
    hide ReadInt;
  }

  // ------------------------------------------------------------------ The lines

  /** A line shows the instruction that stands at its address and ends at `end`. */
  ghost predicate Shows(tab: Table, strs: seq<CString>, s: seq<byte>, line: Line, end: nat) {
    && line.address < |s| && s[line.address] == line.instr.opcode < |tab|
    && ReadOperands(strs, s, line.address + 1, tab[line.instr.opcode].args) == Some((line.instr.operands, end))
  }

  /** Where the listing stops, and why: at the end, at a byte that is no opcode, or where operands are cut off. */
  ghost predicate StopsAt(tab: Table, strs: seq<CString>, s: seq<byte>, end: nat, status: Status) {
    match status
    case Done => end >= |s|
    case BadOpcode => end < |s| && s[end] >= |tab|
    case Overran =>
      end < |s| && s[end] < |tab| && ReadOperands(strs, s, end + 1, tab[s[end]].args) == None
  }

  /** Lines that follow one another from `pos` and `depth` on, `ends` being where each ends. */
  ghost predicate Follow(tab: Table, strs: seq<CString>, s: seq<byte>, pos: nat, depth: int, lines: seq<Line>,
                         ends: seq<nat>) {
    && |ends| == |lines|
    && (lines != [] ==> lines[0].address == pos && lines[0].depth == depth)
    && (forall k :: 0 <= k < |lines| ==> Shows(tab, strs, s, lines[k], ends[k]))
    && (forall k :: 0 < k < |lines| ==> lines[k].address == ends[k - 1])
  }

  /** Any listing: instruction behind instruction, until it stops for the reason it states. */
  lemma {:induction false} LinesFollow(tab: Table, strs: seq<CString>, s: seq<byte>, pos: nat, depth: int)
      returns (ends: seq<nat>)
    ensures var listing := Sweep(tab, strs, s, pos, depth);
      && Follow(tab, strs, s, pos, depth, listing.lines, ends)
      && StopsAt(tab, strs, s, if ends == [] then pos else ends[|ends| - 1], listing.status)
    decreases |s| - pos
  {
    hide ReadOperands, DepthStep, Follow;
    ends := [];
    NothingFollows(tab, strs, s, pos, depth);
    if pos < |s| && s[pos] < |tab| {
      match ReadOperands(strs, s, pos + 1, tab[s[pos]].args) {
        case None =>
        case Some((xs, next)) =>
          OperandCount(strs, s, pos + 1, tab[s[pos]].args);
          var x := Instr(s[pos], xs);
          var more := LinesFollow(tab, strs, s, next, DepthStep(tab, x, depth));
          ends := [next] + more;
          var rest := Sweep(tab, strs, s, next, DepthStep(tab, x, depth));
          var all := Sweep(tab, strs, s, pos, depth);
          assert all == Listed(Line(pos, depth, x), rest);
          FollowMore(tab, strs, s, Line(pos, depth, x), next, DepthStep(tab, x, depth), rest.lines, more);
      }
    }
  }

  lemma NothingFollows(tab: Table, strs: seq<CString>, s: seq<byte>, pos: nat, depth: int)
    ensures Follow(tab, strs, s, pos, depth, [], [])
  {
  }

  lemma FollowMore(tab: Table, strs: seq<CString>, s: seq<byte>, line: Line, next: nat, depth: int, lines: seq<Line>,
                   ends: seq<nat>)
    requires Shows(tab, strs, s, line, next) && Follow(tab, strs, s, next, depth, lines, ends)
    ensures Follow(tab, strs, s, line.address, line.depth, [line] + lines, [next] + ends)
  {
    hide Shows;
  }

  // ------------------------------------------------------------------ The depth

  /** What one line does to the depth, by the kind of its instruction. */
  ghost predicate Moves(info: OpInfo, xs: seq<Operand>, change: int) {
    && |xs| == |info.args|
    && (info.effect != POPN && NoCount(info.args) ==> change == info.effect)
    && (info.effect == POPN && info.args == [BYTE] ==> xs[0].Byte? && change == 0 - xs[0].b)
    && (forall j: nat :: info.effect != POPN && OnlyCount(info.args, j) ==> Takes(info.args[j], xs[j], info.effect - change))
  }

  /** How many items an operand says are taken beyond what the table says. */
  predicate Takes(k: Kind, x: Operand, items: int) {
    match k
    case ARGC => x.Num? && items == x.n
    case ARGC2 => x.Num? && items == 2 * x.n
    case NEW_ARRAY => x.Num? && items == 2 * x.n
    case ARGC3 => x.Num? && items == 3 * x.n
    case _ => x.Attributes? && items == 3 * x.argc
  }

  lemma {:induction false} SumOfNone(ks: seq<Kind>, xs: seq<Operand>)
    requires |ks| == |xs| && NoCount(ks)
    ensures SumPops(ks, xs) == 0
    decreases |ks|
  {
    if ks != [] {
      SumOfNone(ks[..|ks| - 1], xs[..|xs| - 1]);
    }
  }

  lemma {:induction false} SumOfOne(ks: seq<Kind>, xs: seq<Operand>, j: nat)
    requires |ks| == |xs| && OnlyCount(ks, j)
    ensures SumPops(ks, xs) == Pops(ks[j], xs[j])
    decreases |ks|
  {
    hide Pops;
    var last := |ks| - 1;
    if j < last {
      SumOfOne(ks[..last], xs[..last], j);
      PopsNone(ks[last], xs[last]);
    } else {
      SumOfNone(ks[..last], xs[..last]);
    }
  }

  lemma PopsNone(k: Kind, x: Operand)
    requires !Counts(k)
    ensures Pops(k, x) == 0
  {
  }

  lemma PopsTakes(k: Kind, x: Operand)
    requires Counts(k) && Typed(k, x)
    ensures Takes(k, x, Pops(k, x))
  {
  }

  lemma EffectMoves(info: OpInfo, xs: seq<Operand>)
    requires |xs| == |info.args| && forall i :: 0 <= i < |xs| ==> Typed(info.args[i], xs[i])
    ensures Moves(info, xs, Effect(info, xs))
  {
    hide SumPops, Counts, Takes, Pops;
    if NoCount(info.args) {
      SumOfNone(info.args, xs);
    }
    if info.args == [BYTE] {
      ByteCounts();
      SumOfNone(info.args, xs);
      PopsNone(BYTE, xs[0]);
      assert Typed(info.args[0], xs[0]);
    }
    forall j: nat | OnlyCount(info.args, j) ensures Takes(info.args[j], xs[j], SumPops(info.args, xs)) {
      SumOfOne(info.args, xs, j);
      PopsTakes(info.args[j], xs[j]);
    }
  }

  lemma ByteCounts()
    ensures NoCount([BYTE])
  {
  }

  /**
   From one line to the next, in the listing of any bytes: behind a return the
   depth is 0, else it moves by the table value and the counts of the operands.
   */
  lemma {:induction false} NextDepth(tab: Table, strs: seq<CString>, s: seq<byte>, pos: nat, depth: int, k: nat)
    requires k + 1 < |Sweep(tab, strs, s, pos, depth).lines|
    ensures var line, next := Sweep(tab, strs, s, pos, depth).lines[k], Sweep(tab, strs, s, pos, depth).lines[k + 1];
      && line.instr.opcode < |tab|
      && (if line.instr.opcode == OP_RETURN || line.instr.opcode == OP_RETURN_VALUE then next.depth == 0
          else Moves(tab[line.instr.opcode], line.instr.operands, next.depth - line.depth))
    decreases k
  {
    hide ReadOperands, Moves, Effect;
    OperandCount(strs, s, pos + 1, tab[s[pos]].args);
    var info, r := tab[s[pos]], ReadOperands(strs, s, pos + 1, tab[s[pos]].args).value;
    var x, next := Instr(s[pos], r.0), r.1;
    var rest := Sweep(tab, strs, s, next, DepthStep(tab, x, depth));
    assert Sweep(tab, strs, s, pos, depth) == Listed(Line(pos, depth, x), rest);
    if k > 0 {
      NextDepth(tab, strs, s, next, DepthStep(tab, x, depth), k - 1);
    } else {
      OperandsTyped(strs, s, pos + 1, info.args);
      EffectMoves(info, r.0);
      LinesFirst(tab, strs, s, next, DepthStep(tab, x, depth));
    }
  }

  lemma LinesFirst(tab: Table, strs: seq<CString>, s: seq<byte>, pos: nat, depth: int)
    ensures var lines := Sweep(tab, strs, s, pos, depth).lines; lines != [] ==> lines[0].depth == depth
  {
    hide ReadOperands;
  }

  // --------------------------------------------------------------- The real table

  /** In ejsOptable only the last operand counts, and only POP_ITEMS pops what its byte says. */
  predicate OneCount(info: OpInfo) {
    if info.effect == POPN then info.args == [BYTE]
    else forall i :: 0 <= i < |info.args| && Counts(info.args[i]) ==> i == |info.args| - 1
  }

  predicate OneCountIn(infos: seq<OpInfo>) {
    forall i :: 0 <= i < |infos| ==> OneCount(infos[i])
  }

  lemma OneCount000()
    ensures OneCountIn(OPS_000)
  {
  }

  lemma OneCount016()
    ensures OneCountIn(OPS_016)
  {
  }

  lemma OneCount032()
    ensures OneCountIn(OPS_032)
  {
  }

  lemma OneCount048()
    ensures OneCountIn(OPS_048)
  {
  }

  lemma OneCount064()
    ensures OneCountIn(OPS_064)
  {
  }

  lemma OneCount080()
    ensures OneCountIn(OPS_080)
  {
  }

  lemma OneCount096()
    ensures OneCountIn(OPS_096)
  {
  }

  lemma OneCount112()
    ensures OneCountIn(OPS_112)
  {
  }

  lemma OneCount128()
    ensures OneCountIn(OPS_128)
  {
  }

  lemma OneCount144()
    ensures OneCountIn(OPS_144)
  {
  }

  lemma OneCount160()
    ensures OneCountIn(OPS_160)
  {
  }

  lemma OneCount176()
    ensures OneCountIn(OPS_176)
  {
  }

  lemma OneCount192()
    ensures OneCountIn(OPS_192)
  {
  }

  lemma OneCountConcat(a: seq<OpInfo>, b: seq<OpInfo>)
    requires OneCountIn(a) && OneCountIn(b)
    ensures OneCountIn(a + b)
  {
    hide OneCount;
  }

  /** Every instruction of ejsOptable moves the depth by the table value less one count, or by its byte. */
  lemma OptableCounts()
    ensures |OPTABLE| == 208 && OneCountIn(OPTABLE)
  {
    hide OneCountIn;
    OneCount000();
    OneCount016();
    OneCount032();
    OneCount048();
    OneCount064();
    OneCount080();
    OneCount096();
    OneCount112();
    OneCount128();
    OneCount144();
    OneCount160();
    OneCount176();
    OneCount192();
    var infos := OPS_000;
    OneCountConcat(infos, OPS_016);
    infos := infos + OPS_016;
    OneCountConcat(infos, OPS_032);
    infos := infos + OPS_032;
    OneCountConcat(infos, OPS_048);
    infos := infos + OPS_048;
    OneCountConcat(infos, OPS_064);
    infos := infos + OPS_064;
    OneCountConcat(infos, OPS_080);
    infos := infos + OPS_080;
    OneCountConcat(infos, OPS_096);
    infos := infos + OPS_096;
    OneCountConcat(infos, OPS_112);
    infos := infos + OPS_112;
    OneCountConcat(infos, OPS_128);
    infos := infos + OPS_128;
    OneCountConcat(infos, OPS_144);
    infos := infos + OPS_144;
    OneCountConcat(infos, OPS_160);
    infos := infos + OPS_160;
    OneCountConcat(infos, OPS_176);
    infos := infos + OPS_176;
    OneCountConcat(infos, OPS_192);
    infos := infos + OPS_192;
  }

  /** Exactly what such an instruction does to the depth. */
  predicate MovesBy(info: OpInfo, xs: seq<Operand>, change: int) {
    && |xs| == |info.args|
    && if info.effect == POPN then |xs| == 1 && xs[0].Byte? && change == 0 - xs[0].b
       else if xs != [] && Counts(info.args[|xs| - 1]) then Takes(info.args[|xs| - 1], xs[|xs| - 1], info.effect - change)
       else change == info.effect
  }

  lemma MovesExactly(info: OpInfo, xs: seq<Operand>, change: int)
    requires Moves(info, xs, change) && OneCount(info)
    ensures MovesBy(info, xs, change)
  {
    hide Takes, Counts;
    if info.effect != POPN && xs != [] && Counts(info.args[|xs| - 1]) {
      assert OnlyCount(info.args, |xs| - 1);
    }
  }

  /** Line by line: each instruction moves the depth by exactly what table and operands say. */
  lemma TableDepth(tab: Table, strs: seq<CString>, s: seq<byte>, k: nat)
    requires OneCountIn(tab) && k + 1 < |Sweep(tab, strs, s, 0, 0).lines|
    ensures var line, next := Sweep(tab, strs, s, 0, 0).lines[k], Sweep(tab, strs, s, 0, 0).lines[k + 1];
      && line.instr.opcode < |tab|
      && if line.instr.opcode == OP_RETURN || line.instr.opcode == OP_RETURN_VALUE then next.depth == 0
         else MovesBy(tab[line.instr.opcode], line.instr.operands, next.depth - line.depth)
  {
    hide Sweep, Moves, MovesBy, OneCount;
    NextDepth(tab, strs, s, 0, 0, k);
    var line, next := Sweep(tab, strs, s, 0, 0).lines[k], Sweep(tab, strs, s, 0, 0).lines[k + 1];
    if line.instr.opcode != OP_RETURN && line.instr.opcode != OP_RETURN_VALUE {
      MovesExactly(tab[line.instr.opcode], line.instr.operands, next.depth - line.depth);
    }
  }
}

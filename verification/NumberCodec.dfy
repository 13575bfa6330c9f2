/**
 The variable-length numbers of module files and byte code
 (src/vm/ejsModule.c): a sign bit and six payload bits in the first byte, seven
 payload bits in each later one, and 0x80 as the continuation bit.

 The encoder takes an int64. There are two decoders. `ejsDecodeNum` reads memory
 and shifts each group as a 32-bit unsigned value; `ejsModuleReadNum` reads a
 file and shifts each group as a 32-bit signed value. Both therefore lose the
 bits of a group that fall beyond bit 31, and a shift by 32 or more has no
 defined result in C, so the decoders invert the encoder on a smaller range
 than the encoder accepts. The exact ranges are proved below.
 */
module NumberCodec {
  import opened Bytes

  const ENCODE_MAX_WORD: int := 0x07FF_FFFF
  /** Room ecEncodeNum reserves before encoding: sizeof(int64) + 2. */
  const NUM_ROOM: nat := 10

  // ------------------------------------------------------------- Encoding

  /** The bytes still to emit: the pending seven bits `first`, then `rest`. */
  function Groups(first: int, rest: nat): (code: seq<byte>)
    requires 0 <= first < 128
    ensures |code| >= 1
    decreases rest
  {
    if rest == 0 then [first] else [first + 128] + Groups(rest % 128, rest / 128)
  }

  function FirstGroup(n: int): (g: int)
    ensures 0 <= g < 128
  {
    2 * (Abs(n) % 64) + if n < 0 then 1 else 0
  }

  function EncodeNum(n: int): (code: seq<byte>)
    ensures |code| >= 1
  {
    Groups(FirstGroup(n), Abs(n) / 64)
  }

  function Pow128(k: nat): (p: nat)
    ensures p >= 1
  {
    if k == 0 then 1 else 128 * Pow128(k - 1)
  }

  lemma {:induction false} GroupsLength(first: int, rest: nat, k: nat)
    requires 0 <= first < 128
    ensures |Groups(first, rest)| <= k + 1 <==> rest < Pow128(k)
    decreases k
  {
    if k > 0 && rest > 0 {
      GroupsLength(rest % 128, rest / 128, k - 1);
    }
  }

  /** The ten bytes that are reserved suffice for every int64, and are needed from 2^62 on. */
  lemma EncodedLength(n: int64)
    ensures |EncodeNum(n)| <= NUM_ROOM
    ensures |EncodeNum(n)| == NUM_ROOM <==> Abs(n) >= 0x4000_0000_0000_0000
  {
    GroupsLength(FirstGroup(n), Abs(n) / 64, 9);
    GroupsLength(FirstGroup(n), Abs(n) / 64, 8);
    assert Pow128(8) == 0x100_0000_0000_0000 && Pow128(9) == 0x8000_0000_0000_0000;
  }

  /** A number fits the four bytes of a patched word exactly up to EJS_ENCODE_MAX_WORD. */
  lemma WordLength(n: int)
    ensures |EncodeNum(n)| <= 4 <==> Abs(n) <= ENCODE_MAX_WORD
  {
    GroupsLength(FirstGroup(n), Abs(n) / 64, 3);
    assert Pow128(3) == 0x20_0000;
  }

  lemma GroupsHead(code: seq<byte>, k: nat, first: int, rest: nat)
    requires 0 <= first < 128 && k <= |code| && code[k..] == Groups(first, rest)
    ensures k < |code| && code[k] == if rest == 0 then first else first + 128
    ensures rest == 0 ==> k + 1 == |code|
    ensures rest > 0 ==> k + 1 < |code| && code[k + 1..] == Groups(rest % 128, rest / 128)
  {
    assert code[k] == code[k..][0] && code[k + 1..] == code[k..][1..];
  }

  /** ejsEncodeNum: writes at `pos`, where there is room, and touches nothing else. */
  method EjsEncodeNum(buf: array<byte>, pos: nat, number: int64) returns (len: nat)
    requires pos + |EncodeNum(number)| <= buf.Length
    modifies buf
    ensures len == |EncodeNum(number)| && len <= NUM_ROOM
    ensures buf[pos..pos + len] == EncodeNum(number)
    ensures forall i :: 0 <= i < buf.Length && !(pos <= i < pos + len) ==> buf[i] == old(buf[i])
  {
    EncodedLength(number);
    var unumber: nat := Abs(number);
    var encoded := FirstGroup(number);
    unumber := unumber / 64;
    var end := pos;
    ghost var code := EncodeNum(number);
    hide Groups, EncodeNum;
    while unumber != 0
      invariant 0 <= encoded < 128 && pos <= end < pos + |code|
      invariant code[end - pos..] == Groups(encoded, unumber)
      invariant forall i :: pos <= i < end ==> buf[i] == code[i - pos]
      invariant forall i :: 0 <= i < buf.Length && !(pos <= i < end) ==> buf[i] == old(buf[i])
    {
      GroupsHead(code, end - pos, encoded, unumber);
      buf[end] := encoded + 128;
      end := end + 1;
      encoded := unumber % 128;
      unumber := unumber / 128;
    }
    GroupsHead(code, end - pos, encoded, unumber);
    buf[end] := encoded;
    end := end + 1;
    len := end - pos;
  }

  // ------------------------------------------------------------- Decoding

  /** Overrun: a byte was wanted beyond the end. Undefined: a shift by 32 or more. */
  datatype Decoded = Overrun | Undefined | Num(value: int, next: nat)

  /** `(c & 0x7f) << shift` at 32 bits, where mult is two to the shift. */
  function Part(c: byte, mult: nat, signed: bool): int {
    var p := c % 128 * mult % TWO_32;
    if signed && p >= TWO_31 then p - TWO_32 else p
  }

  /**
   The decoding loop after byte c. The groups are or-ed into t; t holds bits
   below mult only and a part only bits from mult up, so or-ing is adding.
   */
  function DecodeRest(s: seq<byte>, pos: nat, c: byte, t: int, mult: nat, signed: bool): (r: Decoded)
    requires pos <= |s|
    ensures r.Num? ==> pos <= r.next <= |s|
    decreases |s| - pos
  {
    if c < 128 then Num(t, pos)
    else if pos >= |s| then Overrun
    else if mult >= TWO_32 then Undefined
    else DecodeRest(s, pos + 1, s[pos], t + Part(s[pos], mult, signed), mult * 128, signed)
  }

  function DecodeNum(s: seq<byte>, pos: nat, signed: bool): (r: Decoded)
    ensures r.Num? ==> pos < r.next <= |s|
  {
    if pos >= |s| then Overrun
    else
      var c := s[pos];
      match DecodeRest(s, pos + 1, c, c / 2 % 64, 64, signed)
      case Num(t, next) => Num(if c % 2 == 1 then -t else t, next)
      case other => other
  }

  /** ejsDecodeNum (signed == false) and ejsModuleReadNum (signed == true). */
  method EjsDecodeNum(s: seq<byte>, start: nat, signed: bool) returns (r: Decoded)
    ensures r == DecodeNum(s, start, signed)
  {
    if start >= |s| { return Overrun; }
    var pos := start + 1;
    var c := s[start];
    var sign := if c % 2 == 1 then -1 else 1;
    var t := c / 2 % 64;
    var mult: nat := 64;
    while c >= 128
      invariant pos <= |s|
      invariant DecodeRest(s, start + 1, s[start], s[start] / 2 % 64, 64, signed)
             == DecodeRest(s, pos, c, t, mult, signed)
      decreases |s| - pos
    {
      if pos >= |s| { return Overrun; }
      if mult >= TWO_32 { return Undefined; }
      c := s[pos];
      pos := pos + 1;
      t := t + Part(c, mult, signed);
      mult := mult * 128;
    }
    return Num(t * sign, pos);
  }

  /** Two to the shifts the loop can reach before a shift is undefined. */
  ghost predicate Shift(mult: nat) {
    mult == 64 || mult == 0x2000 || mult == 0x10_0000 || mult == 0x800_0000
  }

  /** What the decoding loop finds where Groups wrote. */
  lemma GroupsStep(s: seq<byte>, pos: nat, first: int, rest: nat)
    requires 0 <= first < 128 && pos >= 1 && At(s, pos - 1, Groups(first, rest))
    ensures pos <= |s| && s[pos - 1] == if rest == 0 then first else first + 128
    ensures rest > 0 ==> pos < |s| && s[pos] % 128 == rest % 128 && (s[pos] >= 128 <==> rest >= 128)
    ensures rest > 0 ==> At(s, pos, Groups(rest % 128, rest / 128))
    ensures |Groups(first, rest)| == 1 + if rest > 0 then |Groups(rest % 128, rest / 128)| else 0
  {
    AtIndex(s, pos - 1, Groups(first, rest), 0);
    if rest > 0 {
      var next := Groups(rest % 128, rest / 128);
      AtConcat(s, pos - 1, [first + 128], next);
      AtIndex(s, pos, next, 0);
    }
  }

  /** A group that is shifted without loss adds its share of the magnitude. */
  lemma PartExact(c: byte, rest: nat, mult: nat, signed: bool)
    requires Shift(mult) && c % 128 == rest % 128
    requires rest * mult < if signed then TWO_31 else TWO_32
    ensures Part(c, mult, signed) == rest % 128 * mult
    ensures rest * mult == rest % 128 * mult + rest / 128 * (mult * 128)
    ensures rest / 128 * (mult * 128) < if signed then TWO_31 else TWO_32
    ensures rest >= 128 ==> Shift(mult * 128)
  {
    assert rest * mult == rest % 128 * mult + rest / 128 * (mult * 128) by {
      assert rest == rest / 128 * 128 + rest % 128;
    }
  }

  /** Both decoders recover what Groups wrote while the magnitude fits their width. */
  lemma {:induction false} DecodeExact(s: seq<byte>, pos: nat, first: int, rest: nat, t: nat, mult: nat, signed: bool)
    requires 0 <= first < 128 && pos >= 1 && At(s, pos - 1, Groups(first, rest))
    requires Shift(mult) && rest * mult < if signed then TWO_31 else TWO_32
    ensures pos <= |s|
    ensures DecodeRest(s, pos, s[pos - 1], t, mult, signed)
         == Num(t + rest * mult, pos - 1 + |Groups(first, rest)|)
    decreases rest
  {
    hide At, Part;
    GroupsStep(s, pos, first, rest);
    if rest > 0 {
      PartExact(s[pos], rest, mult, signed);
      if rest >= 128 {
        DecodeExact(s, pos + 1, rest % 128, rest / 128, t + rest % 128 * mult, mult * 128, signed);
      }
    }
  }

  /** What is left of a magnitude that does not fit: no result, or one of at most 32 bits. */
  ghost predicate Truncated(r: Decoded, u: nat, end: nat, signed: bool) {
    && !r.Overrun?
    && (r.Num? ==> if signed then -TWO_31 <= r.value < TWO_31 else 0 <= r.value < TWO_32)
    && (signed && u == TWO_31 ==> r == Num(-TWO_31, end))
  }

  lemma PartAtTop(c: byte, signed: bool)
    ensures var p := Part(c, 0x800_0000, signed);
            if signed then -TWO_31 <= p <= TWO_31 - 0x800_0000 && (c % 128 == 16 ==> p == -TWO_31)
            else 0 <= p <= TWO_32 - 0x800_0000
  {
    var r := c % 128;
    assert r * 0x800_0000 == r / 32 * TWO_32 + r % 32 * 0x800_0000;
    assert r * 0x800_0000 % TWO_32 == r % 32 * 0x800_0000;
  }

  lemma TruncatedAtTop(s: seq<byte>, pos: nat, first: int, rest: nat, t: nat, signed: bool)
    requires 0 <= first < 128 && pos >= 1 && At(s, pos - 1, Groups(first, rest))
    requires t < 0x800_0000 && rest >= if signed then 16 else 32
    ensures pos <= |s|
    ensures Truncated(DecodeRest(s, pos, s[pos - 1], t, 0x800_0000, signed), t + rest * 0x800_0000,
                      pos - 1 + |Groups(first, rest)|, signed)
  {
    GroupsStep(s, pos, first, rest);
    PartAtTop(s[pos], signed);
    if rest >= 128 {
      GroupsStep(s, pos + 1, rest % 128, rest / 128);
    }
  }

  /** Below the top group nothing is lost, so the excess is still ahead. */
  lemma OneGroupDown(c: byte, rest: nat, t: nat, mult: nat, signed: bool)
    requires mult == 64 || mult == 0x2000 || mult == 0x10_0000
    requires c % 128 == rest % 128 && t < mult
    requires rest * mult >= if signed then TWO_31 else TWO_32
    ensures rest >= 128 && Shift(mult * 128)
    ensures Part(c, mult, signed) == rest % 128 * mult && t + rest % 128 * mult < mult * 128
    ensures rest * mult == rest % 128 * mult + rest / 128 * (mult * 128)
    ensures rest / 128 * (mult * 128) >= if signed then TWO_31 else TWO_32
  {
    var q, r := rest / 128, rest % 128;
    if mult == 64 {
      assert rest * 64 == r * 64 + q * 0x2000;
    } else if mult == 0x2000 {
      assert rest * 0x2000 == r * 0x2000 + q * 0x10_0000;
    } else {
      assert rest * 0x10_0000 == r * 0x10_0000 + q * 0x800_0000;
    }
  }

  lemma {:induction false} DecodeTruncated(s: seq<byte>, pos: nat, first: int, rest: nat, t: nat, mult: nat, signed: bool)
    requires 0 <= first < 128 && pos >= 1 && At(s, pos - 1, Groups(first, rest))
    requires Shift(mult) && t < mult && rest * mult >= if signed then TWO_31 else TWO_32
    ensures pos <= |s|
    ensures Truncated(DecodeRest(s, pos, s[pos - 1], t, mult, signed), t + rest * mult,
                      pos - 1 + |Groups(first, rest)|, signed)
    decreases rest
  {
    if mult == 0x800_0000 {
      TruncatedAtTop(s, pos, first, rest, t, signed);
    } else {
      GroupsStep(s, pos, first, rest);
      OneGroupDown(s[pos], rest, t, mult, signed);
      DecodeTruncated(s, pos + 1, rest % 128, rest / 128, t + rest % 128 * mult, mult * 128, signed);
    }
  }

  lemma FirstByte(s: seq<byte>, pos: nat, n: int)
    requires At(s, pos, EncodeNum(n))
    ensures pos < |s| && s[pos] / 2 % 64 == Abs(n) % 64 && (s[pos] % 2 == 1 <==> n < 0)
    ensures Abs(n) % 64 + Abs(n) / 64 * 64 == Abs(n)
  {
    AtIndex(s, pos, EncodeNum(n), 0);
    var g := FirstGroup(n);
    assert g / 2 == Abs(n) % 64 && (g + 128) / 2 == Abs(n) % 64 + 64;
  }

  /**
   Both decoders consume exactly the encoding and return the number while it
   fits, and return something else as soon as it does not: 32 bits of magnitude
   from memory, 31 bits from a file.
   */
  lemma RoundTrip(s: seq<byte>, pos: nat, n: int, signed: bool)
    requires At(s, pos, EncodeNum(n))
    ensures DecodeNum(s, pos, signed) == Num(n, pos + |EncodeNum(n)|)
       <==> Abs(n) < if signed then TWO_31 else TWO_32
    ensures signed && n == -TWO_31 ==> DecodeNum(s, pos, signed) == Num(TWO_31, pos + |EncodeNum(n)|)
  {
    hide Groups, DecodeRest, At;
    var u, g := Abs(n), FirstGroup(n);
    FirstByte(s, pos, n);
    if u < if signed then TWO_31 else TWO_32 {
      DecodeExact(s, pos + 1, g, u / 64, u % 64, 64, signed);
    } else {
      DecodeTruncated(s, pos + 1, g, u / 64, u % 64, 64, signed);
    }
  }

  /** The first numbers that do not come back: 2^32 from memory, 2^31 from a file. */
  lemma FirstNumberLost(signed: bool)
    ensures var n := if signed then 0x8000_0000 else 0x1_0000_0000;
            DecodeNum(EncodeNum(n), 0, signed) != Num(n, |EncodeNum(n)|)
  {
    var n := if signed then 0x8000_0000 else 0x1_0000_0000;
    assert EncodeNum(n)[0..|EncodeNum(n)|] == EncodeNum(n);
    RoundTrip(EncodeNum(n), 0, n, signed);
  }

  /** The code is prefix-free over all integers: at most one number stands at a position. */
  lemma {:induction false} PrefixFree(s: seq<byte>, pos: nat, m: int, n: int)
    requires At(s, pos, EncodeNum(m)) && At(s, pos, EncodeNum(n))
    ensures m == n
  {
    FirstByte(s, pos, m);
    FirstByte(s, pos, n);
    GroupsPrefixFree(s, pos + 1, FirstGroup(m), Abs(m) / 64, FirstGroup(n), Abs(n) / 64);
  }

  lemma {:induction false} GroupsPrefixFree(s: seq<byte>, pos: nat, f: int, q: nat, g: int, r: nat)
    requires 0 <= f < 128 && 0 <= g < 128 && pos >= 1
    requires At(s, pos - 1, Groups(f, q)) && At(s, pos - 1, Groups(g, r))
    ensures q == r
    decreases q
  {
    GroupsStep(s, pos, f, q);
    GroupsStep(s, pos, g, r);
    if q > 0 && r > 0 {
      GroupsPrefixFree(s, pos + 1, q % 128, q / 128, r % 128, r / 128);
    }
  }

  // ------------------------------------------------------ Numbers cast to int

  /** getNum, ejsModuleReadInt: a number cast to int, and the offset after it. */
  function ReadInt(s: seq<byte>, pos: nat, signed: bool): (r: Option<(int32, nat)>)
    ensures r.Some? ==> pos < r.value.1 <= |s|
  {
    match DecodeNum(s, pos, signed)
    case Num(value, next) => Some((ToInt32(value), next))
    case _ => None
  }

  /** Every C int survives the trip through either decoder, INT_MIN included. */
  lemma ReadIntInverts(s: seq<byte>, pos: nat, n: int32, signed: bool)
    requires At(s, pos, EncodeNum(n))
    ensures ReadInt(s, pos, signed) == Some((n, pos + |EncodeNum(n)|))
  {
    var v := if signed && n == -TWO_31 then TWO_31 else n;
    assert DecodeNum(s, pos, signed) == Num(v, pos + |EncodeNum(n)|) by {
      RoundTrip(s, pos, n, signed);
    }
    assert ToInt32(v) == n by {
      ToInt32Same(n);
    }
  }

  // ------------------------------------------------- Numbers of four bytes

  /** ejsEncodeInt32: number encoded, then zeroes up to four bytes. */
  function EncodeWord(n: int): (code: seq<byte>)
    requires Abs(n) <= ENCODE_MAX_WORD
    ensures |code| == 4
  {
    WordLength(n);
    var num := EncodeNum(n);
    num + seq(4 - |num|, i => 0)
  }

  /** ejsDecodeInt32: decode a number, then step over four bytes whatever its length. */
  function ReadWord(s: seq<byte>, pos: nat): Option<(int32, nat)> {
    if pos + 4 > |s| then None
    else match DecodeNum(s[..pos + 4], pos, false)
         case Num(value, _) => Some((ToInt32(value), pos + 4))
         case _ => None
  }

  lemma ReadWordInverts(s: seq<byte>, pos: nat, n: int)
    requires Abs(n) <= ENCODE_MAX_WORD && At(s, pos, EncodeWord(n))
    ensures ReadWord(s, pos) == Some((n, pos + 4))
  {
    WordLength(n);
    var num := EncodeNum(n);
    AtConcat(s, pos, num, seq(4 - |num|, i => 0));
    assert s[..pos + 4][pos..pos + |num|] == num;
    RoundTrip(s[..pos + 4], pos, n, false);
  }
}

/**
 Bytes, the C integer widths the compiler and loader rely on, and the one
 notion every codec in this project is stated with: a byte string standing at
 a position of a buffer.
 */
module Bytes {
  type byte = b: int | 0 <= b < 0x100
  type int32 = i: int | -0x8000_0000 <= i < 0x8000_0000
  type int64 = i: int | -0x8000_0000_0000_0000 <= i < 0x8000_0000_0000_0000

  const TWO_32: int := 0x1_0000_0000
  const TWO_31: int := 0x8000_0000

  function Abs(n: int): nat {
    if n < 0 then -n else n
  }

  /** The C cast `(int) n` of a 64-bit value on a two's-complement machine. */
  function ToInt32(n: int): int32 {
    var m := n % TWO_32;
    if m < TWO_31 then m else m - TWO_32
  }

  lemma ToInt32Same(n: int32)
    ensures ToInt32(n) == n && ToInt32(TWO_31) == -TWO_31
  {
    assert n % TWO_32 == if n < 0 then n + TWO_32 else n;
  }

  /** Byte string `e` stands at offset `pos` of `s`. */
  ghost predicate At(s: seq<byte>, pos: nat, e: seq<byte>) {
    pos + |e| <= |s| && s[pos..pos + |e|] == e
  }

  lemma AtConcat(s: seq<byte>, pos: nat, a: seq<byte>, b: seq<byte>)
    ensures At(s, pos, a + b) <==> At(s, pos, a) && At(s, pos + |a|, b)
  {
    if At(s, pos, a + b) {
      assert (a + b)[..|a|] == a && (a + b)[|a|..] == b;
    }
    if At(s, pos, a) && At(s, pos + |a|, b) {
      assert s[pos..pos + |a + b|] == s[pos..pos + |a|] + s[pos + |a|..pos + |a| + |b|];
    }
  }

  lemma AtIndex(s: seq<byte>, pos: nat, e: seq<byte>, i: nat)
    requires At(s, pos, e) && i < |e|
    ensures s[pos + i] == e[i]
  {
    assert s[pos..pos + |e|][i] == s[pos + i];
  }

  datatype Option<+T> = None | Some(value: T)
}

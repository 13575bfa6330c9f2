/**
 Attribute words: C ints whose bits are tested with `&`, set with `|=` and
 cleared with `&= ~`. Bits are named by their number (src/ejs.h:114-146).
 */
module AttributeBits {
  import opened Bytes

  const TRAIT_GETTER: nat := 2            // 0x4
  const TRAIT_SETTER: nat := 7            // 0x80
  const PROP_HAS_VALUE: nat := 9          // 0x200
  const FUN_CONSTRUCTOR: nat := 13        // 0x2000
  const FUN_FULL_SCOPE: nat := 14         // 0x4000
  const FUN_HAS_RETURN: nat := 15         // 0x8000
  const FUN_INITIALIZER: nat := 16        // 0x10000
  const FUN_OVERRIDE: nat := 17           // 0x20000
  const FUN_MODULE_INITIALIZER: nat := 18 // 0x40000
  const FUN_REST_ARGS: nat := 19          // 0x80000
  const TYPE_CALLS_SUPER: nat := 20       // 0x100000
  const TYPE_HAS_INSTANCE_VARS: nat := 21 // 0x200000
  const TYPE_DYNAMIC_INSTANCES: nat := 22 // 0x400000
  const TYPE_FINAL: nat := 23             // 0x800000
  const TYPE_FIXUP: nat := 24             // 0x1000000
  const TYPE_HAS_CONSTRUCTOR: nat := 25   // 0x2000000
  const TYPE_HAS_TYPE_INITIALIZER: nat := 26 // 0x4000000
  const TYPE_INTERFACE: nat := 27         // 0x8000000

  /** `a & (1 << k)`: halving rounds down, as an arithmetic shift does. */
  predicate HasBit(a: int, k: nat)
    decreases k
  {
    if k == 0 then a % 2 == 1 else HasBit(a / 2, k - 1)
  }

  /** Bit k of a becomes c; the other bits stay. */
  function WithBit(a: int, k: nat, c: bool): int
    decreases k
  {
    if k == 0 then a / 2 * 2 + (if c then 1 else 0) else WithBit(a / 2, k - 1, c) * 2 + a % 2
  }

  function Pow2(n: nat): (p: int)
    ensures p >= 1
  {
    if n == 0 then 1 else 2 * Pow2(n - 1)
  }

  lemma {:induction false} WithBitHas(a: int, k: nat, c: bool, j: nat)
    ensures HasBit(WithBit(a, k, c), j) == if j == k then c else HasBit(a, j)
    decreases k
  {
    if k > 0 && j > 0 {
      WithBitHas(a / 2, k - 1, c, j - 1);
    }
  }

  lemma {:induction false} WithBitSame(a: int, k: nat)
    ensures WithBit(a, k, HasBit(a, k)) == a
    decreases k
  {
    if k > 0 {
      WithBitSame(a / 2, k - 1);
    }
  }

  /** A bit below the sign leaves a word of n + 1 bits one. */
  lemma {:induction false} WithBitRange(a: int, k: nat, c: bool, n: nat)
    requires k < n && -Pow2(n) <= a < Pow2(n)
    ensures -Pow2(n) <= WithBit(a, k, c) < Pow2(n)
    decreases k
  {
    hide Pow2;
    HalfRange(a, n - 1);
    if k > 0 {
      WithBitRange(a / 2, k - 1, c, n - 1);
    }
  }

  lemma HalfRange(a: int, n: nat)
    ensures -Pow2(n + 1) <= a < Pow2(n + 1) <==> -Pow2(n) <= a / 2 < Pow2(n)
    ensures Pow2(n + 1) == 2 * Pow2(n)
  {
  }

  /** Setting a bit that is clear adds its value, as `|` does. */
  lemma {:induction false} WithBitValue(a: int, k: nat, c: bool)
    ensures WithBit(a, k, c) == a + Pow2(k) * ((if c then 1 else 0) - if HasBit(a, k) then 1 else 0)
    decreases k
  {
    if k > 0 {
      WithBitValue(a / 2, k - 1, c);
    }
  }

  lemma Pow31()
    ensures Pow2(31) == TWO_31
  {
    assert Pow2(4) == 16;
    assert Pow2(8) == 0x100;
    assert Pow2(12) == 0x1000;
    assert Pow2(16) == 0x1_0000;
    assert Pow2(20) == 0x10_0000;
    assert Pow2(24) == 0x100_0000;
    assert Pow2(28) == 0x1000_0000;
  }

  /** `a | (1 << k)` where c holds, else a. */
  function SetIf(a: int32, k: nat, c: bool): (r: int32)
    requires k < 31
    ensures forall j: nat :: HasBit(r, j) == (HasBit(a, j) || (c && j == k))
  {
    Pow31();
    WithBitRange(a, k, true, 31);
    forall j: nat ensures HasBit(WithBit(a, k, true), j) == (HasBit(a, j) || j == k) {
      WithBitHas(a, k, true, j);
    }
    if c then WithBit(a, k, true) else a
  }

  /** `a & ~(1 << k)` where c holds, else a. */
  function ClearIf(a: int32, k: nat, c: bool): (r: int32)
    requires k < 31
    ensures forall j: nat :: HasBit(r, j) == (HasBit(a, j) && !(c && j == k))
  {
    Pow31();
    WithBitRange(a, k, false, 31);
    forall j: nat ensures HasBit(WithBit(a, k, false), j) == (HasBit(a, j) && j != k) {
      WithBitHas(a, k, false, j);
    }
    if c then WithBit(a, k, false) else a
  }
}

/** Bit masks, bytes and alignment, as the layout and table code uses them. */
module Bits {

  type Byte = x: int | 0 <= x < 256

  /** A register's bytes, low one first. */
  type Word8 = s: seq<Byte> | |s| == 8 witness [0, 0, 0, 0, 0, 0, 0, 0]

  const W32: int := 0x1_0000_0000
  const W64: int := 0x1_0000_0000_0000_0000

  /** Conversion of any integer to uint32 and to int32: what wraps around wraps. */
  function ToUint32(x: int): nat { x % W32 }

  function ToInt32(x: int): int { (x + 0x8000_0000) % W32 - 0x8000_0000 }

  predicate IsInt32(x: int) { -0x8000_0000 <= x < 0x8000_0000 }

  /** `m & (1 << i) != 0` */
  predicate Has(m: nat, i: nat) {
    if i == 0 then m % 2 == 1 else Has(m / 2, i - 1)
  }

  /** `m | 1 << i` */
  function OrBit(m: nat, i: nat): nat {
    if i == 0 then (if m % 2 == 1 then m else m + 1)
    else 2 * OrBit(m / 2, i - 1) + m % 2
  }

  /** `a | b` */
  function Or(a: nat, b: nat): nat {
    if a == 0 then b else if b == 0 then a
    else 2 * Or(a / 2, b / 2) + if a % 2 == 1 || b % 2 == 1 then 1 else 0
  }

  /** `x << k` on unbounded numbers */
  function Shl(x: nat, k: nat): nat {
    if k == 0 then x else 2 * Shl(x, k - 1)
  }

  /** Numbers without a common bit, one above bit `k` and one below: or is plus. */
  lemma {:induction false} OrDisjoint(hi: nat, lo: nat, k: nat)
    requires lo < Pow2(k)
    ensures Or(Shl(hi, k), lo) == Shl(hi, k) + lo
    decreases k
  {
    if k != 0 && lo != 0 {
      OrDisjoint(hi, lo / 2, k - 1);
      OrEven(Shl(hi, k - 1), lo);
    }
  }

  /** A common low part stays out of the way. */
  lemma {:induction false} OrHigh(hi: nat, z: nat, y: nat, k: nat)
    requires y < Pow2(k)
    ensures Or(Shl(hi, k) + y, Shl(z, k)) == Shl(Or(hi, z), k) + y
    decreases k
  {
    if k != 0 {
      OrHigh(hi, z, y / 2, k - 1);
      OrOdd(Shl(hi, k - 1), y, Shl(z, k - 1));
    }
  }

  lemma OrEven(half: nat, lo: nat)
    ensures Or(2 * half, lo) == 2 * Or(half, lo / 2) + lo % 2
  {
  }

  lemma OrOdd(a: nat, y: nat, b: nat)
    ensures Or(2 * a + y, 2 * b) == 2 * Or(a + y / 2, b) + y % 2
  {
    assert (2 * a + y) / 2 == a + y / 2;
  }

  function Pow2(i: nat): nat {
    if i == 0 then 1 else 2 * Pow2(i - 1)
  }

  /** Setting one bit changes that bit and no other. */
  lemma {:induction false} OrBitHas(m: nat, i: nat, j: nat)
    ensures Has(OrBit(m, i), j) <==> Has(m, j) || i == j
  {
    if i != 0 {
      assert OrBit(m, i) / 2 == OrBit(m / 2, i - 1);
      if j != 0 { OrBitHas(m / 2, i - 1, j - 1); }
    } else {
      assert OrBit(m, 0) / 2 == m / 2;
    }
  }

  /** A mask of `w` bits stays one when a bit below `w` is set. */
  lemma {:induction false} OrBitWidth(m: nat, i: nat, w: nat)
    requires m < Pow2(w) && i < w
    ensures OrBit(m, i) < Pow2(w)
  {
    Doubled(m, Pow2(w - 1));
    if i != 0 {
      OrBitWidth(m / 2, i - 1, w - 1);
      Doubled(2 * OrBit(m / 2, i - 1) + m % 2, Pow2(w - 1));
    }
    hide Pow2;
  }

  /** Below twice a number, half is below the number, and the next even number's
      successor is below too. */
  lemma Doubled(x: nat, p: nat)
    ensures x < 2 * p <==> x / 2 < p
    ensures x < 2 * p && x % 2 == 0 ==> x + 1 < 2 * p
  {
  }

  lemma {:induction false} NoBits(i: nat)
    ensures !Has(0, i)
  {
    if i != 0 { NoBits(i - 1); }
  }

  lemma Pow2Positive(i: nat)
    ensures 0 < Pow2(i)
  {
  }

  lemma Pow2Step(i: nat)
    ensures Pow2(i + 8) == 256 * Pow2(i)
  {
    assert Pow2(i + 2) == 4 * Pow2(i);
    assert Pow2(i + 4) == 4 * Pow2(i + 2);
    assert Pow2(i + 6) == 4 * Pow2(i + 4);
    assert Pow2(i + 8) == 4 * Pow2(i + 6);
  }

  /** A uint64 has 64 bits. */
  lemma Pow2Of64()
    ensures Pow2(8) == 256 && Pow2(32) == W32 && Pow2(64) == W64
  {
    Pow2Step(0); Pow2Step(8); Pow2Step(16); Pow2Step(24);
    Pow2Step(32); Pow2Step(40); Pow2Step(48); Pow2Step(56);
  }

  predicate IsAlign(a: nat) { a == 1 || a == 2 || a == 4 || a == 8 }

  /** `a` is an alignment and divides `x`. */
  predicate Aligned(x: int, a: nat) {
    a == 1 || (a == 2 && x % 2 == 0) || (a == 4 && x % 4 == 0) || (a == 8 && x % 8 == 0)
  }

  /** The least multiple of `a` that is at least `x`. */
  function AlignUp(x: nat, a: nat): (r: nat)
    requires IsAlign(a)
    ensures x <= r < x + a && Aligned(r, a)
  {
    if a == 8 then UpTo8(x) else if a == 4 then UpTo4(x) else if a == 2 then UpTo2(x) else x
  }

  function UpTo8(x: nat): (r: nat)
    ensures x <= r < x + 8 && r % 8 == 0
  {
    if x % 8 == 0 then x else x - x % 8 + 8
  }

  function UpTo4(x: nat): (r: nat)
    ensures x <= r < x + 4 && r % 4 == 0
  {
    if x % 4 == 0 then x else x - x % 4 + 4
  }

  function UpTo2(x: nat): (r: nat)
    ensures x <= r < x + 2 && r % 2 == 0
  {
    if x % 2 == 0 then x else x - x % 2 + 2
  }

  /** `(x + a - 1) &^ (a - 1)` on machine words is that multiple too. */
  lemma AlignUpIsMasking(x: bv64, a: bv64)
    requires a == 1 || a == 2 || a == 4 || a == 8
    requires x <= 0xFFFF_FFFF_FFFF_FFF8
    ensures var r := (x + a - 1) & !(a - 1); x <= r && r - x < a && r & (a - 1) == 0
  {
  }
}

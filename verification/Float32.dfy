/** float32 values that travel as float64: the bits of both conversions. */
module Float32 {
  import opened Bits
  import opened LittleEndian

  const P23 := 0x80_0000
  const P29 := 0x2000_0000

  /** Doublings that bring a subnormal's leading one to bit 23. */
  function Doublings(m: nat): nat
    requires 0 < m
    decreases P23 - m
  {
    if m >= P23 then 0 else 1 + Doublings(2 * m)
  }

  function Normalised(m: nat): nat
    requires 0 < m
    decreases P23 - m
  {
    if m >= P23 then m else Normalised(2 * m)
  }

  /** Exponent and fraction of float64(x), the fraction in its top 23 bits; a
      signalling NaN comes out quiet. */
  function Widened(x: nat): (nat, nat) {
    var e, m := x / P23 % 256, x % P23;
    if e == 255 then (2047, if m == 0 || 0x40_0000 <= m then m else m + 0x40_0000)
    else if e != 0 then (e + 896, m)
    else if m == 0 then (0, 0)
    else (if Doublings(m) <= 897 then 897 - Doublings(m) else 0, Normalised(m) % P23)
  }

  /** The bits of float64(x) for the float32 with bits `x`. */
  function Widen(x: nat): nat {
    P29 * (x / 0x8000_0000 * 0x4_0000_0000 + Widened(x).0 * P23 + Widened(x).1)
  }

  // ----- and back -----

  /** `n` halved `k` times. */
  function Halved(n: nat, k: nat): nat {
    if k == 0 then n else Halved(n / 2, k - 1)
  }

  /** The bits of float32(w) for a float64 that some float32 equals: the fraction's
      lower bits are zero and nothing is rounded. A signalling NaN comes out quiet. */
  function Narrow(w: nat): nat {
    var y := w / P29;
    var sign, e, m := y / 0x4_0000_0000 * 0x8000_0000, y / P23 % 2048, y % P23;
    if e == 2047 then sign + 255 * P23 + if m == 0 || 0x40_0000 <= m then m else m + 0x40_0000
    else if e > 896 then sign + (e - 896) * P23 + m
    else if e == 0 then sign
    else sign + Halved(P23 + m, 897 - e)
  }

  /** A NaN whose first fraction bit is clear. */
  predicate Signalling(x: nat) {
    x / P23 % 256 == 255 && 0 < x % P23 < 0x40_0000
  }

  /** What float32(float64(x)) makes of x. */
  function Quieted(x: nat): nat { if Signalling(x) then x + 0x40_0000 else x }

  lemma {:induction false} DoublingsIs(m: nat)
    requires 0 < m < 2 * P23
    ensures P23 <= Normalised(m) < 2 * P23 && Halved(Normalised(m), Doublings(m)) == m
    ensures m < P23 ==> 1 <= Doublings(m)
    decreases P23 - m
  {
    if m < P23 {
      DoublingsIs(2 * m);
      HalvedAgain(Normalised(m), Doublings(2 * m));
    }
  }

  lemma {:induction false} HalvedAgain(n: nat, k: nat)
    ensures Halved(n, k + 1) == Halved(n, k) / 2
    decreases k
  {
    if k != 0 { HalvedAgain(n / 2, k - 1); }
  }

  /** Less than 2^23 needs at most 23 doublings. */
  lemma {:induction false} DoublingsBound(m: nat, k: nat, p: nat)
    requires 0 < m && p == Pow2(k) && P23 <= m * p
    ensures Doublings(m) <= k
    decreases k
  {
    if m < P23 {
      assert k != 0;
      assert m * p == 2 * m * Pow2(k - 1);
      DoublingsBound(2 * m, k - 1, Pow2(k - 1));
    }
  }

  lemma Pow23()
    ensures Pow2(23) == P23
  {
    Pow2Step(7);
    Pow2Step(15);
    assert Pow2(7) == 128;
  }

  lemma WidenedRange(x: nat)
    ensures Widened(x).0 < 2048 && Widened(x).1 < P23
  {
    hide Doublings, Normalised;
  }

  /** A widened number is a float64. */
  lemma WidenRange(x: nat)
    requires x < W32
    ensures Widen(x) < W64
  {
    hide Widened;
    WidenedRange(x);
  }

  /** The fields of a widened number. */
  lemma WidenFields(s: nat, e: nat, m: nat)
    requires e < 2048 && m < P23
    ensures var y := s * 0x4_0000_0000 + e * P23 + m;
            y / 0x4_0000_0000 == s && y / P23 % 2048 == e && y % P23 == m && (P29 * y) / P29 == y
  {
  }

  lemma NarrowFields(s: nat, e: nat, m: nat)
    requires e < 2048 && m < P23
    ensures Narrow(P29 * (s * 0x4_0000_0000 + e * P23 + m)) ==
            s * 0x8000_0000 +
            (if e == 2047 then 255 * P23 + if m == 0 || 0x40_0000 <= m then m else m + 0x40_0000
             else if e > 896 then (e - 896) * P23 + m
             else if e == 0 then 0
             else Halved(P23 + m, 897 - e))
  {
    hide Halved;
    WidenFields(s, e, m);
  }

  /** Narrowing undoes widening but for signalling NaNs. */
  lemma NarrowWiden(x: nat)
    requires x < W32
    ensures Narrow(Widen(x)) == Quieted(x) && Quieted(x) < W32
  {
    hide Doublings, Normalised, Halved, Widened, Narrow;
    var e, m := x / P23 % 256, x % P23;
    WidenedRange(x);
    NarrowFields(x / 0x8000_0000, Widened(x).0, Widened(x).1);
    assert x == x / 0x8000_0000 * 0x8000_0000 + e * P23 + m;
    WidenedIs(x);
    if e == 0 && m != 0 {
      Pow23();
      DoublingsBound(m, 23, P23);
      DoublingsIs(m);
    }
  }

  lemma WidenedIs(x: nat)
    ensures var e, m := x / P23 % 256, x % P23;
            && (e == 255 ==> Widened(x) == (2047, if m == 0 || 0x40_0000 <= m then m else m + 0x40_0000))
            && (0 < e < 255 ==> Widened(x) == (e + 896, m))
            && (e == 0 && m == 0 ==> Widened(x) == (0, 0))
            && (e == 0 && m != 0 ==> Widened(x) == (if Doublings(m) <= 897 then 897 - Doublings(m) else 0, Normalised(m) % P23))
  {
    hide Doublings, Normalised;
  }

  /** Only +0 has the low half of its float64 form as its own bits. */
  lemma WidenKeeps(x: nat)
    requires x < W32
    ensures Widen(x) % W32 == x <==> x == 0
  {
    var hi := x / 0x8000_0000 * 0x800 + Widened(x).0;
    var frac := Widened(x).1;
    assert Widen(x) == P29 * (P23 * hi + frac);
    if x % P23 == 0 { assert frac == 0; }
    LowHalf(Widen(x), hi, frac, x);
  }

  lemma LowHalf(w: nat, hi: nat, frac: nat, x: nat)
    requires w == P29 * (P23 * hi + frac) && x < W32 && (x % P23 == 0 ==> frac == 0)
    ensures w % W32 == x <==> x == 0
  {
    if frac == 0 { NoLowBits(w, hi); }
    if w % W32 == x { Multiple(x, 64 * (P23 * hi + frac - 8 * (w / W32))); }
  }

  lemma NoLowBits(w: nat, hi: nat)
    requires w == P29 * (P23 * hi)
    ensures w % W32 == 0
  {
    assert w == W32 * (0x10_0000 * hi);
  }

  lemma Multiple(x: nat, q: int)
    requires x == P23 * q
    ensures x % P23 == 0
  {
  }

  function WideWord(b: seq<Byte>): Word8 {
    LowBytesLen(Widen(Unsigned(b)), 8);
    LowBytes(Widen(Unsigned(b)), 8)
  }

  /** What reaches a register of a float32 that goes by way of float64. */
  function NarrowWord(b: seq<Byte>): (r: seq<Byte>)
    ensures |r| == 4
  {
    LowBytesLen(Narrow(Widen(Unsigned(b))), 4);
    LowBytes(Narrow(Widen(Unsigned(b))), 4)
  }

  lemma NarrowWordKeeps(b: seq<Byte>)
    requires |b| == 4
    ensures NarrowWord(b) == b <==> !Signalling(Unsigned(b))
  {
    hide Widen, Narrow, Unsigned, LowBytes;
    UnsignedBound(b);
    Pow2Of64();
    var x := Unsigned(b);
    NarrowWiden(x);
    LowBytesLen(Quieted(x), 4);
    UnsignedLow(Quieted(x), 4);
    UnsignedUnique(LowBytes(Quieted(x), 4), b);
  }

  lemma WideWordKeeps(b: seq<Byte>)
    requires |b| == 4
    ensures WideWord(b)[..4] == b <==> b == Zeros(4)
  {
    hide Widen;
    var w := Widen(Unsigned(b));
    LowBytesPrefix(w, 4, 8);
    LowBytesLen(w, 4);
    LowBytesLen(w, 8);
    UnsignedLow(w, 4);
    UnsignedBound(b);
    Pow2Of64();
    WidenKeeps(Unsigned(b));
    UnsignedUnique(LowBytes(w, 4), b);
    UnsignedUnique(b, Zeros(4));
    assert Unsigned(Zeros(4)) == 0 by { UnsignedZeros(4); }
  }

  // ----- at numbers -----

  lemma WidenOne()
    ensures Widen(0x3F80_0000) % W32 == 0 && Widen(0) % W32 == 0
  {
  }

  lemma LowZero(w: nat)
    requires w % W32 == 0
    ensures |LowBytes(w, 8)| == 8 && LowBytes(w, 8)[..4] == Zeros(4)
  {
    hide LowBytes, Unsigned;
    LowBytesPrefix(w, 4, 8);
    UnsignedLow(w, 4);
    LowBytesLen(w, 4);
    UnsignedZeros(4);
    Pow2Of64();
    UnsignedUnique(LowBytes(w, 4), Zeros(4));
  }

  /** The float32 NaN 0x7F800001 arrives as 0x7FC00001. */
  lemma SignallingQuieted()
    ensures NarrowWord([1, 0, 0x80, 0x7F]) == [1, 0, 0xC0, 0x7F]
  {
    hide Widen, Narrow;
    var b: seq<Byte> := [1, 0, 0x80, 0x7F];
    assert Unsigned(b) == 0x7F80_0001 by { FourBytes(1, 0, 0x80, 0x7F); }
    NarrowWiden(0x7F80_0001);
    FourLow(0x7FC0_0001);
  }
}

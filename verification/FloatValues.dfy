/** The numbers that float32 and float64 bits stand for, as IEEE 754 section 3.4 gives
    them, against the conversion. */
module FloatValues {
  import opened Bits
  import opened Float32

  const P52 := 0x10_0000_0000_0000

  /** The magnitude of a finite float32, in units of its least subnormal, 2^-149. */
  function Units32(x: nat): nat {
    var e, m := x / P23 % 256, x % P23;
    if e == 0 then m else (P23 + m) * Pow2(e - 1)
  }

  /** The magnitude of a finite float64, in units of 2^-1074. */
  function Units64(w: nat): nat {
    var e, f := w / P52 % 2048, w % P52;
    if e == 0 then f else (P52 + f) * Pow2(e - 1)
  }

  predicate Finite32(x: nat) { x / P23 % 256 != 255 }

  predicate Infinite32(x: nat) { x / P23 % 256 == 255 && x % P23 == 0 }

  predicate Infinite64(w: nat) { w / P52 % 2048 == 2047 && w % P52 == 0 }

  lemma {:induction false} Pow2Add(a: nat, b: nat)
    ensures Pow2(a + b) == Pow2(a) * Pow2(b)
    decreases a
  {
    if a != 0 {
      Pow2Add(a - 1, b);
      assert 2 * (Pow2(a - 1) * Pow2(b)) == 2 * Pow2(a - 1) * Pow2(b);
    }
  }

  lemma Pow29()
    ensures Pow2(29) == P29
  {
    Pow2Of64();
    assert Pow2(32) == 8 * Pow2(29) by { assert Pow2(30) == 2 * Pow2(29) && Pow2(31) == 2 * Pow2(30); }
  }

  /** The fields of a widened number, as a float64 has them. */
  lemma WideFields(x: nat)
    requires x < W32
    ensures var w := Widen(x);
            w / 0x8000_0000_0000_0000 == x / 0x8000_0000 && w / P52 % 2048 == Widened(x).0 && w % P52 == P29 * Widened(x).1
  {
    hide Widened;
    WidenedRange(x);
    var s, e, m := x / 0x8000_0000, Widened(x).0, Widened(x).1;
    assert Widen(x) == P52 * (2048 * s + e) + P29 * m;
    Split(2048 * s + e, P29 * m);
  }

  lemma Split(hi: nat, lo: nat)
    requires lo < P52
    ensures (P52 * hi + lo) / P52 == hi && (P52 * hi + lo) % P52 == lo
    ensures (P52 * hi + lo) / 0x8000_0000_0000_0000 == hi / 2048
  {
  }

  /** A normalised subnormal is it doubled that often. */
  lemma {:induction false} NormalisedIs(m: nat)
    requires 0 < m < 2 * P23
    ensures Normalised(m) == m * Pow2(Doublings(m))
    decreases P23 - m
  {
    if m < P23 {
      NormalisedIs(2 * m);
      assert 2 * m * Pow2(Doublings(2 * m)) == m * Pow2(Doublings(m));
    }
  }

  lemma Shifted(n: nat, a: nat, b: nat)
    requires b == a + 29
    ensures n * P29 * Pow2(a) == n * Pow2(b)
  {
    Pow29();
    Pow2Add(29, a);
    assert n * P29 * Pow2(a) == n * (P29 * Pow2(a));
  }

  /** float64(x) has the sign and the value of x, for every finite float32, subnormals
      included; 2^925 is the ratio of the two units. Infinities stay infinities. */
  lemma WidenSameNumber(x: nat)
    requires x < W32
    ensures Widen(x) / 0x8000_0000_0000_0000 == x / 0x8000_0000
    ensures Finite32(x) ==> Units64(Widen(x)) == Units32(x) * Pow2(925)
    ensures Infinite32(x) <==> Infinite64(Widen(x))
  {
    hide Widened, Widen, Pow2, Doublings, Normalised;
    WideFields(x);
    WidenedIs(x);
    WidenedRange(x);
    var e, m := x / P23 % 256, x % P23;
    if 0 < e < 255 {
      assert P52 + P29 * m == (P23 + m) * P29;
      Shifted(P23 + m, e + 895, e + 924);
      Pow2Add(e - 1, 925);
      assert (P23 + m) * (Pow2(e - 1) * Pow2(925)) == (P23 + m) * Pow2(e - 1) * Pow2(925);
    } else if e == 0 && m != 0 {
      SubnormalSame(x, m);
    }
  }

  lemma SubnormalSame(x: nat, m: nat)
    requires x < W32 && x / P23 % 256 == 0 && m == x % P23 != 0
    requires var w := Widen(x); w / P52 % 2048 == Widened(x).0 && w % P52 == P29 * Widened(x).1
    ensures Units64(Widen(x)) == m * Pow2(925)
  {
    hide Widened, Widen, Pow2, Doublings, Normalised;
    WidenedIs(x);
    Pow23();
    DoublingsBound(m, 23, P23);
    DoublingsIs(m);
    NormalisedIs(m);
    var d, n := Doublings(m), Normalised(m);
    assert n % P23 == n - P23;
    assert P52 + P29 * (n - P23) == n * P29;
    Shifted(n, 896 - d, 925 - d);
    Pow2Add(d, 925 - d);
    assert m * Pow2(d) * Pow2(925 - d) == m * (Pow2(d) * Pow2(925 - d));
  }
}

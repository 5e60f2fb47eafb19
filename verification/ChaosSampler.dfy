/** Which calls of a rule get the fault: the hash of a call's ordinal. */
module ChaosSampler {
  import opened Bits
  import opened LittleEndian

  // ----- shifts and exclusive or on machine words -----

  /** `a ^ b` */
  function Xor(a: nat, b: nat): nat {
    if a == 0 then b else if b == 0 then a
    else 2 * Xor(a / 2, b / 2) + if a % 2 != b % 2 then 1 else 0
  }

  /** `x >> s` */
  function Shr(x: nat, s: nat): nat {
    if s == 0 then x else Shr(x / 2, s - 1)
  }

  /** Exclusive or decides every bit by itself. */
  lemma {:induction false} XorHas(a: nat, b: nat, i: nat)
    ensures Has(Xor(a, b), i) <==> Has(a, i) != Has(b, i)
  {
    XorHalf(a, b);
    if i != 0 { XorHas(a / 2, b / 2, i - 1); }
  }

  lemma XorHalf(a: nat, b: nat)
    ensures Xor(a, b) / 2 == Xor(a / 2, b / 2) && (Xor(a, b) % 2 == 1 <==> a % 2 != b % 2)
  {
  }

  lemma {:induction false} XorTwice(a: nat, b: nat)
    ensures Xor(Xor(a, b), b) == a
  {
    XorHalf(a, b);
    XorHalf(Xor(a, b), b);
    if a != 0 || b != 0 { XorTwice(a / 2, b / 2); }
  }

  lemma {:induction false} XorShr(a: nat, b: nat, s: nat)
    ensures Shr(Xor(a, b), s) == Xor(Shr(a, s), Shr(b, s))
    decreases s
  {
    XorHalf(a, b);
    if s != 0 { XorShr(a / 2, b / 2, s - 1); }
  }

  lemma {:induction false} XorBound(a: nat, b: nat, k: nat)
    requires a < Pow2(k) && b < Pow2(k)
    ensures Xor(a, b) < Pow2(k)
  {
    XorHalf(a, b);
    if k != 0 { XorBound(a / 2, b / 2, k - 1); }
  }

  lemma {:induction false} ShrLess(x: nat, s: nat)
    ensures Shr(x, s) <= x && (0 < x && 0 < s ==> Shr(x, s) < x)
    decreases s
  {
    if s != 0 { ShrLess(x / 2, s - 1); }
  }

  // ----- x ^= x >> s can be undone -----

  function XorShift(x: nat, s: nat): nat { Xor(x, Shr(x, s)) }

  function Unshift(y: nat, s: nat): nat
    requires 0 < s
  {
    ShrLess(y, s);
    if y == 0 then 0 else Xor(y, Unshift(Shr(y, s), s))
  }

  lemma UnshiftIs(y: nat, s: nat)
    requires 0 < s
    ensures Unshift(y, s) == Xor(y, Unshift(Shr(y, s), s))
  {
    ShrLess(y, s);
  }

  lemma {:induction false} Unshifted(x: nat, s: nat)
    requires 0 < s
    ensures Unshift(XorShift(x, s), s) == x
  {
    hide Xor, Shr, Unshift;
    var h, y := Shr(x, s), XorShift(x, s);
    XorShr(x, h, s);
    UnshiftIs(y, s);
    ShrLess(x, s);
    if x == 0 {
      assert y == 0 && h == 0 && Unshift(0, s) == 0 by { ZeroShifts(s); }
    } else {
      Unshifted(h, s);
      XorTwice(x, h);
    }
  }

  lemma ZeroShifts(s: nat)
    requires 0 < s
    ensures Shr(0, s) == 0 && XorShift(0, s) == 0 && Unshift(0, s) == 0
  {
    ShrLess(0, s);
  }

  lemma {:induction false} Reshifted(y: nat, s: nat)
    requires 0 < s
    ensures XorShift(Unshift(y, s), s) == y
  {
    hide Xor, Shr, Unshift;
    ShrLess(y, s);
    if y == 0 {
      ZeroShifts(s);
    } else {
      var h := Unshift(Shr(y, s), s);
      Reshifted(Shr(y, s), s);
      UnshiftIs(y, s);
      XorShr(y, h, s);
      XorTwice(h, Shr(h, s));
      XorTwice(y, h);
    }
  }

  lemma {:induction false} UnshiftBound(y: nat, s: nat, k: nat)
    requires 0 < s && y < Pow2(k)
    ensures Unshift(y, s) < Pow2(k)
    decreases y
  {
    hide Xor, Shr, Pow2;
    ShrLess(y, s);
    if y != 0 {
      UnshiftBound(Shr(y, s), s, k);
      XorBound(y, Unshift(Shr(y, s), s), k);
    } else {
      ZeroShifts(s);
    }
  }

  lemma XorShiftWord(x: nat, s: nat)
    requires x < W64 && 0 < s
    ensures XorShift(x, s) < W64 && Unshift(x, s) < W64
  {
    hide Xor, Shr, Unshift, Pow2;
    Pow2Of64();
    ShrLess(x, s);
    XorBound(x, Shr(x, s), 64);
    UnshiftBound(x, s, 64);
  }

  // ----- multiplication by an odd constant can be undone -----

  const K1 := 0x9E37_79B9_7F4A_7C15
  const K2 := 0xBF58_476D_1CE4_E5B9
  const K3 := 0x94D0_49BB_1331_11EB

  const K1_INVERSE := 0xF1DE_83E1_9937_733D
  const K2_INVERSE := 0x96DE_1B17_3F11_9089
  const K3_INVERSE := 0x3196_42B2_D24D_8EC3

  /** `x * k` on 64 bits. */
  function Mul(x: nat, k: nat): nat { x * k % W64 }

  lemma Unmultiplied(x: nat, k: nat, inverse: nat, q: nat)
    requires x < W64 && k * inverse == q * W64 + 1
    ensures Mul(Mul(x, k), inverse) == x
  {
    var p := x * k / W64;
    assert x * k == p * W64 + Mul(x, k);
    assert Mul(x, k) * inverse == (x * q - p * inverse) * W64 + x by {
      assert Mul(x, k) * inverse == (x * k) * inverse - (p * W64) * inverse;
      assert (x * k) * inverse == x * (k * inverse);
      assert x * (q * W64 + 1) == (x * q) * W64 + x;
      assert (p * W64) * inverse == (p * inverse) * W64;
    }
    ModUnique(Mul(x, k) * inverse, W64, x * q - p * inverse, x);
  }

  // ----- the mix -----

  /** splitmix64 */
  function Mix(n: nat): nat {
    XorShift(Mul(XorShift(Mul(XorShift(Mul(n, K1), 30), K2), 27), K3), 31)
  }

  function Unmix(y: nat): nat {
    Mul(Unshift(Mul(Unshift(Mul(Unshift(y, 31), K3_INVERSE), 27), K2_INVERSE), 30), K1_INVERSE)
  }

  lemma MulWord(x: nat, k: nat)
    ensures Mul(x, k) < W64
  {
  }

  /** One round is undone by its inverse, either way round. */
  lemma RoundUndone(x: nat, k: nat, inverse: nat, q: nat, s: nat)
    requires x < W64 && k * inverse == q * W64 + 1 && 0 < s
    ensures XorShift(Mul(x, k), s) < W64 && Mul(Unshift(XorShift(Mul(x, k), s), s), inverse) == x
    ensures Mul(Unshift(x, s), inverse) < W64 && XorShift(Mul(Mul(Unshift(x, s), inverse), k), s) == x
  {
    hide Mul, XorShift, Unshift;
    MulWord(x, k);
    XorShiftWord(Mul(x, k), s);
    Unshifted(Mul(x, k), s);
    Unmultiplied(x, k, inverse, q);
    XorShiftWord(x, s);
    MulWord(Unshift(x, s), inverse);
    assert inverse * k == k * inverse;
    Unmultiplied(Unshift(x, s), inverse, k, q);
    Reshifted(x, s);
  }

  const Q1 := K1 * K1_INVERSE / W64
  const Q2 := K2 * K2_INVERSE / W64
  const Q3 := K3 * K3_INVERSE / W64

  lemma Inverses()
    ensures K1 * K1_INVERSE == Q1 * W64 + 1
    ensures K2 * K2_INVERSE == Q2 * W64 + 1
    ensures K3 * K3_INVERSE == Q3 * W64 + 1
  {
  }

  /** The mix is a bijection on 64-bit ordinals: `Unmix` undoes it. */
  lemma MixBijective(n: nat)
    requires n < W64
    ensures Mix(n) < W64 && Unmix(Mix(n)) == n
    ensures Unmix(n) < W64 && Mix(Unmix(n)) == n
  {
    Inverses();
    hide Mul, XorShift, Unshift;
    var a := XorShift(Mul(n, K1), 30);
    RoundUndone(n, K1, K1_INVERSE, Q1, 30);
    var b := XorShift(Mul(a, K2), 27);
    RoundUndone(a, K2, K2_INVERSE, Q2, 27);
    RoundUndone(b, K3, K3_INVERSE, Q3, 31);
    var c := Mul(Unshift(n, 31), K3_INVERSE);
    RoundUndone(n, K3, K3_INVERSE, Q3, 31);
    var d := Mul(Unshift(c, 27), K2_INVERSE);
    RoundUndone(c, K2, K2_INVERSE, Q2, 27);
    RoundUndone(d, K1, K1_INVERSE, Q1, 30);
  }

  // ----- the sample -----

  const TWO53: nat := 0x20_0000_0000_0000

  function SampleOf(n: nat): real { (Mix(n) / 2048) as real / TWO53 as real }

  /** The value call number `n` is compared with the rate by. */
  method Sample(n: nat) returns (r: real)
    requires n < W64
    ensures r == SampleOf(n) && 0.0 <= r < 1.0
  {
    hide Xor, Shr;
    var x := n * K1 % W64;
    x := Xor(x, Shr(x, 30));
    x := x * K2 % W64;
    x := Xor(x, Shr(x, 27));
    x := x * K3 % W64;
    x := Xor(x, Shr(x, 31));
    assert x == Mix(n);
    hide Mix;
    MixBijective(n);
    r := (x / 2048) as real * (1.0 / TWO53 as real);
  }

  /** The least integer that is no less than `z`. */
  function Ceil(z: real): int { -((-z).Floor) }

  predicate Faulted(n: nat, rate: real) { SampleOf(n) < rate }

  /** A call is faulted iff its hash is below a bound. */
  lemma FaultedIff(n: nat, rate: real)
    requires n < W64
    ensures Faulted(n, rate) <==> Mix(n) < 2048 * Ceil(rate * TWO53 as real)
  {
    hide Mix;
    MixBijective(n);
    var k, z := Mix(n) / 2048, rate * TWO53 as real;
    Scaled(k, rate);
    assert k as real < z <==> k < Ceil(z);
  }

  lemma Scaled(k: nat, rate: real)
    ensures k as real / TWO53 as real < rate <==> k as real < rate * TWO53 as real
  {
  }

  /** The ordinals faulted over the whole period of the counter. */
  ghost function FaultedSet(rate: real): set<nat> {
    set n: nat | n < W64 && Faulted(n, rate)
  }

  ghost function Hit(m: nat): set<nat> {
    set y: nat | y < m :: Unmix(y)
  }

  lemma {:induction false} HitCount(m: nat)
    requires m <= W64
    ensures |Hit(m)| == m
  {
    hide Mix, Unmix;
    if m != 0 {
      HitCount(m - 1);
      assert Hit(m) == Hit(m - 1) + {Unmix(m - 1)};
      assert Unmix(m - 1) !in Hit(m - 1) by {
        MixBijective(m - 1);
        forall y: nat | y < m - 1 ensures Unmix(y) != Unmix(m - 1) { MixBijective(y); }
      }
    }
  }

  /** Of all 2^64 ordinals exactly 2^11 * ceil(rate * 2^53) are faulted. */
  lemma ExactlyFaulted(rate: real)
    requires 0.0 < rate <= 1.0
    ensures |FaultedSet(rate)| == 2048 * Ceil(rate * TWO53 as real)
  {
    hide Mix, Unmix, Faulted;
    var m := 2048 * Ceil(rate * TWO53 as real);
    CeilRange(rate);
    forall n: nat ensures n in FaultedSet(rate) <==> n in Hit(m) {
      if n < W64 {
        FaultedIff(n, rate);
        MixBijective(n);
        if n in Hit(m) {
          var y: nat :| y < m && Unmix(y) == n;
          MixBijective(y);
        }
      } else if n in Hit(m) {
        var y: nat :| y < m && Unmix(y) == n;
        MixBijective(y);
      }
    }
    assert FaultedSet(rate) == Hit(m);
    HitCount(m);
  }

  lemma CeilRange(rate: real)
    requires 0.0 < rate <= 1.0
    ensures 0 < Ceil(rate * TWO53 as real) <= TWO53
  {
    var z := rate * TWO53 as real;
    assert 0.0 < z <= TWO53 as real;
  }

  /** At rate 1 every call is faulted. */
  lemma RateOneFaultsAll(n: nat)
    requires n < W64
    ensures Faulted(n, 1.0)
  {
    hide Mix;
    MixBijective(n);
    FaultedIff(n, 1.0);
    assert Ceil(1.0 * TWO53 as real) == TWO53;
  }
}

/** The hash of call ordinals against the splitmix64 generator. */
module SplitMix {
  import opened Bits
  import opened LittleEndian
  import opened ChaosSampler

  // ----- exclusive or digit by digit -----

  function Differ(x: nat, y: nat, p: nat): nat
    requires p > 0
  {
    if x / p % 2 != y / p % 2 then p else 0
  }

  lemma XorNothing(a: nat)
    ensures Xor(a, 0) == a
  {
  }

  lemma Halved(a: nat, i: nat, x: nat)
    requires i < 16 && x == 16 * a + i
    ensures x / 2 / 2 / 2 / 2 == a && x % 2 == i % 2 && x / 2 % 2 == i / 2 % 2 && x / 2 / 2 % 2 == i / 4 % 2 && x / 2 / 2 / 2 % 2 == i / 8 % 2
  {
  }

  /** One more hexadecimal digit. */
  lemma Hex(a: nat, b: nat, c: nat, i: nat, j: nat, k: nat)
    requires i < 16 && j < 16 && Xor(a, b) == c && k == Differ(i, j, 8) + Differ(i, j, 4) + Differ(i, j, 2) + Differ(i, j, 1)
    ensures Xor(16 * a + i, 16 * b + j) == 16 * c + k
  {
    hide Xor;
    var x, y := 16 * a + i, 16 * b + j;
    Halved(a, i, x); Halved(b, j, y);
    XorHalf(x, y); XorHalf(x / 2, y / 2); XorHalf(x / 2 / 2, y / 2 / 2); XorHalf(x / 2 / 2 / 2, y / 2 / 2 / 2);
  }

  // ----- shifts -----

  /** A shift is a division. */
  lemma {:induction false} ShrIs(x: nat, s: nat)
    ensures Pow2(s) > 0 && Shr(x, s) == x / Pow2(s)
    decreases s
  {
    if s != 0 {
      ShrIs(x / 2, s - 1);
      HalfDivided(x, Pow2(s - 1));
    }
  }

  lemma Powers()
    ensures Pow2(27) == 0x800_0000 && Pow2(30) == 0x4000_0000 && Pow2(31) == 0x8000_0000
  {
    Pow2Of64();
    assert Pow2(28) == 2 * Pow2(27) && Pow2(29) == 2 * Pow2(28) && Pow2(30) == 2 * Pow2(29) && Pow2(31) == 2 * Pow2(30) && Pow2(32) == 2 * Pow2(31);
  }
  // ----- the first output -----

  // The digits of the three words before their shifts, high one first, each with those
  // of the shifted word.

  lemma FirstXor()
    ensures Xor(0x9E3779B97F4A7C15, 0x278DDE6E5) == 0x9E3779BB07979AF0
  {
    hide Xor;
    XorNothing(0x9E3779B);
    Hex(0x9E3779B, 0x0, 0x9E3779B, 0x9, 0x2, 0xB);
    Hex(0x9E3779B9, 0x2, 0x9E3779BB, 0x7, 0x7, 0x0);
    Hex(0x9E3779B97, 0x27, 0x9E3779BB0, 0xF, 0x8, 0x7);
    Hex(0x9E3779B97F, 0x278, 0x9E3779BB07, 0x4, 0xD, 0x9);
    Hex(0x9E3779B97F4, 0x278D, 0x9E3779BB079, 0xA, 0xD, 0x7);
    Hex(0x9E3779B97F4A, 0x278DD, 0x9E3779BB0797, 0x7, 0xE, 0x9);
    Hex(0x9E3779B97F4A7, 0x278DDE, 0x9E3779BB07979, 0xC, 0x6, 0xA);
    Hex(0x9E3779B97F4A7C, 0x278DDE6, 0x9E3779BB07979A, 0x1, 0xE, 0xF);
    Hex(0x9E3779B97F4A7C1, 0x278DDE6E, 0x9E3779BB07979AF, 0x5, 0x5, 0x0);
  }

  lemma SecondXor()
    ensures Xor(0x6F68261B57E7A770, 0xDED04C36A) == 0x6F682616BAE3641A
  {
    hide Xor;
    XorNothing(0x6F68261);
    Hex(0x6F68261, 0x0, 0x6F68261, 0xB, 0xD, 0x6);
    Hex(0x6F68261B, 0xD, 0x6F682616, 0x5, 0xE, 0xB);
    Hex(0x6F68261B5, 0xDE, 0x6F682616B, 0x7, 0xD, 0xA);
    Hex(0x6F68261B57, 0xDED, 0x6F682616BA, 0xE, 0x0, 0xE);
    Hex(0x6F68261B57E, 0xDED0, 0x6F682616BAE, 0x7, 0x4, 0x3);
    Hex(0x6F68261B57E7, 0xDED04, 0x6F682616BAE3, 0xA, 0xC, 0x6);
    Hex(0x6F68261B57E7A, 0xDED04C, 0x6F682616BAE36, 0x7, 0x3, 0x4);
    Hex(0x6F68261B57E7A7, 0xDED04C3, 0x6F682616BAE364, 0x7, 0x6, 0x1);
    Hex(0x6F68261B57E7A77, 0xDED04C36, 0x6F682616BAE3641, 0x0, 0xA, 0xA);
  }

  lemma ThirdXor()
    ensures Xor(0xE220A838BF5C9DDE, 0x1C4415071) == 0xE220A8397B1DCDAF
  {
    hide Xor;
    XorNothing(0xE220A83);
    Hex(0xE220A83, 0x0, 0xE220A83, 0x8, 0x1, 0x9);
    Hex(0xE220A838, 0x1, 0xE220A839, 0xB, 0xC, 0x7);
    Hex(0xE220A838B, 0x1C, 0xE220A8397, 0xF, 0x4, 0xB);
    Hex(0xE220A838BF, 0x1C4, 0xE220A8397B, 0x5, 0x4, 0x1);
    Hex(0xE220A838BF5, 0x1C44, 0xE220A8397B1, 0xC, 0x1, 0xD);
    Hex(0xE220A838BF5C, 0x1C441, 0xE220A8397B1D, 0x9, 0x5, 0xC);
    Hex(0xE220A838BF5C9, 0x1C4415, 0xE220A8397B1DC, 0xD, 0x0, 0xD);
    Hex(0xE220A838BF5C9D, 0x1C44150, 0xE220A8397B1DCD, 0xD, 0x7, 0xA);
    Hex(0xE220A838BF5C9DD, 0x1C441507, 0xE220A8397B1DCDA, 0xE, 0x1, 0xF);
  }

  /** Ordinal 1 hashes to the first output of splitmix64 seeded with 0. */
  lemma FirstOutput()
    ensures Mix(1) == 0xE220_A839_7B1D_CDAF
  {
    hide Xor, Shr, Pow2;
    Powers();
    FirstXor();
    SecondXor();
    ThirdXor();
    ShrIs(0x9E3779B97F4A7C15, 30);
    ShrIs(0x6F68261B57E7A770, 27);
    ShrIs(0xE220A838BF5C9DDE, 31);
  }
}

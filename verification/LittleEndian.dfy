/** Numbers as bytes, least significant first. */
module LittleEndian {
  import opened Bits

  /** The low bytes of `v`, least significant first: `byte(v), byte(v>>8), ...` */
  function LowBytes(v: int, n: nat): seq<Byte>
    decreases n
  {
    if n == 0 then [] else [v % 0x100] + LowBytes(v / 0x100, n - 1)
  }

  function Zeros(n: nat): seq<Byte> { seq(n, _ => 0) }

  /** An unsigned number from its low bytes. */
  function Unsigned(p: seq<Byte>): nat {
    if p == [] then 0 else p[0] + 0x100 * Unsigned(p[1..])
  }

  lemma {:induction false} LowBytesLen(v: int, n: nat)
    ensures |LowBytes(v, n)| == n
    decreases n
  {
    if n != 0 { LowBytesLen(v / 0x100, n - 1); }
  }

  lemma {:induction false} UnsignedLow(v: int, n: nat)
    ensures 0 < Pow2(8 * n) && Unsigned(LowBytes(v, n)) == v % Pow2(8 * n)
    decreases n
  {
    Pow2Positive(8 * n);
    if n != 0 {
      UnsignedLow(v / 0x100, n - 1);
      Pow2Step(8 * (n - 1));
      SplitMod(v, Pow2(8 * (n - 1)));
    }
  }

  lemma SplitMod(v: int, m: nat)
    requires 0 < m
    ensures v % 0x100 + 0x100 * (v / 0x100 % m) == v % (0x100 * m)
  {
    var lo, hi := v % 0x100, v / 0x100;
    var q, r := hi / m, hi % m;
    assert hi == q * m + r;
    assert v == q * (0x100 * m) + (lo + 0x100 * r);
    ModUnique(v, 0x100 * m, q, lo + 0x100 * r);
  }

  lemma ModUnique(v: int, d: nat, q: int, r: nat)
    requires 0 < d && r < d && v == q * d + r
    ensures v % d == r
  {
    var q', r' := v / d, v % d;
    assert v == q' * d + r';
    if q' < q { MulLe(q' + 1, q, d); }
    if q < q' { MulLe(q + 1, q', d); }
  }

  lemma MulLe(a: int, b: int, d: nat)
    requires a <= b
    ensures a * d <= b * d
  {
  }

  lemma {:induction false} UnsignedBound(p: seq<Byte>)
    ensures Unsigned(p) < Pow2(8 * |p|)
  {
    if p != [] {
      UnsignedBound(p[1..]);
      Pow2Step(8 * |p[1..]|);
    }
  }

  lemma {:induction false} UnsignedZeros(n: nat)
    ensures Unsigned(Zeros(n)) == 0
  {
    if n != 0 {
      assert Zeros(n)[1..] == Zeros(n - 1);
      UnsignedZeros(n - 1);
    }
  }

  lemma {:induction false} LowBytesPrefix(v: int, m: nat, n: nat)
    requires m <= n
    ensures |LowBytes(v, n)| == n && LowBytes(v, n)[..m] == LowBytes(v, m)
    decreases n
  {
    LowBytesLen(v, n);
    if m != 0 { LowBytesPrefix(v / 0x100, m - 1, n - 1); }
  }

  lemma {:induction false} UnsignedUnique(a: seq<Byte>, b: seq<Byte>)
    requires |a| == |b|
    ensures Unsigned(a) == Unsigned(b) <==> a == b
  {
    if a != [] {
      UnsignedUnique(a[1..], b[1..]);
      if Unsigned(a) == Unsigned(b) {
        assert a[0] == Unsigned(a) % 0x100 && b[0] == Unsigned(b) % 0x100;
        assert a == [a[0]] + a[1..] && b == [b[0]] + b[1..];
      }
    }
  }

  lemma FourBytes(a: Byte, b: Byte, c: Byte, d: Byte)
    ensures Unsigned([a, b, c, d]) == a + 0x100 * b + 0x1_0000 * c + 0x100_0000 * d
  {
    assert [a, b, c, d][1..] == [b, c, d] && [b, c, d][1..] == [c, d] && [c, d][1..] == [d] && [d][1..] == [];
    assert Unsigned([d]) == d;
    assert Unsigned([c, d]) == c + 0x100 * d;
    assert Unsigned([b, c, d]) == b + 0x100 * c + 0x1_0000 * d;
  }

  lemma FourLow(x: nat)
    ensures LowBytes(x, 4) == [x % 0x100, x / 0x100 % 0x100, x / 0x100 / 0x100 % 0x100, x / 0x100 / 0x100 / 0x100 % 0x100]
  {
    assert LowBytes(x / 0x100 / 0x100 / 0x100, 1) == [x / 0x100 / 0x100 / 0x100 % 0x100];
    assert LowBytes(x / 0x100 / 0x100, 2) == [x / 0x100 / 0x100 % 0x100] + LowBytes(x / 0x100 / 0x100 / 0x100, 1);
    assert LowBytes(x / 0x100, 3) == [x / 0x100 % 0x100] + LowBytes(x / 0x100 / 0x100, 2);
  }

  // ----- bits -----

  lemma HalfDivided(x: nat, p: nat)
    requires p > 0
    ensures x / 2 / p == x / (2 * p)
  {
    var q, r := x / (2 * p), x % (2 * p);
    assert x == q * (2 * p) + r;
    assert x / 2 == q * p + r / 2 && r / 2 < p;
    ModUnique(x / 2, p, q, r / 2);
  }

  /** Bit `i` of a mask is the one worth 2^i. */
  lemma {:induction false} HasIff(m: nat, i: nat)
    ensures 0 < Pow2(i) && (Has(m, i) <==> m / Pow2(i) % 2 == 1)
    decreases i
  {
    if i != 0 {
      HasIff(m / 2, i - 1);
      HalfDivided(m, Pow2(i - 1));
    }
  }
}

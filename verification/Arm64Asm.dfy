/** The arm64 assembler of the trampoline: fixed 32-bit words with operand fields
    or-ed into a base, and the decoder that reads the fields back. */
module Arm64Asm {
  import opened Wrappers
  import opened Bits

  /** Register numbers as parseReg gives them: 31 is SP or ZR, by context. */
  type Reg = n: nat | n < 32

  const FP: Reg := 29
  const LR: Reg := 30
  const SP: Reg := 31
  const ZR: Reg := 31

  datatype Ins =
    | SubImm(rd: Reg, rn: Reg, imm: int)
    | AddImm(rd: Reg, rn: Reg, imm: int)
    | MovReg(rd: Reg, rm: Reg)
    | Str(rt: Reg, rn: Reg, off: int)
    | Stp(rt: Reg, rt2: Reg, rn: Reg, off: int)
    | Ldp(rt: Reg, rt2: Reg, rn: Reg, off: int)
    | Movz(rd: Reg, imm: int)
    | Movk(rd: Reg, imm: int, shift: int)
    | Blr(rn: Reg)
    | Ret

  // ----- the assembler -----

  /** `uint32(x) << k` */
  function Field(x: int, k: nat): nat {
    ToUint32(Shl(ToUint32(x), k))
  }

  /** Go's `x / 8` truncates toward zero. */
  function Div8(x: int): int {
    if x < 0 then -(-x / 8) else x / 8
  }

  function Word(i: Ins): nat {
    match i
    case SubImm(rd, rn, imm) => Or(Or(Or(0xd100_0000, Field(imm, 10)), Field(rn, 5)), rd)
    case AddImm(rd, rn, imm) => Or(Or(Or(0x9100_0000, Field(imm, 10)), Field(rn, 5)), rd)
    case MovReg(rd, rm) => Or(Or(0xaa00_03e0, Field(rm, 16)), rd)
    case Str(rt, rn, off) => Or(Or(Or(0xf900_0000, Field(ToUint32(off) / 8, 10)), Field(rn, 5)), rt)
    case Stp(rt, rt2, rn, off) =>
      Or(Or(Or(Or(0xa900_0000, Field(Div8(off) % 0x80, 15)), Field(rt2, 10)), Field(rn, 5)), rt)
    case Ldp(rt, rt2, rn, off) =>
      Or(Or(Or(Or(0xa940_0000, Field(Div8(off) % 0x80, 15)), Field(rt2, 10)), Field(rn, 5)), rt)
    case Movz(rd, imm) => Or(Or(0xd280_0000, Field(imm, 5)), rd)
    case Movk(rd, imm, shift) => Or(Or(Or(0xf280_0000, Field(ToUint32(shift) / 16, 21)), Field(imm, 5)), rd)
    case Blr(rn) => Or(0xd63f_0000, Field(rn, 5))
    case Ret => 0xd65f_03c0
  }

  // ----- the decoder -----

  /** Bit fields by their place: Rd, Rn, Rt2, imm12 and so on. */
  function At0(w: nat): nat { w % 0x20 }
  function At5(w: nat): nat { w / 0x20 % 0x20 }
  function At10(w: nat): nat { w / 0x400 % 0x20 }
  function At16(w: nat): nat { w / 0x1_0000 % 0x20 }
  function Imm12(w: nat): nat { w / 0x400 % 0x1000 }
  function Imm16(w: nat): nat { w / 0x20 % 0x1_0000 }
  function Imm7(w: nat): nat { w / 0x8000 % 0x80 }

  function Signed7(x: nat): int { if x < 0x40 then x else x - 0x80 }

  /** The bits from `unit` up, and the sixteen-bit lane of a MOVK. */
  function Top(w: nat, unit: nat): nat
    requires 0 < unit
  {
    w / unit
  }

  function Lane(w: nat): nat { w / 0x20_0000 % 4 }

  function Decode(w: nat): Option<Ins> {
    if w == 0xd65f_03c0 then Some(Ret)
    else if Top(w, 0x400) == 0x358fc0 && At0(w) == 0 then Some(Blr(At5(w)))
    else if Top(w, 0x40_0000) == 0x344 then Some(SubImm(At0(w), At5(w), Imm12(w)))
    else if Top(w, 0x40_0000) == 0x244 then Some(AddImm(At0(w), At5(w), Imm12(w)))
    else if Top(w, 0x40_0000) == 0x3e4 then Some(Str(At0(w), At5(w), Imm12(w) * 8))
    else if Top(w, 0x40_0000) == 0x2a4 then Some(Stp(At0(w), At10(w), At5(w), Signed7(Imm7(w)) * 8))
    else if Top(w, 0x40_0000) == 0x2a5 then Some(Ldp(At0(w), At10(w), At5(w), Signed7(Imm7(w)) * 8))
    else if Top(w, 0x20_0000) == 0x694 then Some(Movz(At0(w), Imm16(w)))
    else if Top(w, 0x80_0000) == 0x1e5 then Some(Movk(At0(w), Imm16(w), Lane(w) * 16))
    else if Top(w, 0x20_0000) == 0x550 && Top(w, 0x20) % 0x800 == 0x1f then Some(MovReg(At0(w), At16(w)))
    else None
  }

  // ----- the fields never overlap -----

  /** Operands that fit their fields; the assembler checks none of this. */
  predicate Fits(i: Ins) {
    match i
    case SubImm(_, _, imm) => 0 <= imm < 0x1000
    case AddImm(_, _, imm) => 0 <= imm < 0x1000
    case Str(_, _, off) => 0 <= off < 0x8000 && off % 8 == 0
    case Stp(_, _, _, off) => -0x200 <= off < 0x200 && off % 8 == 0
    case Ldp(_, _, _, off) => -0x200 <= off < 0x200 && off % 8 == 0
    case Movz(_, imm) => 0 <= imm < 0x1_0000
    case Movk(_, imm, shift) => 0 <= imm < 0x1_0000 && (shift == 0 || shift == 16 || shift == 32 || shift == 48)
    case MovReg(_, _) | Blr(_) | Ret => true
  }

  lemma ShlFive(x: nat, k: nat)
    ensures Shl(x, k + 5) == 0x20 * Shl(x, k)
  {
    assert Shl(x, k + 2) == 4 * Shl(x, k);
    assert Shl(x, k + 4) == 4 * Shl(x, k + 2);
  }

  lemma ShlTable(x: nat)
    ensures Shl(x, 5) == 0x20 * x && Shl(x, 10) == 0x400 * x && Shl(x, 15) == 0x8000 * x
    ensures Shl(x, 16) == 0x1_0000 * x && Shl(x, 21) == 0x20_0000 * x
    ensures Shl(x, 22) == 0x40_0000 * x && Shl(x, 23) == 0x80_0000 * x
    ensures Pow2(5) == 0x20 && Pow2(10) == 0x400 && Pow2(15) == 0x8000 && Pow2(16) == 0x1_0000
    ensures Pow2(21) == 0x20_0000 && Pow2(22) == 0x40_0000 && Pow2(23) == 0x80_0000
  {
    ShlFive(x, 0); ShlFive(x, 5); ShlFive(x, 10); ShlFive(x, 15);
    assert Shl(x, 20) == 0x10_0000 * x;
    assert Shl(x, 22) == 4 * Shl(x, 20);
    Pow2Step(0); Pow2Step(8);
    assert Pow2(2) == 4 && Pow2(5) == 0x20 && Pow2(10) == 4 * Pow2(8);
    assert Pow2(12) == 4 * Pow2(10);
    assert Pow2(14) == 4 * Pow2(12);
    assert Pow2(18) == 4 * Pow2(16);
    assert Pow2(20) == 4 * Pow2(18);
  }

  /** A field whose value fits is just shifted into place ... */
  lemma FieldTable(x: nat)
    ensures x < 0x20 ==> Field(x, 10) == 0x400 * x && Field(x, 16) == 0x1_0000 * x
    ensures x < 0x80 ==> Field(x, 15) == 0x8000 * x
    ensures x < 4 ==> Field(x, 21) == 0x20_0000 * x
    ensures x < 0x1000 ==> Field(x, 10) == 0x400 * x
    ensures x < 0x1_0000 ==> Field(x, 5) == 0x20 * x
  {
    ShlTable(x);
    hide Shl, Pow2;
  }

  /** ... and or-ed below what is already there is added. */
  lemma OrTable(a: nat, lo: nat)
    ensures lo < 0x20 ==> Or(0x20 * a, lo) == 0x20 * a + lo
    ensures lo < 0x400 ==> Or(0x400 * a, lo) == 0x400 * a + lo
    ensures lo < 0x8000 ==> Or(0x8000 * a, lo) == 0x8000 * a + lo
    ensures lo < 0x20_0000 ==> Or(0x20_0000 * a, lo) == 0x20_0000 * a + lo
    ensures lo < 0x40_0000 ==> Or(0x40_0000 * a, lo) == 0x40_0000 * a + lo
    ensures lo < 0x80_0000 ==> Or(0x80_0000 * a, lo) == 0x80_0000 * a + lo
  {
    ShlTable(a);
    hide Shl, Or, Pow2;
    if lo < Pow2(5) { OrDisjoint(a, lo, 5); }
    if lo < Pow2(10) { OrDisjoint(a, lo, 10); }
    if lo < Pow2(15) { OrDisjoint(a, lo, 15); }
    if lo < Pow2(21) { OrDisjoint(a, lo, 21); }
    if lo < Pow2(22) { OrDisjoint(a, lo, 22); }
    if lo < Pow2(23) { OrDisjoint(a, lo, 23); }
  }

  /** base | imm12 << 10 | Rn << 5 | Rd */
  lemma Word3(base: nat, imm: nat, rn: Reg, rd: Reg)
    requires imm < 0x1000
    ensures Or(Or(Or(0x40_0000 * base, Field(imm, 10)), Field(rn, 5)), rd)
         == 0x40_0000 * base + 0x400 * imm + 0x20 * rn + rd
  {
    hide Or, Field;
    FieldTable(imm); FieldTable(rn);
    var a, b := 0x1000 * base + imm, 0x2_0000 * base + 0x20 * imm + rn;
    OrTable(base, 0x400 * imm);
    OrTable(a, 0x20 * rn);
    OrTable(b, rd);
    assert 0x40_0000 * base + 0x400 * imm == 0x400 * a;
    assert 0x400 * a + 0x20 * rn == 0x20 * b;
  }

  lemma Fields3(base: nat, imm: nat, rn: Reg, rd: Reg)
    requires imm < 0x1000
    ensures var w := 0x40_0000 * base + 0x400 * imm + 0x20 * rn + rd;
            w / 0x40_0000 == base && Imm12(w) == imm && At5(w) == rn && At0(w) == rd
  {
    var w := 0x40_0000 * base + 0x400 * imm + 0x20 * rn + rd;
    assert w / 0x20 == 0x2_0000 * base + 0x20 * imm + rn;
    assert w / 0x400 == 0x1000 * base + imm;
  }

  /** base | imm7 << 15 | Rt2 << 10 | Rn << 5 | Rt */
  lemma Word4(base: nat, imm: nat, rt2: Reg, rn: Reg, rt: Reg)
    requires imm < 0x80
    ensures Or(Or(Or(Or(0x40_0000 * base, Field(imm, 15)), Field(rt2, 10)), Field(rn, 5)), rt)
         == 0x40_0000 * base + 0x8000 * imm + 0x400 * rt2 + 0x20 * rn + rt
  {
    hide Or, Field;
    FieldTable(imm); FieldTable(rt2); FieldTable(rn);
    var a, b, c := 0x80 * base + imm, 0x1000 * base + 0x20 * imm + rt2, 0x2_0000 * base + 0x400 * imm + 0x20 * rt2 + rn;
    OrTable(base, 0x8000 * imm);
    OrTable(a, 0x400 * rt2);
    OrTable(b, 0x20 * rn);
    OrTable(c, rt);
    assert 0x40_0000 * base + 0x8000 * imm == 0x8000 * a;
    assert 0x8000 * a + 0x400 * rt2 == 0x400 * b;
    assert 0x400 * b + 0x20 * rn == 0x20 * c;
  }

  lemma Fields4(base: nat, imm: nat, rt2: Reg, rn: Reg, rt: Reg)
    requires imm < 0x80
    ensures var w := 0x40_0000 * base + 0x8000 * imm + 0x400 * rt2 + 0x20 * rn + rt;
            w / 0x40_0000 == base && Imm7(w) == imm && At10(w) == rt2 && At5(w) == rn && At0(w) == rt
  {
    var w := 0x40_0000 * base + 0x8000 * imm + 0x400 * rt2 + 0x20 * rn + rt;
    assert w / 0x20 == 0x2_0000 * base + 0x400 * imm + 0x20 * rt2 + rn;
    assert w / 0x400 == 0x1000 * base + 0x20 * imm + rt2;
    assert w / 0x8000 == 0x80 * base + imm;
  }

  /** base | hw << 21 | imm16 << 5 | Rd, the wide moves */
  lemma WordWide(base: nat, hw: nat, imm: nat, rd: Reg)
    requires hw < 4 && imm < 0x1_0000
    ensures Or(Or(Or(0x80_0000 * base, Field(hw, 21)), Field(imm, 5)), rd)
         == 0x80_0000 * base + 0x20_0000 * hw + 0x20 * imm + rd
    ensures Or(Or(0x20_0000 * base, Field(imm, 5)), rd) == 0x20_0000 * base + 0x20 * imm + rd
  {
    hide Or, Field;
    FieldTable(hw); FieldTable(imm);
    var a, b := 4 * base + hw, 0x4_0000 * base + 0x1_0000 * hw + imm;
    OrTable(base, 0x20_0000 * hw);
    OrTable(a, 0x20 * imm);
    OrTable(b, rd);
    assert 0x80_0000 * base + 0x20_0000 * hw == 0x20_0000 * a;
    assert 0x20_0000 * a + 0x20 * imm == 0x20 * b;
    OrTable(base, 0x20 * imm);
    OrTable(0x1_0000 * base + imm, rd);
    assert 0x20_0000 * base + 0x20 * imm == 0x20 * (0x1_0000 * base + imm);
  }

  lemma FieldsWide(base: nat, hw: nat, imm: nat, rd: Reg)
    requires hw < 4 && imm < 0x1_0000
    ensures var w := 0x80_0000 * base + 0x20_0000 * hw + 0x20 * imm + rd;
            && w / 0x80_0000 == base && w / 0x20_0000 == 4 * base + hw
            && w / 0x20_0000 % 4 == hw && Imm16(w) == imm && At0(w) == rd
  {
    var w := 0x80_0000 * base + 0x20_0000 * hw + 0x20 * imm + rd;
    assert w / 0x20 == 0x4_0000 * base + 0x1_0000 * hw + imm;
    assert w / 0x20_0000 == 4 * base + hw;
  }

  /** 0xaa0003e0 | Rm << 16 | Rd: the base has bits on both sides of Rm. */
  lemma WordMov(rm: Reg, rd: Reg)
    ensures Or(Or(0xaa00_03e0, Field(rm, 16)), rd) == 0xaa00_03e0 + 0x1_0000 * rm + rd
  {
    hide Or, Field, Shl, Pow2;
    FieldTable(rm);
    ShlTable(0xaa00); ShlTable(rm); ShlTable(0xaa00 + rm);
    OrHigh(0xaa00, rm, 0x3e0, 16);
    OrTable(0x550, rm);
    OrTable(0x550_001f + 0x800 * rm, rd);
    assert 0xaa00_03e0 + 0x1_0000 * rm == 0x20 * (0x550_001f + 0x800 * rm);
  }

  lemma FieldsMov(rm: Reg, rd: Reg)
    ensures var w := 0xaa00_03e0 + 0x1_0000 * rm + rd;
            && w / 0x20_0000 == 0x550 && w / 0x20 % 0x800 == 0x1f && At16(w) == rm && At0(w) == rd
  {
    var w := 0xaa00_03e0 + 0x1_0000 * rm + rd;
    assert w / 0x20 == 0x550_001f + 0x800 * rm;
    assert w / 0x1_0000 == 0xaa00 + rm;
  }

  lemma WordBlr(rn: Reg)
    ensures Or(0xd63f_0000, Field(rn, 5)) == 0xd63f_0000 + 0x20 * rn
  {
    hide Or, Field;
    FieldTable(rn);
    OrTable(0x35_8fc0, 0x20 * rn);
  }

  // ----- the round trip -----

  /** A word as the sum of its fields. */
  function Sum(i: Ins): nat
    requires Fits(i)
  {
    match i
    case SubImm(rd, rn, imm) => 0x40_0000 * 0x344 + 0x400 * imm + 0x20 * rn + rd
    case AddImm(rd, rn, imm) => 0x40_0000 * 0x244 + 0x400 * imm + 0x20 * rn + rd
    case Str(rt, rn, off) => 0x40_0000 * 0x3e4 + 0x400 * (off / 8) + 0x20 * rn + rt
    case Stp(rt, rt2, rn, off) => 0x40_0000 * 0x2a4 + 0x8000 * (off / 8 % 0x80) + 0x400 * rt2 + 0x20 * rn + rt
    case Ldp(rt, rt2, rn, off) => 0x40_0000 * 0x2a5 + 0x8000 * (off / 8 % 0x80) + 0x400 * rt2 + 0x20 * rn + rt
    case Movz(rd, imm) => 0x20_0000 * 0x694 + 0x20 * imm + rd
    case Movk(rd, imm, shift) => 0x80_0000 * 0x1e5 + 0x20_0000 * (shift / 16) + 0x20 * imm + rd
    case MovReg(rd, rm) => 0xaa00_03e0 + 0x1_0000 * rm + rd
    case Blr(rn) => 0xd63f_0000 + 0x20 * rn
    case Ret => 0xd65f_03c0
  }

  lemma Offsets(off: int)
    requires off % 8 == 0
    ensures 0 <= off < 0x8000 ==> ToUint32(off) / 8 == off / 8 < 0x1000 && off / 8 * 8 == off
    ensures -0x200 <= off < 0x200 ==>
              Div8(off) % 0x80 == off / 8 % 0x80 < 0x80 && Signed7(off / 8 % 0x80) * 8 == off
  {
    var q := off / 8;
    assert off == 8 * q;
    if -0x200 <= off < 0x200 {
      assert Div8(off) == q by { if off < 0 { assert -off == 8 * -q; } }
      assert -0x40 <= q < 0x40;
      SevenBits(q);
    }
    hide Div8, Signed7;
  }

  lemma SevenBits(q: int)
    requires -0x40 <= q < 0x40
    ensures q % 0x80 < 0x80 && Signed7(q % 0x80) == q
  {
    if q < 0 { assert q % 0x80 == q + 0x80; }
  }

  /** Every emitted word is the plain sum of its fields, none overlapping, and they
      read back. */
  lemma NoOverlap(i: Ins)
    requires Fits(i)
    ensures Word(i) == Sum(i) < W32 && Decode(Sum(i)) == Some(i)
  {
    hide *;
    match i
    case SubImm(rd, rn, imm) => SubWord(rd, rn, imm);
    case AddImm(rd, rn, imm) => AddWord(rd, rn, imm);
    case Str(rt, rn, off) => StrWord(rt, rn, off);
    case Stp(_, _, _, _) => PairWord(i);
    case Ldp(_, _, _, _) => PairWord(i);
    case Movz(rd, imm) => MovzWord(rd, imm);
    case Movk(rd, imm, shift) => MovkWord(rd, imm, shift);
    case MovReg(rd, rm) => MovWord(rd, rm);
    case Blr(rn) => BlrWord(rn);
    case Ret => RetWord();
  }

  lemma MovWord(rd: Reg, rm: Reg)
    ensures var i := MovReg(rd, rm); Word(i) == Sum(i) < W32 && Decode(Sum(i)) == Some(i)
  {
    hide Or, Field, At0, At5, At10, At16, Imm12, Imm16, Imm7;
    WordMov(rm, rd);
    FieldsMov(rm, rd);
  }

  lemma BlrWord(rn: Reg)
    ensures var i := Blr(rn); Word(i) == Sum(i) < W32 && Decode(Sum(i)) == Some(i)
  {
    hide Or, Field, At0, At5, At10, At16, Imm12, Imm16, Imm7;
    WordBlr(rn);
    Fields3(0x358, 0xfc0, rn, 0);
  }

  lemma RetWord()
    ensures Word(Ret) == Sum(Ret) < W32 && Decode(Sum(Ret)) == Some(Ret)
  {
  }

  lemma SubWord(rd: Reg, rn: Reg, imm: int)
    requires Fits(SubImm(rd, rn, imm))
    ensures var i := SubImm(rd, rn, imm); Word(i) == Sum(i) < W32 && Decode(Sum(i)) == Some(i)
  {
    hide Or, Field, At0, At5, At10, At16, Imm12, Imm16, Imm7, ToUint32;
    Word3(0x344, imm, rn, rd);
    Fields3(0x344, imm, rn, rd);
  }

  lemma AddWord(rd: Reg, rn: Reg, imm: int)
    requires Fits(AddImm(rd, rn, imm))
    ensures var i := AddImm(rd, rn, imm); Word(i) == Sum(i) < W32 && Decode(Sum(i)) == Some(i)
  {
    hide Or, Field, At0, At5, At10, At16, Imm12, Imm16, Imm7, ToUint32;
    Word3(0x244, imm, rn, rd);
    Fields3(0x244, imm, rn, rd);
  }

  lemma StrWord(rt: Reg, rn: Reg, off: int)
    requires Fits(Str(rt, rn, off))
    ensures var i := Str(rt, rn, off); Word(i) == Sum(i) < W32 && Decode(Sum(i)) == Some(i)
  {
    Offsets(off);
    hide Or, Field, At0, At5, At10, At16, Imm12, Imm16, Imm7, ToUint32;
    Word3(0x3e4, off / 8, rn, rt);
    Fields3(0x3e4, off / 8, rn, rt);
  }

  lemma PairWord(i: Ins)
    requires Fits(i) && (i.Stp? || i.Ldp?)
    ensures Word(i) == Sum(i) < W32 && Decode(Sum(i)) == Some(i)
  {
    hide *;
    var imm := PairImm(i);
    PairDecodes(i.Ldp?, imm, i.rt2, i.rn, i.rt);
    Word4(if i.Ldp? then 0x2a5 else 0x2a4, imm, i.rt2, i.rn, i.rt);
  }

  lemma PairImm(i: Ins) returns (imm: nat)
    requires Fits(i) && (i.Stp? || i.Ldp?)
    ensures imm < 0x80 && Signed7(imm) * 8 == i.off
    ensures Word(i) == Or(Or(Or(Or(0x40_0000 * (if i.Ldp? then 0x2a5 else 0x2a4), Field(imm, 15)), Field(i.rt2, 10)),
                             Field(i.rn, 5)), i.rt)
    ensures Sum(i) == 0x40_0000 * (if i.Ldp? then 0x2a5 else 0x2a4) + 0x8000 * imm + 0x400 * i.rt2 + 0x20 * i.rn + i.rt
  {
    imm := i.off / 8 % 0x80;
    Offsets(i.off);
    hide Or, Field, Div8, Signed7;
  }

  lemma PairDecodes(load: bool, imm: nat, rt2: Reg, rn: Reg, rt: Reg)
    requires imm < 0x80
    ensures var w := 0x40_0000 * (if load then 0x2a5 else 0x2a4) + 0x8000 * imm + 0x400 * rt2 + 0x20 * rn + rt;
            w < W32 && Decode(w) == Some(if load then Ldp(rt, rt2, rn, Signed7(imm) * 8) else Stp(rt, rt2, rn, Signed7(imm) * 8))
  {
    hide At0, At5, At10, At16, Imm12, Imm16, Imm7, Signed7;
    Fields4(if load then 0x2a5 else 0x2a4, imm, rt2, rn, rt);
  }

  lemma MovzWord(rd: Reg, imm: int)
    requires Fits(Movz(rd, imm))
    ensures var i := Movz(rd, imm); Word(i) == Sum(i) < W32 && Decode(Sum(i)) == Some(i)
  {
    hide Or, Field, At0, At5, At10, At16, Imm12, Imm16, Imm7, Signed7;
    WordWide(0x694, 0, imm, rd);
    FieldsWide(0x1a5, 0, imm, rd);
  }

  lemma MovkWord(rd: Reg, imm: int, shift: int)
    requires Fits(Movk(rd, imm, shift))
    ensures var i := Movk(rd, imm, shift); Word(i) == Sum(i) < W32 && Decode(Sum(i)) == Some(i)
  {
    hide Or, Field, At0, At5, At10, At16, Imm12, Imm16, Imm7, Signed7;
    WordWide(0x1e5, shift / 16, imm, rd);
    FieldsWide(0x1e5, shift / 16, imm, rd);
  }

  lemma DecodedFits(w: nat)
    ensures Decode(w).Some? ==> Fits(Decode(w).value)
  {
    hide Imm12, Imm16, Imm7, Signed7, At0, At5, At10, At16, Top, Lane;
    FieldBounds(w);
  }

  lemma FieldBounds(w: nat)
    ensures Imm12(w) < 0x1000 && Imm16(w) < 0x1_0000 && -0x40 <= Signed7(Imm7(w)) < 0x40 && Lane(w) < 4
  {
  }

  /** An instruction decodes to itself iff its operands fit their fields. */
  lemma RoundTripIff(i: Ins)
    ensures Decode(Word(i)) == Some(i) <==> Fits(i)
  {
    if Fits(i) {
      NoOverlap(i);
    } else {
      hide Decode, Word, Fits;
      DecodedFits(Word(i));
    }
  }
}

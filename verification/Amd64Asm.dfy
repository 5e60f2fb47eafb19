/** The amd64 assembler of the trampoline, and a decoder written from the Intel
    SDM Vol. 2 (sections 2.1.3 to 2.1.5 and 2.2.1) to hold it against. */
module Amd64Asm {
  import opened Bits
  import opened LittleEndian

  /** A 64-bit register by its ModRM number; R13 to R15 are not used. */
  type Reg = n: nat | n < 13

  const RAX: Reg := 0
  const RCX: Reg := 1
  const RDX: Reg := 2
  const RBX: Reg := 3
  const RSP: Reg := 4
  const RBP: Reg := 5
  const RSI: Reg := 6
  const RDI: Reg := 7
  const R8: Reg := 8
  const R9: Reg := 9
  const R10: Reg := 10
  const R11: Reg := 11
  const R12: Reg := 12

  datatype Ins =
    | Push(r: Reg)
    | Pop(r: Reg)
    | SubSP(imm: int)
    | AddSP(imm: int)
    | MovReg(dst: Reg, src: Reg)
    | MovMemReg(base: Reg, disp: int, src: Reg)
    | MovMemImm(base: Reg, disp: int, imm: int)
    | Lea(dst: Reg, base: Reg, disp: int)
    | MovEax(imm: int)
    | MovAbsR12(imm64: nat)
    | CallR12
    | Ret

  // ----- the assembler -----

  /** The mod field and displacement bytes for `disp`. */
  function DispMod(disp: int): nat {
    if disp == 0 then 0 else if -128 <= disp <= 127 then 1 else 2
  }

  function DispBytes(disp: int): seq<Byte> {
    if disp == 0 then [] else if -128 <= disp <= 127 then LowBytes(disp, 1) else LowBytes(disp, 4)
  }

  /** `mod<<6 | (reg&7)<<3 | rm`. Bit 3 of `rm` is not masked off: it lands on the
      low bit of the reg field. */
  function ModRM(mod: nat, reg: nat, rm: nat): Byte
    requires mod < 4 && reg < 16 && rm < 16
  {
    mod * 0x40 + (if rm >= 8 && reg % 2 == 0 then reg % 8 + 1 else reg % 8) * 8 + rm % 8
  }

  lemma ModRMIsBits(mod: bv8, reg: bv8, rm: bv8)
    requires mod < 4 && reg < 16 && rm < 16
    ensures ((mod << 6) | ((reg & 7) << 3) | rm) ==
            mod * 0x40 + (if rm >= 8 && reg % 2 == 0 then reg % 8 + 1 else reg % 8) * 8 + rm % 8
  {
  }

  /** REX.W, with R extending the reg field and B the rm field. */
  function Rex(r: bool, b: bool): Byte {
    0x48 + (if r then 4 else 0) + (if b then 1 else 0)
  }

  /** ModRM, the SIB byte RSP addressing goes through, displacement. */
  function MemOperand(reg: nat, base: Reg, disp: int): seq<Byte>
    requires reg < 16
  {
    [ModRM(DispMod(ToInt32(disp)), reg, base)]
    + (if base % 8 == 4 then [0x24] else [])
    + DispBytes(ToInt32(disp))
  }

  function Encode(i: Ins): seq<Byte> {
    match i
    case Push(r) => [0x50 + r]
    case Pop(r) => [0x58 + r % 8]
    case SubSP(imm) => [0x48, 0x81, 0xec] + LowBytes(imm, 4)
    case AddSP(imm) => [0x48, 0x81, 0xc4] + LowBytes(imm, 4)
    case MovReg(d, s) => [Rex(s >= 8, d >= 8), 0x89, 0xc0 + s % 8 * 8 + d % 8]
    case MovMemReg(b, disp, s) => [Rex(s >= 8, false), 0x89] + MemOperand(s, b, disp)
    case MovMemImm(b, disp, imm) => [0x48, 0xc7] + MemOperand(0, b, disp) + LowBytes(imm, 4)
    case Lea(d, b, disp) => [Rex(d >= 8, false), 0x8d] + MemOperand(d, b, disp)
    case MovEax(imm) => [0xb8] + LowBytes(imm, 4)
    case MovAbsR12(v) => [0x49, 0xbc] + LowBytes(v, 8)
    case CallR12 => [0x41, 0xff, 0xd4]
    case Ret => [0xc3]
  }

  // ----- the decoder -----

  function Signed8(b: Byte): int { if b < 0x80 then b else b - 0x100 }

  function Signed32(p: seq<Byte>): int
    requires |p| == 4
  {
    ToInt32(Unsigned(p))
  }

  datatype Decoded = Decoded(ins: Ins, len: nat) | BadCode

  datatype Operand = Mem(base: Reg, disp: int, len: nat) | Direct(num: nat) | BadOperand

  /** The fields of a ModRM or SIB byte. */
  function HighBits(b: Byte): nat { b / 0x40 }
  function MidBits(b: Byte): nat { b / 8 % 8 }
  function LowBits(b: Byte): nat { b % 8 }

  /** The r/m operand of the ModRM byte at p[0]; `b` is REX.B. */
  function RmOperand(p: seq<Byte>, b: bool): Operand
    requires p != []
  {
    var mod, rm := HighBits(p[0]), LowBits(p[0]);
    var ext := if b then 8 else 0;
    if mod == 3 then Direct(rm + ext)
    else if rm == 4 then
      if |p| < 2 || MidBits(p[1]) != 4 || (mod == 0 && LowBits(p[1]) == 5) then BadOperand  // indexed, or no base
      else BaseDisp(p[2..], mod, LowBits(p[1]) + ext, 2)
    else if mod == 0 && rm == 5 then BadOperand                                             // RIP-relative
    else BaseDisp(p[1..], mod, rm + ext, 1)
  }

  function BaseDisp(p: seq<Byte>, mod: nat, base: nat, used: nat): Operand {
    if base >= 13 then BadOperand
    else if mod == 0 then Mem(base, 0, used)
    else if mod == 1 && |p| >= 1 then Mem(base, Signed8(p[0]), used + 1)
    else if mod == 2 && |p| >= 4 then Mem(base, Signed32(p[..4]), used + 4)
    else BadOperand
  }

  /** The register the reg field names; `r` is REX.R. */
  function RegField(b: Byte, r: bool): nat {
    MidBits(b) + if r then 8 else 0
  }

  /** 81 /5 and 81 /0: SUB and ADD of an imm32, here to RSP only. */
  function DecodeAlu(p: seq<Byte>, b: bool): Decoded {
    if |p| < 5 || RmOperand(p, b) != Direct(RSP) then BadCode
    else if MidBits(p[0]) == 5 then Decoded(SubSP(Signed32(p[1..5])), 7)
    else if MidBits(p[0]) == 0 then Decoded(AddSP(Signed32(p[1..5])), 7)
    else BadCode
  }

  /** 89 /r: MOV r/m64, r64. */
  function DecodeMov(p: seq<Byte>, r: bool, b: bool): Decoded {
    if p == [] || RegField(p[0], r) >= 13 then BadCode
    else
      match RmOperand(p, b)
      case Direct(n) => if n < 13 then Decoded(MovReg(n, RegField(p[0], r)), 3) else BadCode
      case Mem(base, disp, len) => Decoded(MovMemReg(base, disp, RegField(p[0], r)), 2 + len)
      case BadOperand => BadCode
  }

  /** 8D /r: LEA r64, m. */
  function DecodeLea(p: seq<Byte>, r: bool, b: bool): Decoded {
    if p == [] || RegField(p[0], r) >= 13 then BadCode
    else
      match RmOperand(p, b)
      case Mem(base, disp, len) => Decoded(Lea(RegField(p[0], r), base, disp), 2 + len)
      case _ => BadCode
  }

  /** C7 /0: MOV m64, imm32. */
  function DecodeMovImm(p: seq<Byte>, b: bool): Decoded {
    if p == [] || MidBits(p[0]) != 0 then BadCode
    else
      match RmOperand(p, b)
      case Mem(base, disp, len) =>
        if |p| >= len + 4 then Decoded(MovMemImm(base, disp, Signed32(p[len..len + 4])), 6 + len) else BadCode
      case _ => BadCode
  }

  /** Opcode `op` with operands `p` after a REX.W prefix with bits R and B. */
  function DecodeRexW(op: Byte, p: seq<Byte>, r: bool, b: bool): Decoded {
    if op == 0xbc then (if b && !r && |p| >= 8 then Decoded(MovAbsR12(Unsigned(p[..8])), 10) else BadCode)
    else if op == 0x81 then DecodeAlu(p, b)
    else if op == 0x89 then DecodeMov(p, r, b)
    else if op == 0x8d then DecodeLea(p, r, b)
    else if op == 0xc7 then DecodeMovImm(p, b)
    else BadCode
  }

  function Decode(p: seq<Byte>): Decoded {
    if p == [] then BadCode
    else if 0x50 <= p[0] < 0x58 then Decoded(Push(p[0] - 0x50), 1)
    else if 0x58 <= p[0] < 0x60 then Decoded(Pop(p[0] - 0x58), 1)
    else if p[0] == 0xc3 then Decoded(Ret, 1)
    else if p[0] == 0xb8 && |p| >= 5 then Decoded(MovEax(Signed32(p[1..5])), 5)
    else if p[0] == 0x41 && |p| >= 3 && p[1] == 0xff && p[2] == 0xd4 then Decoded(CallR12, 3)
    else if |p| < 2 then BadCode
    else if p[0] == 0x48 then DecodeRexW(p[1], p[2..], false, false)
    else if p[0] == 0x49 then DecodeRexW(p[1], p[2..], false, true)
    else if p[0] == 0x4c then DecodeRexW(p[1], p[2..], true, false)
    else if p[0] == 0x4d then DecodeRexW(p[1], p[2..], true, true)
    else BadCode
  }

  // ----- the round trip -----

  /** The operands the assembler gets right: no extended base register, no RBP
      base without a displacement, no extended PUSH or POP, immediates that fit. */
  predicate Encodable(i: Ins) {
    match i
    case Push(r) => r < 8
    case Pop(r) => r < 8
    case SubSP(imm) => IsInt32(imm)
    case AddSP(imm) => IsInt32(imm)
    case MovReg(_, _) => true
    case MovMemReg(b, disp, _) => MemOk(b, disp)
    case MovMemImm(b, disp, imm) => MemOk(b, disp) && IsInt32(imm)
    case Lea(_, b, disp) => MemOk(b, disp)
    case MovEax(imm) => IsInt32(imm)
    case MovAbsR12(v) => v < W64
    case CallR12 | Ret => true
  }

  predicate MemOk(b: Reg, disp: int) {
    b < 8 && IsInt32(disp) && !(b == RBP && disp == 0)
  }

  /** Immediates and displacements read back. */
  lemma Imm32(v: int)
    ensures |LowBytes(v, 4)| == 4 && Signed32(LowBytes(v, 4)) == ToInt32(v)
  {
    LowBytesLen(v, 4);
    UnsignedLow(v, 4);
    Pow2Of64();
    Wraps(v);
    hide ToInt32, LowBytes, Unsigned, Pow2;
  }

  lemma Wraps(v: int)
    ensures ToInt32(v % W32) == ToInt32(v)
  {
  }

  lemma Imm64(v: nat)
    ensures |LowBytes(v, 8)| == 8 && Unsigned(LowBytes(v, 8)) == v % W64
  {
    LowBytesLen(v, 8);
    UnsignedLow(v, 8);
    Pow2Of64();
  }

  lemma Disp8(disp: int)
    requires -128 <= disp <= 127
    ensures |LowBytes(disp, 1)| == 1 && Signed8(LowBytes(disp, 1)[0]) == disp
  {
    LowBytesLen(disp, 1);
  }

  lemma ModRMFields(mod: nat, reg: nat, rm: nat)
    requires mod < 4 && reg < 16 && rm < 8
    ensures var b := ModRM(mod, reg, rm); HighBits(b) == mod && MidBits(b) == reg % 8 && LowBits(b) == rm
  {
    Fields(mod, reg % 8, rm);
  }

  lemma Fields(x: nat, y: nat, z: nat)
    requires x < 4 && y < 8 && z < 8
    ensures var b := x * 0x40 + y * 8 + z; b < 256 && HighBits(b) == x && MidBits(b) == y && LowBits(b) == z
  {
    var b := x * 0x40 + y * 8 + z;
    assert b == 8 * (8 * x + y) + z;
    assert b / 8 == 8 * x + y;
  }

  lemma BaseDispRoundTrip(base: Reg, disp: int, rest: seq<Byte>, used: nat)
    requires IsInt32(disp)
    ensures BaseDisp(DispBytes(disp) + rest, DispMod(disp), base, used) == Mem(base, disp, used + |DispBytes(disp)|)
  {
    if -128 <= disp <= 127 { Disp8(disp); } else { Imm32(disp); Kept(disp); }
    hide LowBytes, Unsigned, ToInt32, Signed8;
    if disp < -128 || 127 < disp {
      assert (LowBytes(disp, 4) + rest)[..4] == LowBytes(disp, 4);
    }
  }

  lemma Kept(v: int)
    requires IsInt32(v)
    ensures ToInt32(v) == v
  {
  }

  /** A memory operand reads back, whatever follows it. */
  lemma MemRoundTrip(reg: nat, base: Reg, disp: int, rest: seq<Byte>)
    requires reg < 16 && MemOk(base, disp)
    ensures var m := MemOperand(reg, base, disp);
            && RmOperand(m + rest, false) == Mem(base, disp, |m|)
            && MidBits(m[0]) == reg % 8
  {
    Kept(disp);
    ModRMFields(DispMod(disp), reg, base);
    BaseDispRoundTrip(base, disp, rest, if base == RSP then 2 else 1);
    assert DispMod(disp) < 3 && (DispMod(disp) == 0 <==> disp == 0);
    assert MidBits(0x24) == 4 && LowBits(0x24) == 4;
    var head := [ModRM(DispMod(disp), reg, base)] + if base == RSP then [0x24] else [];
    var d := DispBytes(disp);
    hide ModRM, BaseDisp, DispBytes, DispMod, HighBits, MidBits, LowBits, ToInt32;
    assert MemOperand(reg, base, disp) == head + d;
    Assoc(head, d, rest);
    var p := head + (d + rest);
    assert p[0] == head[0];
    if base == RSP {
      assert p[1] == 0x24;
      assert p[2..] == d + rest;
    } else {
      assert p[1..] == d + rest;
    }
  }

  lemma Assoc(a: seq<Byte>, b: seq<Byte>, c: seq<Byte>)
    ensures (a + b) + c == a + (b + c)
  {
  }

  lemma RexStep(r: bool, b: bool, op: Byte, p: seq<Byte>)
    ensures Decode([Rex(r, b), op] + p) == DecodeRexW(op, p, r, b)
  {
    hide DecodeRexW;
    var q := [Rex(r, b), op] + p;
    assert q[2..] == p;
  }

  /** The register in a reg field comes back with its REX.R bit. */
  lemma RegFieldRoundTrip(m: Byte, r: Reg)
    requires MidBits(m) == r % 8
    ensures RegField(m, r >= 8) == r
  {
  }

  lemma MovMemRegRoundTrip(base: Reg, disp: int, src: Reg, rest: seq<Byte>)
    requires MemOk(base, disp)
    ensures var e := Encode(MovMemReg(base, disp, src));
            Decode(e + rest) == Decoded(MovMemReg(base, disp, src), |e|)
  {
    var m := MemOperand(src, base, disp);
    MemRoundTrip(src, base, disp, rest);
    RegFieldRoundTrip(m[0], src);
    RexStep(src >= 8, false, 0x89, m + rest);
    Assoc([Rex(src >= 8, false), 0x89], m, rest);
    hide MemOperand, RmOperand, RegField, Decode, Rex, MidBits, MemOk;
    assert (m + rest)[0] == m[0];
    assert DecodeMov(m + rest, src >= 8, false) == Decoded(MovMemReg(base, disp, src), 2 + |m|);
    hide DecodeMov;
  }

  lemma LeaRoundTrip(dst: Reg, base: Reg, disp: int, rest: seq<Byte>)
    requires MemOk(base, disp)
    ensures var e := Encode(Lea(dst, base, disp));
            Decode(e + rest) == Decoded(Lea(dst, base, disp), |e|)
  {
    var m := MemOperand(dst, base, disp);
    MemRoundTrip(dst, base, disp, rest);
    RegFieldRoundTrip(m[0], dst);
    RexStep(dst >= 8, false, 0x8d, m + rest);
    Assoc([Rex(dst >= 8, false), 0x8d], m, rest);
    hide MemOperand, RmOperand, RegField, Decode, Rex, MidBits, MemOk;
    assert (m + rest)[0] == m[0];
    assert DecodeLea(m + rest, dst >= 8, false) == Decoded(Lea(dst, base, disp), 2 + |m|);
    hide DecodeLea;
  }

  lemma DecodeMovImmAt(m: seq<Byte>, v: seq<Byte>, rest: seq<Byte>, base: Reg, disp: int)
    requires m != [] && |v| == 4 && MidBits(m[0]) == 0
    requires RmOperand(m + (v + rest), false) == Mem(base, disp, |m|)
    ensures DecodeMovImm(m + (v + rest), false) == Decoded(MovMemImm(base, disp, Signed32(v)), 6 + |m|)
  {
    hide RmOperand, MidBits, Signed32;
    var p := m + (v + rest);
    assert p[|m|..|m| + 4] == v;
    assert p[0] == m[0];
  }

  lemma MovMemImmRoundTrip(base: Reg, disp: int, imm: int, rest: seq<Byte>)
    requires MemOk(base, disp) && IsInt32(imm)
    ensures var e := Encode(MovMemImm(base, disp, imm));
            Decode(e + rest) == Decoded(MovMemImm(base, disp, imm), |e|)
  {
    var m := MemOperand(0, base, disp);
    var v := LowBytes(imm, 4);
    MemRoundTrip(0, base, disp, v + rest);
    Imm32(imm);
    Kept(imm);
    DecodeMovImmAt(m, v, rest, base, disp);
    RexStep(false, false, 0xc7, m + (v + rest));
    Assoc([0x48, 0xc7] + m, v, rest);
    Assoc([0x48, 0xc7], m, v + rest);
    hide MemOperand, RmOperand, LowBytes, Signed32, ToInt32, MidBits, Decode, MemOk, DecodeMovImm;
  }

  lemma MovRegRoundTrip(dst: Reg, src: Reg, rest: seq<Byte>)
    ensures Decode(Encode(MovReg(dst, src)) + rest) == Decoded(MovReg(dst, src), 3)
  {
    var m: Byte := 0xc0 + src % 8 * 8 + dst % 8;
    Fields(3, src % 8, dst % 8);
    RegFieldRoundTrip(m, src);
    RexStep(src >= 8, dst >= 8, 0x89, [m] + rest);
    hide RegField, Decode, Rex, HighBits, MidBits, LowBits;
    assert Encode(MovReg(dst, src)) + rest == [Rex(src >= 8, dst >= 8), 0x89] + ([m] + rest);
  }

  lemma DecodeAluAt(m: Byte, v: seq<Byte>, rest: seq<Byte>)
    requires |v| == 4 && (m == 0xc4 || m == 0xec)
    ensures DecodeAlu([m] + (v + rest), false) ==
            Decoded(if m == 0xc4 then AddSP(Signed32(v)) else SubSP(Signed32(v)), 7)
  {
    assert HighBits(m) == 3 && LowBits(m) == 4 && MidBits(m) == if m == 0xc4 then 0 else 5;
    hide Signed32, HighBits, MidBits, LowBits;
    assert ([m] + (v + rest))[1..5] == v;
  }

  lemma SPImmRoundTrip(add: bool, imm: int, rest: seq<Byte>)
    requires IsInt32(imm)
    ensures var i := if add then AddSP(imm) else SubSP(imm); Decode(Encode(i) + rest) == Decoded(i, 7)
  {
    var m: Byte := if add then 0xc4 else 0xec;
    var v := LowBytes(imm, 4);
    Imm32(imm);
    Kept(imm);
    DecodeAluAt(m, v, rest);
    RexStep(false, false, 0x81, [m] + (v + rest));
    Assoc([0x48, 0x81, m], v, rest);
    Assoc([0x48, 0x81], [m], v + rest);
    hide LowBytes, Signed32, ToInt32, Decode, DecodeAlu;
    assert [0x48, 0x81] + [m] == [0x48, 0x81, m];
  }

  lemma MovEaxRoundTrip(imm: int, rest: seq<Byte>)
    requires IsInt32(imm)
    ensures Decode(Encode(MovEax(imm)) + rest) == Decoded(MovEax(imm), 5)
  {
    Imm32(imm);
    Kept(imm);
    hide LowBytes, Signed32, ToInt32, DecodeRexW;
    assert (Encode(MovEax(imm)) + rest)[1..5] == LowBytes(imm, 4);
  }

  lemma MovAbsRoundTrip(v: nat, rest: seq<Byte>)
    requires v < W64
    ensures Decode(Encode(MovAbsR12(v)) + rest) == Decoded(MovAbsR12(v), 10)
  {
    Imm64(v);
    var p := LowBytes(v, 8) + rest;
    RexStep(false, true, 0xbc, p);
    hide LowBytes, Unsigned, Decode;
    assert Encode(MovAbsR12(v)) + rest == [Rex(false, true), 0xbc] + p;
    assert p[..8] == LowBytes(v, 8);
  }

  /** Every encodable instruction decodes to itself and to its own length, whatever
      bytes follow it. */
  lemma RoundTrip(i: Ins, rest: seq<Byte>)
    requires Encodable(i)
    ensures Encode(i) != [] && Decode(Encode(i) + rest) == Decoded(i, |Encode(i)|)
  {
    match i
    case MovReg(d, s) => MovRegRoundTrip(d, s, rest);
    case MovMemReg(b, disp, s) => MovMemRegRoundTrip(b, disp, s, rest);
    case MovMemImm(b, disp, imm) => MovMemImmRoundTrip(b, disp, imm, rest);
    case Lea(d, b, disp) => LeaRoundTrip(d, b, disp, rest);
    case SubSP(imm) => SPImmRoundTrip(false, imm, rest); LowBytesLen(imm, 4);
    case AddSP(imm) => SPImmRoundTrip(true, imm, rest); LowBytesLen(imm, 4);
    case MovEax(imm) => MovEaxRoundTrip(imm, rest); LowBytesLen(imm, 4);
    case MovAbsR12(v) => MovAbsRoundTrip(v, rest); LowBytesLen(v, 8);
    case _ =>
  }

  /** Without REX.B no operand has an extended base; displacements are int32s. */
  lemma OperandRange(p: seq<Byte>)
    requires p != []
    ensures RmOperand(p, false).Mem? ==> RmOperand(p, false).base < 8 && IsInt32(RmOperand(p, false).disp)
  {
  }

  /** RBP as a base needs a displacement byte even for zero; none is emitted, and
      mod 0 with rm 5 means something else. */
  lemma RbpNeedsDisp(reg: nat, rest: seq<Byte>)
    requires reg < 16
    ensures RmOperand(MemOperand(reg, RBP, 0) + rest, false) == BadOperand
  {
    ModRMFields(0, reg, RBP);
    hide ModRM, HighBits, LowBits;
    assert (MemOperand(reg, RBP, 0) + rest)[0] == ModRM(0, reg, RBP);
  }

  /** A memory instruction that decodes to itself has a base and displacement the
      assembler handles. */
  lemma MemMustBeOk(reg: nat, base: Reg, disp: int, rest: seq<Byte>)
    requires reg < 16 && !MemOk(base, disp)
    ensures var o := RmOperand(MemOperand(reg, base, disp) + rest, false);
            !(o.Mem? && o.base == base && o.disp == disp)
  {
    if base == RBP && disp == 0 {
      RbpNeedsDisp(reg, rest);
    } else {
      OperandRange(MemOperand(reg, base, disp) + rest);
      hide RmOperand, MemOperand;
    }
  }

  /** The condition is exact: an instruction decodes to itself iff it is encodable. */
  lemma RoundTripIff(i: Ins)
    ensures Decode(Encode(i)) == Decoded(i, |Encode(i)|) <==> Encodable(i)
  {
    hide Encode, Decode, Encodable;
    assert Encode(i) + [] == Encode(i);
    if Encodable(i) { RoundTrip(i, []); } else { NotEncodable(i); }
  }

  lemma NotEncodable(i: Ins)
    requires !Encodable(i)
    ensures !(Decode(Encode(i)).Decoded? && Decode(Encode(i)).ins == i)
  {
    match i
    case MovMemReg(b, disp, s) => MovMemRegBad(b, disp, s);
    case Lea(d, b, disp) => LeaBad(d, b, disp);
    case MovMemImm(b, disp, imm) => MovMemImmBad(b, disp, imm);
    case MovAbsR12(v) =>
      Imm64(v);
      RexStep(false, true, 0xbc, LowBytes(v, 8));
      hide LowBytes, Unsigned, Decode;
      assert LowBytes(v, 8)[..8] == LowBytes(v, 8);
    case _ => ImmBad(i);
  }

  lemma ImmBad(i: Ins)
    requires !Encodable(i) && (i.Push? || i.Pop? || i.SubSP? || i.AddSP? || i.MovEax?)
    ensures !(Decode(Encode(i)).Decoded? && Decode(Encode(i)).ins == i)
  {
    match i
    case SubSP(imm) => RexStep(false, false, 0x81, [0xec] + LowBytes(imm, 4));
      hide LowBytes, Unsigned, Decode;
      assert [0x48, 0x81, 0xec] + LowBytes(imm, 4) == [0x48, 0x81] + ([0xec] + LowBytes(imm, 4));
    case AddSP(imm) => RexStep(false, false, 0x81, [0xc4] + LowBytes(imm, 4));
      hide LowBytes, Unsigned, Decode;
      assert [0x48, 0x81, 0xc4] + LowBytes(imm, 4) == [0x48, 0x81] + ([0xc4] + LowBytes(imm, 4));
    case _ =>
  }

  lemma MovMemRegBad(base: Reg, disp: int, src: Reg)
    requires !MemOk(base, disp)
    ensures var o := Decode(Encode(MovMemReg(base, disp, src)));
            !(o.Decoded? && o.ins == MovMemReg(base, disp, src))
  {
    var m := MemOperand(src, base, disp);
    MemMustBeOk(src, base, disp, []);
    RexStep(src >= 8, false, 0x89, m);
    hide MemOperand, RmOperand, RegField, Decode, Rex, MemOk;
    assert m + [] == m;
  }

  lemma LeaBad(dst: Reg, base: Reg, disp: int)
    requires !MemOk(base, disp)
    ensures var o := Decode(Encode(Lea(dst, base, disp))); !(o.Decoded? && o.ins == Lea(dst, base, disp))
  {
    var m := MemOperand(dst, base, disp);
    MemMustBeOk(dst, base, disp, []);
    RexStep(dst >= 8, false, 0x8d, m);
    hide MemOperand, RmOperand, RegField, Decode, Rex, MemOk;
    assert m + [] == m;
  }

  lemma MovMemImmBad(base: Reg, disp: int, imm: int)
    requires !(MemOk(base, disp) && IsInt32(imm))
    ensures var o := Decode(Encode(MovMemImm(base, disp, imm)));
            !(o.Decoded? && o.ins == MovMemImm(base, disp, imm))
  {
    var m := MemOperand(0, base, disp);
    var v := LowBytes(imm, 4);
    if !MemOk(base, disp) { MemMustBeOk(0, base, disp, v); }
    RexStep(false, false, 0xc7, m + v);
    Assoc([0x48, 0xc7], m, v);
    hide MemOperand, RmOperand, MidBits, Decode, MemOk, LowBytes, Unsigned;
  }

  /** No encoding is a proper prefix of another. */
  lemma PrefixFree(i: Ins, j: Ins)
    requires Encodable(i) && Encodable(j) && Encode(i) <= Encode(j)
    ensures i == j
  {
    hide *;
    var rest := Encode(j)[|Encode(i)|..];
    RoundTrip(i, rest);
    RoundTrip(j, []);
    assert Encode(j) + [] == Encode(j);
    assert Encode(i) + rest == Encode(j);
  }

  // ----- whole programs -----

  function EncodeAll(prog: seq<Ins>): seq<Byte> {
    if prog == [] then [] else Encode(prog[0]) + EncodeAll(prog[1..])
  }

  lemma {:induction false} EncodeAllAppend(a: seq<Ins>, b: seq<Ins>)
    ensures EncodeAll(a + b) == EncodeAll(a) + EncodeAll(b)
  {
    if a == [] {
      assert a + b == b;
    } else {
      assert (a + b)[1..] == a[1..] + b;
      EncodeAllAppend(a[1..], b);
    }
  }

  /** Where instruction `k` starts. */
  function Offset(prog: seq<Ins>, k: nat): nat
    requires k <= |prog|
  {
    |EncodeAll(prog[..k])|
  }

  /** At the start of each instruction the decoder finds that instruction and
      nothing else, however long the ones before it are. */
  lemma DecodeAt(prog: seq<Ins>, k: nat)
    requires k < |prog| && forall j :: 0 <= j < |prog| ==> Encodable(prog[j])
    ensures Offset(prog, k) < Offset(prog, k + 1) <= |EncodeAll(prog)|
    ensures Decode(EncodeAll(prog)[Offset(prog, k)..]) == Decoded(prog[k], Offset(prog, k + 1) - Offset(prog, k))
  {
    hide Encode, Decode, Encodable;
    var before, after := prog[..k], prog[k + 1..];
    assert prog == before + ([prog[k]] + after);
    assert prog[..k + 1] == before + [prog[k]];
    EncodeAllAppend(before, [prog[k]] + after);
    EncodeAllAppend([prog[k]], after);
    EncodeAllAppend(before, [prog[k]]);
    assert EncodeAll([prog[k]]) == Encode(prog[k]);
    RoundTrip(prog[k], EncodeAll(after));
    assert EncodeAll(prog)[Offset(prog, k)..] == Encode(prog[k]) + EncodeAll(after);
  }
}

/** A small arm64 machine running four-byte words. */
module Arm64Cpu {
  import opened Wrappers
  import opened Bits
  import opened LittleEndian
  import opened Arm64Asm
  import opened Arm64Stub

  /** X0 to X30, the stack pointer, and memory words by address; only addresses in
      the map are mapped. */
  datatype Machine = Machine(x: seq<int>, sp: int, mem: map<int, int>)

  predicate MachineOk(m: Machine) {
    |m.x| == 31
  }

  datatype Cpu = Cpu(m: Machine, ip: int)

  function Wrap(v: int): nat { v % W64 }

  /** Register 31 reads as SP in address and add/subtract operands ... */
  function BaseReg(m: Machine, r: Reg): int
    requires MachineOk(m)
  {
    if r == SP then m.sp else m.x[r]
  }

  /** ... and as zero elsewhere. */
  function DataReg(m: Machine, r: Reg): int
    requires MachineOk(m)
  {
    if r == ZR then 0 else m.x[r]
  }

  function SetBase(m: Machine, r: Reg, v: int): (q: Machine)
    requires MachineOk(m)
    ensures MachineOk(q)
  {
    if r == SP then m.(sp := v) else m.(x := m.x[r := v])
  }

  function SetData(m: Machine, r: Reg, v: int): (q: Machine)
    requires MachineOk(m)
    ensures MachineOk(q)
  {
    if r == ZR then m else m.(x := m.x[r := v])
  }

  function Store(m: Machine, addr: int, v: int): (r: Option<Machine>)
    requires MachineOk(m)
    ensures r.Some? ==> MachineOk(r.value)
  {
    if addr in m.mem then Some(m.(mem := m.mem[addr := v])) else None
  }

  function ScaleOf(shift: int): nat {
    if shift == 16 then 0x1_0000 else if shift == 32 then 0x1_0000_0000
    else if shift == 48 then 0x1_0000_0000_0000 else 1
  }

  /** `x` with the sixteen bits at `shift` replaced: what MOVK does. */
  function Insert(x: int, imm: int, shift: int): int {
    x - x / ScaleOf(shift) % 0x1_0000 * ScaleOf(shift) + imm * ScaleOf(shift)
  }

  predicate IsStraight(i: Ins) {
    !i.Blr? && !i.Ret?
  }

  function Effect(i: Ins, m: Machine): (r: Option<Machine>)
    requires MachineOk(m) && IsStraight(i)
    ensures r.Some? ==> MachineOk(r.value)
  {
    match i
    case SubImm(rd, rn, imm) => Some(SetBase(m, rd, Wrap(BaseReg(m, rn) - imm)))
    case AddImm(rd, rn, imm) => Some(SetBase(m, rd, Wrap(BaseReg(m, rn) + imm)))
    case MovReg(rd, rm) => Some(SetData(m, rd, DataReg(m, rm)))
    case Str(rt, rn, off) => Store(m, Wrap(BaseReg(m, rn) + off), DataReg(m, rt))
    case Stp(rt, rt2, rn, off) =>
      (match Store(m, Wrap(BaseReg(m, rn) + off), DataReg(m, rt))
       case None => None
       case Some(m1) => Store(m1, Wrap(BaseReg(m, rn) + off + 8), DataReg(m, rt2)))
    case Ldp(rt, rt2, rn, off) =>
      var a := Wrap(BaseReg(m, rn) + off);
      var b := Wrap(BaseReg(m, rn) + off + 8);
      if a in m.mem && b in m.mem then Some(SetData(SetData(m, rt, m.mem[a]), rt2, m.mem[b])) else None
    case Movz(rd, imm) => Some(SetData(m, rd, imm))
    case Movk(rd, imm, shift) => Some(SetData(m, rd, Insert(DataReg(m, rd), imm, shift)))
  }

  function Exec(i: Ins, m: Machine, next: int): (r: Option<Cpu>)
    requires MachineOk(m)
    ensures r.Some? ==> MachineOk(r.value.m)
  {
    match i
    case Blr(rn) => Some(Cpu(SetData(m, LR, next), DataReg(m, rn)))
    case Ret => Some(Cpu(m, m.x[30]))
    case _ =>
      match Effect(i, m)
      case None => None
      case Some(m') => Some(Cpu(m', next))
  }

  /** One step over code bytes placed at address `text`. */
  function Step(code: seq<Byte>, text: int, c: Cpu): (r: Option<Cpu>)
    requires MachineOk(c.m)
    ensures r.Some? ==> MachineOk(r.value.m)
  {
    var off := c.ip - text;
    if !(0 <= off && off + 4 <= |code|) then None
    else
      match Decode(Unsigned(code[off..off + 4]))
      case None => None
      case Some(i) => Exec(i, c.m, c.ip + 4)
  }

  function Run(code: seq<Byte>, text: int, c: Cpu, n: nat): (r: Option<Cpu>)
    requires MachineOk(c.m)
    ensures r.Some? ==> MachineOk(r.value.m)
    decreases n
  {
    if n == 0 then Some(c)
    else
      match Step(code, text, c)
      case None => None
      case Some(d) => Run(code, text, d, n - 1)
  }

  lemma {:induction false} RunSplit(code: seq<Byte>, text: int, c: Cpu, a: nat, b: nat)
    requires MachineOk(c.m)
    ensures Run(code, text, c, a + b) ==
            match Run(code, text, c, a) case None => None case Some(d) => Run(code, text, d, b)
    decreases a
  {
    hide Step;
    if a != 0 && Step(code, text, c).Some? { RunSplit(code, text, Step(code, text, c).value, a - 1, b); }
  }

  function Effects(prog: seq<Ins>, m: Machine): (r: Option<Machine>)
    requires MachineOk(m) && forall k :: 0 <= k < |prog| ==> IsStraight(prog[k])
    ensures r.Some? ==> MachineOk(r.value)
  {
    if prog == [] then Some(m)
    else
      match Effect(prog[0], m)
      case None => None
      case Some(m') => Effects(prog[1..], m')
  }

  lemma {:induction false} EffectsAppend(a: seq<Ins>, b: seq<Ins>, m: Machine)
    requires MachineOk(m)
    requires forall k :: 0 <= k < |a| ==> IsStraight(a[k])
    requires forall k :: 0 <= k < |b| ==> IsStraight(b[k])
    ensures Effects(a + b, m) == match Effects(a, m) case None => None case Some(m') => Effects(b, m')
  {
    hide Effect;
    if a == [] {
      assert a + b == b;
    } else {
      assert (a + b)[1..] == a[1..] + b;
      if Effect(a[0], m).Some? { EffectsAppend(a[1..], b, Effect(a[0], m).value); }
    }
  }

  lemma EffectsStep(prog: seq<Ins>, k: nat, m: Machine)
    requires MachineOk(m) && k < |prog| && forall j :: 0 <= j < |prog| ==> IsStraight(prog[j])
    ensures Effects(prog[k..], m) ==
            match Effect(prog[k], m) case None => None case Some(m') => Effects(prog[k + 1..], m')
  {
    hide Effect;
    assert prog[k..][1..] == prog[k + 1..];
  }

  lemma NoEffects(m: Machine)
    requires MachineOk(m)
    ensures Effects([], m) == Some(m)
  {
  }

  lemma OneEffect(i: Ins, m: Machine)
    requires MachineOk(m) && IsStraight(i)
    ensures Effects([i], m) == Effect(i, m)
  {
    hide Effect;
    EffectsStep([i], 0, m);
    assert [i][0..] == [i] && [i][1..] == [];
    if Effect(i, m).Some? { NoEffects(Effect(i, m).value); }
  }

  // ----- the code bytes -----

  lemma {:induction false} WordAt(prog: seq<Ins>, k: nat)
    requires k < |prog|
    ensures |EncodeAll(prog)| == 4 * |prog|
    ensures EncodeAll(prog)[4 * k..4 * k + 4] == LowBytes(Word(prog[k]), 4)
    decreases |prog|
  {
    hide Word, LowBytes;
    var last := |prog| - 1;
    var init, w := EncodeAll(prog[..last]), LowBytes(Word(prog[last]), 4);
    LowBytesLen(Word(prog[last]), 4);
    if last == 0 {
      assert init == [];
    } else if k < last {
      WordAt(prog[..last], k);
      assert (init + w)[4 * k..4 * k + 4] == init[4 * k..4 * k + 4];
    } else {
      WordAt(prog[..last], 0);
      assert (init + w)[4 * k..4 * k + 4] == w;
    }
  }

  /** Word `k` of the code is the `k`'th instruction. */
  lemma FetchAt(prog: seq<Ins>, k: nat)
    requires k < |prog| && forall j :: 0 <= j < |prog| ==> Fits(prog[j])
    ensures |EncodeAll(prog)| == 4 * |prog|
    ensures Decode(Unsigned(EncodeAll(prog)[4 * k..4 * k + 4])) == Some(prog[k])
  {
    hide *;
    WordAt(prog, k);
    WordReads(prog[k]);
  }

  lemma WordReads(i: Ins)
    requires Fits(i)
    ensures Decode(Unsigned(LowBytes(Word(i), 4))) == Some(i)
  {
    hide *;
    NoOverlap(i);
    UnsignedLow(Word(i), 4);
    Pow2Of64();
    Small32(Word(i));
  }

  lemma Small32(x: nat)
    requires x < W32
    ensures x % W32 == x
  {
  }

  lemma ProgStep(prog: seq<Ins>, text: int, k: nat, m: Machine)
    requires MachineOk(m) && k < |prog| && forall j :: 0 <= j < |prog| ==> Fits(prog[j])
    ensures Step(EncodeAll(prog), text, Cpu(m, text + 4 * k)) == Exec(prog[k], m, text + 4 * (k + 1))
  {
    hide EncodeAll, Exec, Decode, Unsigned, Fits;
    FetchAt(prog, k);
  }

  lemma {:induction false} RunStraight(prog: seq<Ins>, text: int, k: nat, n: nat, m: Machine)
    requires MachineOk(m) && k + n <= |prog| && forall j :: 0 <= j < |prog| ==> Fits(prog[j])
    requires forall j :: k <= j < k + n ==> IsStraight(prog[j])
    ensures Run(EncodeAll(prog), text, Cpu(m, text + 4 * k), n) ==
            match Effects(prog[k..k + n], m)
            case None => None
            case Some(m') => Some(Cpu(m', text + 4 * (k + n)))
    decreases n
  {
    hide Effect, EncodeAll, Step, Fits;
    if n != 0 {
      ProgStep(prog, text, k, m);
      assert prog[k..k + n][1..] == prog[k + 1..k + n];
      if Effect(prog[k], m).Some? { RunStraight(prog, text, k + 1, n - 1, Effect(prog[k], m).value); }
    } else {
      assert prog[k..k + n] == [];
    }
  }
}

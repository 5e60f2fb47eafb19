/** A small amd64 machine: thirteen registers, memory as 64-bit words, and a
    fetch-decode-execute step over code bytes. */
module Amd64Cpu {
  import opened Wrappers
  import opened Bits
  import opened Amd64Asm

  /** Registers by number, memory words by address. Only addresses in the map are
      mapped; touching any other faults. */
  datatype Machine = Machine(regs: seq<int>, mem: map<int, int>)

  predicate MachineOk(m: Machine) {
    |m.regs| == 13
  }

  datatype Cpu = Cpu(m: Machine, ip: int)

  function Word(x: int): nat { x % W64 }

  function Store(m: Machine, addr: int, v: int): Option<Machine> {
    if addr in m.mem then Some(m.(mem := m.mem[addr := v])) else None
  }

  function SetReg(m: Machine, r: Reg, v: int): Machine
    requires MachineOk(m)
  {
    m.(regs := m.regs[r := v])
  }

  predicate IsStraight(i: Ins) {
    !i.CallR12? && !i.Ret?
  }

  /** The effect of an instruction that does not transfer control. */
  function Effect(i: Ins, m: Machine): (r: Option<Machine>)
    requires MachineOk(m) && IsStraight(i)
    ensures r.Some? ==> MachineOk(r.value)
  {
    match i
    case Push(r) =>
      var sp := Word(m.regs[RSP] - 8);
      Store(SetReg(m, RSP, sp), sp, m.regs[r])
    case Pop(r) =>
      if m.regs[RSP] in m.mem then
        Some(SetReg(SetReg(m, RSP, Word(m.regs[RSP] + 8)), r, m.mem[m.regs[RSP]]))
      else None
    case SubSP(imm) => Some(SetReg(m, RSP, Word(m.regs[RSP] - imm)))
    case AddSP(imm) => Some(SetReg(m, RSP, Word(m.regs[RSP] + imm)))
    case MovReg(d, s) => Some(SetReg(m, d, m.regs[s]))
    case MovMemReg(b, disp, s) => Store(m, Word(m.regs[b] + disp), m.regs[s])
    case MovMemImm(b, disp, imm) => Store(m, Word(m.regs[b] + disp), Word(imm))
    case Lea(d, b, disp) => Some(SetReg(m, d, Word(m.regs[b] + disp)))
    case MovEax(imm) => Some(SetReg(m, RAX, ToUint32(imm)))   // writing EAX clears the upper half
    case MovAbsR12(v) => Some(SetReg(m, R12, v))
  }

  /** One instruction; `next` is the address after it. */
  function Exec(i: Ins, m: Machine, next: int): (r: Option<Cpu>)
    requires MachineOk(m)
    ensures r.Some? ==> MachineOk(r.value.m)
  {
    match i
    case CallR12 =>
      var sp := Word(m.regs[RSP] - 8);
      (match Store(SetReg(m, RSP, sp), sp, next)
       case None => None
       case Some(m') => Some(Cpu(m', m.regs[R12])))
    case Ret =>
      if m.regs[RSP] in m.mem then Some(Cpu(SetReg(m, RSP, Word(m.regs[RSP] + 8)), m.mem[m.regs[RSP]])) else None
    case _ =>
      match Effect(i, m)
      case None => None
      case Some(m') => Some(Cpu(m', next))
  }

  /** One step over code bytes placed at address `text`. */
  function Step(code: seq<Byte>, text: int, c: Cpu): (r: Option<Cpu>)
    requires MachineOk(c.m)
    ensures r.Some? ==> MachineOk(r.value.m)
  {
    if !(text <= c.ip < text + |code|) then None
    else
      match Decode(code[c.ip - text..])
      case BadCode => None
      case Decoded(i, len) => Exec(i, c.m, c.ip + len)
  }

  function Run(code: seq<Byte>, text: int, c: Cpu, n: nat): (r: Option<Cpu>)
    requires MachineOk(c.m)
    ensures r.Some? ==> MachineOk(r.value.m)
    decreases n
  {
    if n == 0 then Some(c)
    else
      match Step(code, text, c)
      case None => None
      case Some(d) => Run(code, text, d, n - 1)
  }

  lemma {:induction false} RunSplit(code: seq<Byte>, text: int, c: Cpu, a: nat, b: nat)
    requires MachineOk(c.m)
    ensures Run(code, text, c, a + b) ==
            match Run(code, text, c, a) case None => None case Some(d) => Run(code, text, d, b)
    decreases a
  {
    hide Step;
    if a != 0 && Step(code, text, c).Some? {
      RunSplit(code, text, Step(code, text, c).value, a - 1, b);
    }
  }

  /** The effects of a list of instructions, one after the other. */
  function Effects(prog: seq<Ins>, m: Machine): (r: Option<Machine>)
    requires MachineOk(m) && forall k :: 0 <= k < |prog| ==> IsStraight(prog[k])
    ensures r.Some? ==> MachineOk(r.value)
  {
    if prog == [] then Some(m)
    else
      match Effect(prog[0], m)
      case None => None
      case Some(m') => Effects(prog[1..], m')
  }

  lemma {:induction false} EffectsAppend(a: seq<Ins>, b: seq<Ins>, m: Machine)
    requires MachineOk(m)
    requires forall k :: 0 <= k < |a| ==> IsStraight(a[k])
    requires forall k :: 0 <= k < |b| ==> IsStraight(b[k])
    ensures Effects(a + b, m) == match Effects(a, m) case None => None case Some(m') => Effects(b, m')
  {
    hide Effect;
    if a == [] {
      assert a + b == b;
    } else {
      assert (a + b)[1..] == a[1..] + b;
      if Effect(a[0], m).Some? { EffectsAppend(a[1..], b, Effect(a[0], m).value); }
    }
  }

  /** The bytes of a program do what its instructions say: from the start of
      instruction `k`, `n` steps carry out the next `n` instructions. */
  lemma {:induction false} RunStraight(prog: seq<Ins>, text: int, k: nat, n: nat, m: Machine)
    requires MachineOk(m) && k + n <= |prog|
    requires forall j :: 0 <= j < |prog| ==> Encodable(prog[j])
    requires forall j :: k <= j < k + n ==> IsStraight(prog[j])
    ensures Run(EncodeAll(prog), text, Cpu(m, text + Offset(prog, k)), n) ==
            match Effects(prog[k..k + n], m)
            case None => None
            case Some(m') => Some(Cpu(m', text + Offset(prog, k + n)))
    decreases n
  {
    hide Effect, Decode, Encode, Encodable, EncodeAll, Offset;
    if n != 0 {
      DecodeAt(prog, k);
      assert Exec(prog[k], m, text + Offset(prog, k + 1)) ==
             match Effect(prog[k], m) case None => None case Some(m') => Some(Cpu(m', text + Offset(prog, k + 1)));
      assert prog[k..k + n][1..] == prog[k + 1..k + n];
      if Effect(prog[k], m).Some? { RunStraight(prog, text, k + 1, n - 1, Effect(prog[k], m).value); }
    } else {
      assert prog[k..k + n] == [];
    }
  }
}

/** The stack-delta table of a trampoline: its encoder, and the runtime's decoder
    (pcvalue) as docs/en/04-pclntab.md describes it. */
module PcTable {
  import opened Bits

  /** From the previous entry's pc up to `pc`, the stack pointer is `spdelta`
      bytes below where it was at entry. */
  datatype Entry = Entry(pc: nat, spdelta: int)

  /** `uint32(n<<1 ^ n>>31)`: the shifted sign is all zeros or all ones. */
  function ZigZag(n: int): nat {
    var d := ToInt32(2 * n);
    ToUint32(if n < 0 then -d - 1 else d)
  }

  /** `int32(-(uv&1) ^ (uv>>1))` on a uint32. */
  function UnZigZag(uv: nat): int {
    ToInt32(if uv % 2 == 1 then W32 - 1 - uv / 2 else uv / 2)
  }

  lemma ZigZagRoundTrip(n: int)
    requires IsInt32(n)
    ensures ZigZag(n) < W32 && UnZigZag(ZigZag(n)) == n
    ensures ZigZag(n) == 0 <==> n == 0
  {
    ZigZagIs(n);
  }

  lemma ZigZagIs(n: int)
    requires IsInt32(n)
    ensures ZigZag(n) == if n < 0 then -2 * n - 1 else 2 * n
  {
  }

  /** Seven bits a byte, low ones first, the top bit saying more follow. */
  function Varint(u: nat): seq<Byte> {
    if u < 0x80 then [u] else [u % 0x80 + 0x80] + Varint(u / 0x80)
  }

  datatype Read = Read(value: nat, rest: seq<Byte>) | Short

  function ReadVarint(p: seq<Byte>): Read {
    if p == [] then Short
    else if p[0] < 0x80 then Read(p[0], p[1..])
    else
      match ReadVarint(p[1..])
      case Short => Short
      case Read(v, rest) => Read(p[0] - 0x80 + 0x80 * v, rest)
  }

  lemma {:induction false} VarintRoundTrip(u: nat, rest: seq<Byte>)
    ensures ReadVarint(Varint(u) + rest) == Read(u, rest)
    ensures Varint(u) != [] && (u == 0 <==> Varint(u)[0] == 0)
  {
    if u >= 0x80 {
      VarintRoundTrip(u / 0x80, rest);
      assert (Varint(u) + rest)[1..] == Varint(u / 0x80) + rest;
    } else {
      assert ([u] + rest)[1..] == rest;
    }
  }

  lemma {:induction false} ReadShrinks(p: seq<Byte>)
    ensures ReadVarint(p).Read? ==> |ReadVarint(p).rest| < |p|
  {
    if p != [] && p[0] >= 0x80 { ReadShrinks(p[1..]); }
  }

  // ----- the decoder -----

  /** What a lookup ends in: a value, the end marker with what is left of the
      table, or a read past the table. */
  datatype Lookup = Value(spdelta: int) | EndOfTable(rest: seq<Byte>) | OffTheSlice

  /** Steps from (pc, val) through table `p` until a range holds `target`. A zero
      is the end marker except where pc still is the function entry. */
  function PcValue(p: seq<Byte>, pc: nat, val: int, target: nat, quantum: nat): Lookup
    decreases |p|
  {
    if p == [] then OffTheSlice
    else if p[0] == 0 && pc != 0 then EndOfTable(p)
    else
      match ReadVarint(p)
      case Short => OffTheSlice
      case Read(uv, q) =>
        match ReadVarint(q)
        case Short => OffTheSlice
        case Read(pd, rest) =>
          ReadShrinks(p); ReadShrinks(q);
          var val' := ToInt32(val + UnZigZag(ToUint32(uv)));
          var pc' := pc + ToUint32(pd * quantum);
          if target < pc' then Value(val') else PcValue(rest, pc', val', target, quantum)
  }

  // ----- the encoder -----

  /** What the table holds from the point (val, pc) on. */
  function EncodeFrom(es: seq<Entry>, val: int, pc: int): seq<Byte> {
    if es == [] then [0]
    else
      Varint(ZigZag(ToInt32(es[0].spdelta - val)))
      + (Varint(ToUint32(es[0].pc - pc)) + EncodeFrom(es[1..], es[0].spdelta, es[0].pc))
  }

  method AppendVarint(tab: seq<Byte>, u: nat) returns (out: seq<Byte>)
    ensures out == tab + Varint(u)
  {
    out := tab;
    var uv := u;
    while uv >= 0x80
      invariant out + Varint(uv) == tab + Varint(u)
    {
      out := out + [uv % 0x80 + 0x80];
      uv := uv / 0x80;
    }
    out := out + [uv];
  }

  /** Three entries and the end marker, byte by byte: deltas 1, 8 and 208 as 2, 16 and
      416, pcs as their differences, seven bits a byte. */
  lemma KnownTable()
    ensures EncodeFrom([Entry(1, 0), Entry(11, 8), Entry(200, 216)], -1, 0) == [2, 1, 16, 10, 0xA0, 3, 0xBD, 1, 0]
  {
    KnownDeltas();
    KnownVarints();
    hide ZigZag, Varint, ToInt32, ToUint32;
    var a, b, c := Entry(1, 0), Entry(11, 8), Entry(200, 216);
    NextEntry([a, b, c], -1, 0);
    NextEntry([b, c], 0, 1);
    NextEntry([c], 8, 11);
    assert [a, b, c][1..] == [b, c] && [b, c][1..] == [c] && [c][1..] == [];
    hide EncodeFrom;
    assert EncodeFrom([], 216, 200) == [0] by { NoEntries(216, 200); }
  }

  lemma NoEntries(val: int, pc: int)
    ensures EncodeFrom([], val, pc) == [0]
  {
  }

  lemma NextEntry(es: seq<Entry>, val: int, pc: int)
    requires es != []
    ensures EncodeFrom(es, val, pc) ==
            Varint(ZigZag(ToInt32(es[0].spdelta - val))) + (Varint(ToUint32(es[0].pc - pc)) + EncodeFrom(es[1..], es[0].spdelta, es[0].pc))
  {
  }

  lemma KnownDeltas()
    ensures ZigZag(ToInt32(1)) == 2 && ZigZag(ToInt32(8)) == 16 && ZigZag(ToInt32(208)) == 416
    ensures ToUint32(1) == 1 && ToUint32(10) == 10 && ToUint32(189) == 189
  {
  }

  lemma KnownVarints()
    ensures Varint(2) == [2] && Varint(1) == [1] && Varint(16) == [16] && Varint(10) == [10]
    ensures Varint(416) == [0xA0, 3] && Varint(189) == [0xBD, 1]
  {
    assert Varint(3) == [3];
  }

  method EncodePCSP(es: seq<Entry>) returns (tab: seq<Byte>)
    ensures tab == EncodeFrom(es, -1, 0)
  {
    hide ToInt32, ToUint32, ZigZag, Varint;
    tab := [];
    var val, pc := -1, 0;
    var i := 0;
    while i < |es|
      invariant 0 <= i <= |es|
      invariant tab + EncodeFrom(es[i..], val, pc) == EncodeFrom(es, -1, 0)
    {
      var e := es[i];
      ghost var uv, pd, rest := Varint(ZigZag(ToInt32(e.spdelta - val))), Varint(ToUint32(e.pc - pc)),
                                EncodeFrom(es[i + 1..], e.spdelta, e.pc);
      assert es[i..][1..] == es[i + 1..];
      assert tab + (uv + (pd + rest)) == tab + uv + pd + rest;
      tab := AppendVarint(tab, ZigZag(ToInt32(e.spdelta - val)));
      tab := AppendVarint(tab, ToUint32(e.pc - pc));
      val, pc := e.spdelta, e.pc;
      i := i + 1;
    }
    assert es[i..] == [];
    tab := tab + [0];
  }

  // ----- the round trip -----

  /** Strictly increasing positive pcs and int32 deltas. */
  predicate TableWf(es: seq<Entry>) {
    && es != []
    && (forall i :: 0 <= i < |es| ==> 0 < es[i].pc < W32 && IsInt32(es[i].spdelta))
    && (forall i, j :: 0 <= i < j < |es| ==> es[i].pc < es[j].pc)
  }

  /** Neighbouring entries have different deltas. */
  predicate Distinct(es: seq<Entry>) {
    forall i :: 0 <= i < |es| - 1 ==> es[i].spdelta != es[i + 1].spdelta
  }

  function LastPc(es: seq<Entry>): nat
    requires es != []
  {
    es[|es| - 1].pc
  }

  /** The delta the entries give `target`: that of the first entry past it. */
  function DeltaAt(es: seq<Entry>, target: nat): int
    requires es != [] && target < LastPc(es)
    decreases |es|
  {
    if target < es[0].pc then es[0].spdelta else DeltaAt(es[1..], target)
  }

  lemma {:induction false} DeltaAtIs(es: seq<Entry>, i: nat, target: nat)
    requires TableWf(es) && i < |es|
    requires (if i == 0 then 0 else es[i - 1].pc) <= target < es[i].pc
    ensures target < LastPc(es) && DeltaAt(es, target) == es[i].spdelta
    decreases i
  {
    if i != 0 {
      if i < |es| - 1 { assert es[i].pc < es[|es| - 1].pc; }
      assert i - 1 == 0 || es[0].pc < es[i - 1].pc;
      DeltaAtIs(es[1..], i - 1, target);
    } else if |es| > 1 {
      assert es[0].pc < es[|es| - 1].pc;
    }
  }

  /** The arithmetic of one step: the wrapped differences add up again. */
  lemma DeltaBack(delta: int, val: int)
    requires IsInt32(delta) && IsInt32(val)
    ensures var n := ToInt32(delta - val);
            && (ZigZag(n) == 0 <==> delta == val)
            && ToInt32(val + UnZigZag(ToUint32(ZigZag(n)))) == delta
  {
    var n := ToInt32(delta - val);
    ZigZagRoundTrip(n);
    WrapBack(delta, val);
    Small(ZigZag(n));
    hide *;
  }

  lemma PcBack(pc': nat, pc: nat, quantum: nat)
    requires pc < pc' && 0 < quantum && pc' * quantum < W32
    ensures pc * quantum + ToUint32(ToUint32(pc' - pc) * quantum) == pc' * quantum
    ensures pc * quantum == 0 <==> pc == 0
  {
    Scale(pc', pc, quantum);
    MulGrows(pc' - pc, quantum);
    Small(pc' - pc);
    Small((pc' - pc) * quantum);
    hide *;
  }

  lemma Small(x: nat)
    requires x < W32
    ensures ToUint32(x) == x
  {
  }

  lemma WrapBack(delta: int, val: int)
    requires IsInt32(delta) && IsInt32(val)
    ensures var n := ToInt32(delta - val); IsInt32(n) && (n == 0 <==> delta == val) && ToInt32(val + n) == delta
  {
  }

  lemma MulGrows(x: nat, q: nat)
    requires 0 < q
    ensures x <= x * q
  {
  }

  /** One step of the decoder over one encoded entry; `quantum` is the decoder's
      unit of pcs. */
  lemma DecodeStep(es: seq<Entry>, val: int, pc: nat, at: nat, target: nat, quantum: nat)
    requires TableWf(es) && IsInt32(val) && pc < es[0].pc && at == pc * quantum && 0 < quantum
    requires es[0].pc * quantum < W32
    requires pc == 0 || es[0].spdelta != val
    ensures PcValue(EncodeFrom(es, val, pc), at, val, target, quantum) ==
            if target < es[0].pc * quantum then Value(es[0].spdelta)
            else PcValue(EncodeFrom(es[1..], es[0].spdelta, es[0].pc), es[0].pc * quantum, es[0].spdelta, target, quantum)
  {
    assert IsInt32(es[0].spdelta);
    PcBack(es[0].pc, pc, quantum);
    EntryStep(es, val, pc, at, es[0].pc * quantum, target, quantum);
  }

  /** The same with the pcs in the decoder's units given. */
  lemma EntryStep(es: seq<Entry>, val: int, pc: nat, at: nat, next: nat, target: nat, quantum: nat)
    requires es != [] && IsInt32(es[0].spdelta) && IsInt32(val) && (at == 0 || es[0].spdelta != val)
    requires next == at + ToUint32(ToUint32(es[0].pc - pc) * quantum)
    ensures PcValue(EncodeFrom(es, val, pc), at, val, target, quantum) ==
            if target < next then Value(es[0].spdelta)
            else PcValue(EncodeFrom(es[1..], es[0].spdelta, es[0].pc), next, es[0].spdelta, target, quantum)
  {
    hide ToInt32, ToUint32, ZigZag, UnZigZag, Varint, EncodeFrom, PcValue, IsInt32;
    var e := es[0];
    DeltaBack(e.spdelta, val);
    EncodedHead(es, val, pc);
    ReadPair(ZigZag(ToInt32(e.spdelta - val)), ToUint32(e.pc - pc), EncodeFrom(es[1..], e.spdelta, e.pc), at, val, target, quantum);
  }

  lemma EncodedHead(es: seq<Entry>, val: int, pc: int)
    requires es != []
    ensures EncodeFrom(es, val, pc) ==
            Varint(ZigZag(ToInt32(es[0].spdelta - val)))
            + (Varint(ToUint32(es[0].pc - pc)) + EncodeFrom(es[1..], es[0].spdelta, es[0].pc))
  {
    hide ToInt32, ToUint32, ZigZag, Varint;
  }

  /** The decoder over one pair of varints that is not the end marker. */
  lemma ReadPair(uv: nat, pd: nat, rest: seq<Byte>, at: nat, val: int, target: nat, quantum: nat)
    requires at == 0 || uv != 0
    ensures var val' := ToInt32(val + UnZigZag(ToUint32(uv))); var at' := at + ToUint32(pd * quantum);
            PcValue(Varint(uv) + (Varint(pd) + rest), at, val, target, quantum) ==
            if target < at' then Value(val') else PcValue(rest, at', val', target, quantum)
  {
    hide ToInt32, ToUint32, UnZigZag, Varint, ReadVarint;
    var p := Varint(uv) + (Varint(pd) + rest);
    VarintRoundTrip(uv, Varint(pd) + rest);
    VarintRoundTrip(pd, rest);
    assert p[0] == Varint(uv)[0];
  }

  lemma Scale(a: nat, b: nat, q: nat)
    requires b < a
    ensures (a - b) * q == a * q - b * q && (0 < q ==> b * q < a * q && (b * q == 0 <==> b == 0))
    ensures 0 <= (a - b) * q <= a * q
  {
  }

  /** The entries as a decoder with unit `q` understands them. */
  function Scaled(es: seq<Entry>, q: nat): (r: seq<Entry>)
    ensures |r| == |es|
  {
    seq(|es|, i requires 0 <= i < |es| => Entry(es[i].pc * q, es[i].spdelta))
  }

  lemma {:induction false} DecodeFrom(es: seq<Entry>, val: int, pc: nat, target: nat, q: nat)
    requires TableWf(es) && Distinct(es) && IsInt32(val) && pc < es[0].pc
    requires 0 < q && LastPc(es) * q < W32
    requires pc == 0 || es[0].spdelta != val
    ensures PcValue(EncodeFrom(es, val, pc), pc * q, val, target, q) ==
            if target < LastPc(Scaled(es, q)) then Value(DeltaAt(Scaled(es, q), target)) else EndOfTable([0])
    decreases |es|
  {
    FirstBelowLast(es, q);
    DecodeStep(es, val, pc, pc * q, target, q);
    if |es| > 1 {
      assert Scaled(es, q)[1..] == Scaled(es[1..], q);
      assert LastPc(es[1..]) == LastPc(es);
      assert es[1].spdelta != es[0].spdelta;
      DecodeFrom(es[1..], es[0].spdelta, es[0].pc, target, q);
    } else {
      Scale(es[0].pc, 0, q);
      assert es[1..] == [];
    }
  }

  lemma FirstBelowLast(es: seq<Entry>, q: nat)
    requires TableWf(es) && 0 < q
    ensures es[0].pc * q <= LastPc(es) * q && LastPc(Scaled(es, q)) == LastPc(es) * q
    ensures Scaled(es, q)[0].pc == es[0].pc * q
    ensures 0 < |es| - 1 ==> es[0].pc * q < LastPc(es) * q
  {
    if |es| > 1 { Scale(LastPc(es), es[0].pc, q); }
  }

  /** For every pc a table covers the decoder returns its entry's delta; past the
      last it has consumed every pair and stands at the end marker. */
  lemma TableRoundTrip(es: seq<Entry>, target: nat)
    requires TableWf(es) && Distinct(es)
    ensures PcValue(EncodeFrom(es, -1, 0), 0, -1, target, 1) ==
            if target < LastPc(es) then Value(DeltaAt(es, target)) else EndOfTable([0])
  {
    DecodeFrom(es, -1, 0, target, 1);
    assert Scaled(es, 1) == es;
  }

  /** That neighbours differ is exactly what the table needs: if two are equal, the
      zero difference reads as the end marker and some covered pc has no value. */
  lemma TableRoundTripIff(es: seq<Entry>)
    requires TableWf(es)
    ensures Distinct(es) <==>
            forall target: nat :: target < LastPc(es) ==>
              PcValue(EncodeFrom(es, -1, 0), 0, -1, target, 1) == Value(DeltaAt(es, target))
  {
    if Distinct(es) {
      forall target: nat | target < LastPc(es)
        ensures PcValue(EncodeFrom(es, -1, 0), 0, -1, target, 1) == Value(DeltaAt(es, target))
      {
        TableRoundTrip(es, target);
      }
    } else {
      var target := LostPc(es, -1, 0);
    }
  }

  /** A zero difference past the entry is taken for the end marker. */
  lemma ReadsAsEnd(es: seq<Entry>, val: int, pc: nat)
    requires es != [] && pc != 0 && es[0].spdelta == val
    ensures PcValue(EncodeFrom(es, val, pc), pc, val, pc, 1).EndOfTable?
  {
    EncodedHead(es, val, pc);
    assert Varint(ZigZag(ToInt32(0))) == [0];
    hide ToInt32, ToUint32, ZigZag, Varint, EncodeFrom, ReadVarint;
  }

  lemma {:induction false} LostPc(es: seq<Entry>, val: int, pc: nat) returns (target: nat)
    requires TableWf(es) && IsInt32(val) && pc < es[0].pc
    requires !Distinct(es) || (pc != 0 && es[0].spdelta == val)
    ensures pc <= target < LastPc(es)
    ensures PcValue(EncodeFrom(es, val, pc), pc, val, target, 1).EndOfTable?
    decreases |es|
  {
    FirstBelowLast(es, 1);
    if pc != 0 && es[0].spdelta == val {
      target := pc;
      ReadsAsEnd(es, val, pc);
    } else {
      var rest := es[1..];
      var i :| 0 <= i < |es| - 1 && es[i].spdelta == es[i + 1].spdelta;
      if i != 0 { assert rest[i - 1].spdelta == rest[i].spdelta; }
      assert LastPc(rest) == LastPc(es);
      target := LostPc(rest, es[0].spdelta, es[0].pc);
      DecodeStep(es, val, pc, pc, target, 1);
      hide *;
    }
  }
}

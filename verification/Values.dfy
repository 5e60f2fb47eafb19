/** Values as their bytes in memory, what scattering stores of them, and what
    materialising reads back. */
module Values {
  import opened Wrappers
  import opened Bits
  import opened LittleEndian
  import opened Float32
  import opened GoTypes
  import opened AbiAssign
  import opened AbiLayout
  import opened Coverage
  import opened Frames

  const ZERO_WORD: Word8 := [0, 0, 0, 0, 0, 0, 0, 0]

  /** What an itab records: the interface it is for and a concrete type. */
  datatype Itab = Itab(inter: nat, concrete: nat)

  /** What the runtime knows: the code a func's closure points at (`codeOf`, which
      reflect.Value.Pointer gives), what the itab at an address records, and its own itab
      for an interface and a type, if the type implements the interface. */
  datatype Env = Env(codeOf: Word8 -> Word8, itabAt: Word8 -> Itab, getitab: Itab -> Option<Word8>)

  /** The first word of an interface rebuilt from the concrete type its itab records;
      none where the assignment panics. */
  function Reboxed(env: Env, tab: Word8): Option<Word8> { env.getitab(env.itabAt(tab)) }

  /** A value's bytes as Go lays them out in memory; an interface is (tab, data). */
  predicate Legal(t: GoType, v: seq<Byte>) {
    && |v| == Size(t)
    && (t.Bool? ==> v[0] == 0 || v[0] == 1)
    && (t.Iface? && v[..8] == ZERO_WORD ==> v[8..] == ZERO_WORD)
  }

  /** Equal but for padding. */
  ghost predicate SameData(t: GoType, v: seq<Byte>, w: seq<Byte>)
    requires |v| == |w| == Size(t)
  {
    forall rel :: 0 <= rel < |v| && IsData(t, rel) ==> v[rel] == w[rel]
  }

  // ----- the frame encodes a value -----

  predicate StepFits(st: Step, n: nat) { st.offset + st.size <= n }

  /** Every step of the value holds its part of `v`. */
  ghost predicate Encodes(f: Frame, steps: seq<Step>, v: seq<Byte>)
    requires FrameOk(f) && StepsOk(steps)
  {
    forall k :: 0 <= k < |steps| ==> StepFits(steps[k], |v|) && Holds(f, steps[k], v)
  }

  predicate Holds(f: Frame, st: Step, v: seq<Byte>)
    requires FrameOk(f) && StepOk(st) && StepFits(st, |v|)
  {
    Read(f, st) == v[st.offset..st.offset + st.size]
  }

  // ----- reading a value back -----

  /** Byte `rel` of the value whose steps are `steps`; padding reads as zero. */
  function ByteAt(f: Frame, steps: seq<Step>, rel: nat): Byte
    requires FrameOk(f) && forall k :: 0 <= k < |steps| ==> StepOk(steps[k])
  {
    if steps == [] then 0
    else
      var n := |steps| - 1;
      var st := steps[n];
      if st.offset <= rel < st.offset + st.size then Read(f, st)[rel - st.offset] else ByteAt(f, steps[..n], rel)
  }

  function Bytes(f: Frame, steps: seq<Step>, n: nat): (r: seq<Byte>)
    requires FrameOk(f) && forall k :: 0 <= k < |steps| ==> StepOk(steps[k])
    ensures |r| == n
  {
    seq(n, rel requires 0 <= rel < n => ByteAt(f, steps, rel))
  }

  /** The argument the steps describe. None: reading it panics, since the concrete type
      does not implement the interface, or since the first word of a non-nil `any` is
      taken for an itab although it is a type. */
  function Decode(env: Env, f: Frame, t: GoType, steps: seq<Step>): (r: Option<seq<Byte>>)
    requires FrameOk(f) && forall k :: 0 <= k < |steps| ==> StepOk(steps[k])
    ensures r.Some? ==> |r.value| == Size(t)
  {
    var mem := Bytes(f, steps, Size(t));
    if t.Iface? && mem[..8] == ZERO_WORD then Some(Zeros(16))
    else if t == Iface(true) then None
    else if t.Iface? then
      var tab := Reboxed(env, mem[..8]);
      if tab.Some? then Some(tab.value + mem[8..]) else None
    else Some(mem)
  }

  lemma {:induction false} ByteAtStep(f: Frame, steps: seq<Step>, v: seq<Byte>, k: nat, rel: nat)
    requires FrameOk(f) && StepsOk(steps) && Encodes(f, steps, v)
    requires k < |steps| && steps[k].offset <= rel < steps[k].offset + steps[k].size
    ensures rel < |v| && ByteAt(f, steps, rel) == v[rel]
  {
    hide Clash, Read;
    var n := |steps| - 1;
    assert Holds(f, steps[n], v) && Holds(f, steps[k], v);
    assert StepFits(steps[k], |v|);
    if !(steps[n].offset <= rel < steps[n].offset + steps[n].size) {
      ByteAtStep(f, steps[..n], v, k, rel);
    }
  }

  /** The steps of a value move every data byte of it. */
  lemma EmitCovers(c: Cursor, t: GoType, rel: nat)
    requires Wf(t) && IsData(t, rel)
    ensures exists k :: 0 <= k < |Emit(c, t)| && Emit(c, t)[k].offset <= rel < Emit(c, t)[k].offset + Emit(c, t)[k].size
  {
    hide Parts, Place, Ints, Floats, IsData;
    DataInside(t, rel);
    if FitsRegs(c, t) {
      var ps := Parts(t, 0);
      PartsCover(t, 0, rel);
      var k :| 0 <= k < |ps| && Covers(ps[k], rel);
      PlaceAt(ps, c.iregs, c.fregs, k);
      assert Emit(c, t)[k].offset == ps[k].offset && Emit(c, t)[k].size == ps[k].size;
    } else {
      assert Emit(c, t)[0].offset == 0 && Emit(c, t)[0].size == Size(t);
    }
  }

  lemma {:induction false} PlaceLen(ps: seq<Part>, i: nat, f: nat)
    ensures |Place(ps, i, f)| == |ps|
  {
    if ps != [] { PlaceLen(ps[1..], i, f + 1); PlaceLen(ps[1..], i + 1, f); }
  }

  /** And they move nothing else: each lies inside the value, and starts a part. */
  lemma EmitInside(c: Cursor, t: GoType, k: nat)
    requires Wf(t) && k < |Emit(c, t)|
    ensures StepFits(Emit(c, t)[k], Size(t))
    ensures !OnStack(Emit(c, t)) ==>
              FitsRegs(c, t) && k < |Parts(t, 0)| && Emit(c, t) == Place(Parts(t, 0), c.iregs, c.fregs)
              && Emit(c, t)[k].offset == Parts(t, 0)[k].offset && Emit(c, t)[k].size == Parts(t, 0)[k].size <= 8
              && (Emit(c, t)[k].kind.StepPointer? <==> Parts(t, 0)[k].cls.CPtr?)
              && (Emit(c, t)[k].kind.StepFloatReg? <==> Parts(t, 0)[k].cls.CFloat?)
              && !Emit(c, t)[k].kind.StepStack?
              && |Parts(t, 0)| == |Emit(c, t)|
  {
    hide Parts, Place, Ints, Floats, Wf;
    if FitsRegs(c, t) {
      PartsOrdered(t, 0);
      var ps := Parts(t, 0);
      PlaceLen(ps, c.iregs, c.fregs);
      PlaceAt(ps, c.iregs, c.fregs, k);
    }
  }

  /** Register steps move data bytes only. */
  lemma StepMovesData(c: Cursor, t: GoType, k: nat, rel: nat)
    requires Wf(t) && k < |Emit(c, t)| && !OnStack(Emit(c, t))
    requires Emit(c, t)[k].offset <= rel < Emit(c, t)[k].offset + Emit(c, t)[k].size
    ensures IsData(t, rel) && rel < Size(t)
  {
    hide Emit, Parts, Place, IsData, Wf;
    EmitInside(c, t, k);
    assert Covers(Parts(t, 0)[k], rel);
    PartsCover(t, 0, rel);
    DataInside(t, rel);
  }

  /** What a frame encodes is what its steps read, padding aside. */
  lemma BytesOf(c: Cursor, t: GoType, f: Frame, v: seq<Byte>)
    requires Wf(t) && |v| == Size(t) && FrameOk(f) && StepsOk(Emit(c, t)) && Encodes(f, Emit(c, t), v)
    ensures SameData(t, Bytes(f, Emit(c, t), Size(t)), v)
  {
    hide Emit, Encodes, StepsOk, Wf, ByteAt, IsData;
    StepsOkEach(Emit(c, t));
    forall rel | 0 <= rel < |v| && IsData(t, rel) ensures Bytes(f, Emit(c, t), Size(t))[rel] == v[rel] {
      EmitCovers(c, t, rel);
      var k :| 0 <= k < |Emit(c, t)| && Emit(c, t)[k].offset <= rel < Emit(c, t)[k].offset + Emit(c, t)[k].size;
      ByteAtStep(f, Emit(c, t), v, k, rel);
    }
  }

  lemma StepsOkEach(steps: seq<Step>)
    requires StepsOk(steps)
    ensures forall k :: 0 <= k < |steps| ==> StepOk(steps[k])
  {
  }

  // ----- scattering a value -----

  /** One register, and a kind writeScalar or Value.Float refuses: the call panics. */
  predicate Rejects(t: GoType, steps: seq<Step>) {
    |steps| == 1 && !steps[0].kind.StepStack? && (t.UInt? || t.Array? || t.Struct?)
  }

  /** What scattering leaves where the steps read `t`: the value itself, except a
      func in a register, which becomes its code pointer, a float32 in a register,
      which goes by way of float64, and a complex64 in registers, whose halves are
      stored as float64s. */
  function Image(env: Env, t: GoType, v: seq<Byte>, steps: seq<Step>): (r: seq<Byte>)
    requires |v| == Size(t)
    ensures |r| == |v|
  {
    if OnStack(steps) then v
    else if t.Func? then env.codeOf(v)
    else if t == Float(4) then NarrowWord(v)
    else if t == Complex(8) then WideWord(v[..4])[..4] + WideWord(v[4..])[..4]
    else v
  }

  /** The condition under which a value survives being stored in registers. */
  predicate StoredPlain(env: Env, t: GoType, v: seq<Byte>, steps: seq<Step>)
    requires |v| == Size(t)
  {
    OnStack(steps) || (
      && (t.Func? ==> env.codeOf(v) == v)
      && (t == Float(4) ==> !Signalling(Unsigned(v)))
      && (t == Complex(8) ==> v == Zeros(8)))
  }

  /** An interface that reading leaves alone: nil, or one with methods whose itab is the
      runtime's own. */
  predicate Rebuilds(env: Env, t: GoType, v: seq<Byte>)
    requires |v| == Size(t)
  {
    t.Iface? ==> v[..8] == ZERO_WORD || (!t.empty && Reboxed(env, v[..8]) == Some(v[..8]))
  }

  /** And being materialised from there. */
  predicate Faithful(env: Env, t: GoType, v: seq<Byte>, steps: seq<Step>)
    requires |v| == Size(t)
  {
    Rebuilds(env, t, v) && StoredPlain(env, t, v, steps)
  }

  ghost predicate Returned(t: GoType, v: seq<Byte>, r: Option<seq<Byte>>)
    requires |v| == Size(t) && (r.Some? ==> |r.value| == Size(t))
  {
    r.Some? && SameData(t, r.value, v)
  }

  lemma ImageSame(env: Env, t: GoType, v: seq<Byte>, steps: seq<Step>)
    requires Legal(t, v)
    ensures SameData(t, Image(env, t, v, steps), v) <==> StoredPlain(env, t, v, steps)
  {
    hide WideWord, NarrowWord, Signalling;
    if t == Complex(8) && !OnStack(steps) {
      WideWordKeeps(v[..4]);
      WideWordKeeps(v[4..]);
      var w := Image(env, t, v, steps);
      assert v == v[..4] + v[4..];
      assert w[..4] == WideWord(v[..4])[..4] && w[4..] == WideWord(v[4..])[..4];
      assert Zeros(8)[..4] == Zeros(4) && Zeros(8)[4..] == Zeros(4);
      assert Zeros(8) == Zeros(4) + Zeros(4);
      AllData(t, w, v);
    } else if t.Func? && !OnStack(steps) {
      AllData(t, env.codeOf(v), v);
    } else if t == Float(4) && !OnStack(steps) {
      NarrowWordKeeps(v);
      AllData(t, NarrowWord(v), v);
    }
  }

  lemma AllData(t: GoType, v: seq<Byte>, w: seq<Byte>)
    requires |v| == |w| == Size(t) && !t.Array? && !t.Struct?
    ensures SameData(t, v, w) <==> v == w
  {
    if SameData(t, v, w) {
      forall i | 0 <= i < |v| ensures v[i] == w[i] { assert IsData(t, i); }
    }
  }

  /** Materialising a value its steps hold gives that value iff, being an interface, it is
      nil or has methods and the runtime's own itab. */
  lemma DecodesIff(env: Env, c: Cursor, t: GoType, v: seq<Byte>, f: Frame)
    requires Wf(t) && Legal(t, v) && FrameOk(f) && StepsOk(Emit(c, t)) && Encodes(f, Emit(c, t), v)
    ensures forall k :: 0 <= k < |Emit(c, t)| ==> StepOk(Emit(c, t)[k])
    ensures Returned(t, v, Decode(env, f, t, Emit(c, t))) <==> Rebuilds(env, t, v)
  {
    hide Emit, Encodes, StepsOk, Bytes, SameData, Wf;
    StepsOkEach(Emit(c, t));
    BytesOf(c, t, f, v);
    if t.Iface? {
      IfaceDecodes(env, c, t, v, f);
      var r := Decode(env, f, t, Emit(c, t));
      if r.Some? { AllData(t, r.value, v); }
    }
  }

  /** An interface whose words the steps hold, as it is read. */
  lemma IfaceDecodes(env: Env, c: Cursor, t: GoType, v: seq<Byte>, f: Frame)
    requires Wf(t) && t.Iface? && Legal(t, v) && FrameOk(f) && StepsOk(Emit(c, t)) && Encodes(f, Emit(c, t), v)
    ensures forall k :: 0 <= k < |Emit(c, t)| ==> StepOk(Emit(c, t)[k])
    ensures Bytes(f, Emit(c, t), 16) == v == v[..8] + v[8..]
    ensures v[..8] == ZERO_WORD ==> v == Zeros(16)
    ensures Decode(env, f, t, Emit(c, t)) ==
            if v[..8] == ZERO_WORD then Some(v)
            else if t.empty || Reboxed(env, v[..8]).None? then None
            else Some(Reboxed(env, v[..8]).value + v[8..])
  {
    hide Emit, Encodes, StepsOk, Bytes, SameData, Wf;
    StepsOkEach(Emit(c, t));
    var mem := Bytes(f, Emit(c, t), 16);
    BytesOf(c, t, f, v);
    AllData(t, mem, v);
    assert v == v[..8] + v[8..];
    assert Zeros(16) == ZERO_WORD + ZERO_WORD;
  }

  /** Materialising what was scattered along the same steps gives the value back
      exactly when the value is faithful. */
  lemma RoundTripIff(env: Env, c: Cursor, t: GoType, v: seq<Byte>, f: Frame)
    requires Wf(t) && Legal(t, v) && FrameOk(f) && StepsOk(Emit(c, t))
    requires Encodes(f, Emit(c, t), Image(env, t, v, Emit(c, t)))
    ensures forall k :: 0 <= k < |Emit(c, t)| ==> StepOk(Emit(c, t)[k])
    ensures Returned(t, v, Decode(env, f, t, Emit(c, t))) <==> Faithful(env, t, v, Emit(c, t))
  {
    hide Emit, Image, Encodes, StepsOk, Bytes, SameData, Wf, Reboxed;
    var steps := Emit(c, t);
    var w := Image(env, t, v, steps);
    assert Legal(t, w) by { ImageLegal(env, t, v, steps); }
    DecodesIff(env, c, t, w, f);
    if t.Iface? {
      assert w == v by { ImageIface(env, t, v, steps); }
    } else {
      ImageSame(env, t, v, steps);
      SameTrans(t, Decode(env, f, t, steps).value, w, v);
    }
  }

  // ----- values that do not survive -----

  /** A func arrives as its code, which does not lie at its closure. */
  lemma FuncLost(env: Env, v: Word8)
    requires env.codeOf(v) != v
    ensures Image(env, Func, v, Emit(Cursor(0, 0, 0), Func)) == env.codeOf(v) != v
  {
    assert Parts(Func, 0)[1..] == [];
    assert !OnStack(Emit(Cursor(0, 0, 0), Func));
  }

  /** The concrete type every forged itab records. */
  const PROXY: nat

  /** A proxy passed as an argument: its itab is not the runtime's. Unless the proxy type
      itself implements the interface, reading it panics; if it does, what is read is the
      proxy object and no longer the forged interface. */
  lemma ProxyLost(env: Env, c: Cursor, v: seq<Byte>, f: Frame)
    requires |v| == 16 && v[..8] != ZERO_WORD && FrameOk(f)
    requires StepsOk(Emit(c, Iface(false))) && Encodes(f, Emit(c, Iface(false)), v)
    requires env.itabAt(v[..8]).concrete == PROXY && Reboxed(env, v[..8]) != Some(v[..8])
    ensures forall k :: 0 <= k < |Emit(c, Iface(false))| ==> StepOk(Emit(c, Iface(false))[k])
    ensures var r := Decode(env, f, Iface(false), Emit(c, Iface(false)));
            var own := env.getitab(Itab(env.itabAt(v[..8]).inter, PROXY));
            r == if own.None? then None else Some(own.value + v[8..])
    ensures !Returned(Iface(false), v, Decode(env, f, Iface(false), Emit(c, Iface(false))))
  {
    hide Emit, Encodes, StepsOk, Bytes, SameData;
    IfaceDecodes(env, c, Iface(false), v, f);
    DecodesIff(env, c, Iface(false), v, f);
    assert env.itabAt(v[..8]) == Itab(env.itabAt(v[..8]).inter, PROXY);
  }

  /** The complex64 1+0i arrives as 0+0i. */
  lemma ComplexOneLost(env: Env, steps: seq<Step>)
    requires !OnStack(steps)
    ensures Image(env, Complex(8), [0, 0, 0x80, 0x3F, 0, 0, 0, 0], steps) == Zeros(8)
  {
    hide Widen, Unsigned, LowBytes;
    FourBytes(0, 0, 0x80, 0x3F);
    FourBytes(0, 0, 0, 0);
    assert Widen(0x3F80_0000) % W32 == 0 && Widen(0) % W32 == 0 by { WidenOne(); }
    LowZero(Widen(0x3F80_0000));
    LowZero(Widen(0));
    var v: seq<Byte> := [0, 0, 0x80, 0x3F, 0, 0, 0, 0];
    assert v[..4] == [0, 0, 0x80, 0x3F] && v[4..] == [0, 0, 0, 0];
  }

  lemma ImageLegal(env: Env, t: GoType, v: seq<Byte>, steps: seq<Step>)
    requires Legal(t, v)
    ensures Legal(t, Image(env, t, v, steps))
  {
  }

  /** Values with the same data are stored as the same data. */
  lemma ImageRespects(env: Env, t: GoType, v: seq<Byte>, w: seq<Byte>, steps: seq<Step>)
    requires |v| == |w| == Size(t) && SameData(t, v, w)
    ensures SameData(t, Image(env, t, v, steps), Image(env, t, w, steps))
  {
    hide NarrowWord, WideWord;
    if t.Func? || t == Float(4) || t == Complex(8) { AllData(t, v, w); }
  }

  /** What is stored plain depends on the data of a value alone. */
  lemma PlainRespects(env: Env, t: GoType, v: seq<Byte>, w: seq<Byte>, steps: seq<Step>)
    requires |v| == |w| == Size(t) && SameData(t, v, w)
    ensures StoredPlain(env, t, v, steps) <==> StoredPlain(env, t, w, steps)
  {
    hide Signalling;
    if t.Func? || t == Float(4) || t == Complex(8) { AllData(t, v, w); }
  }

  lemma ImageIface(env: Env, t: GoType, v: seq<Byte>, steps: seq<Step>)
    requires t.Iface? && |v| == 16
    ensures Image(env, t, v, steps) == v
  {
  }

  lemma SameTrans(t: GoType, a: seq<Byte>, b: seq<Byte>, v: seq<Byte>)
    requires |a| == |b| == |v| == Size(t) && SameData(t, a, b)
    ensures SameData(t, a, v) <==> SameData(t, b, v)
  {
  }
}

/** From a method's layout to the pointer bitmap the collector reads. */
module GcMap {
  import opened Wrappers
  import opened Bits
  import opened GoTypes
  import opened AbiAssign
  import opened PointerWalk
  import opened AbiLayout
  import opened Precise

  const SLOT_COUNT := 128       // generic trampolines, one per method index

  // ----- which words are pointers, by the types -----

  datatype Value = Arg(i: nat) | Res(i: nat)

  /** Byte `b` of the stack area starts a pointer word of the stack-assigned `v`. */
  ghost predicate PtrWordOf(sig: Signature, l: Layout, v: Value, b: int)
    requires IsLayout(sig, l)
  {
    match v
    case Arg(i) => i < |sig.ins| && SlotPtrAt(l.call, 1, sig.ins, i, b)
    case Res(i) => i < |sig.outs| && SlotPtrAt(l.ret, 0, sig.outs, i, b)
  }

  ghost predicate SlotPtrAt(p: Plan, first: nat, ts: seq<GoType>, i: nat, b: int)
    requires PlanOk(p) && i < |ts| && first + i < |p.valueStart|
  {
    var steps := StepsForValue(p, first + i);
    OnStack(steps) && IsPtrWord(ts[i], b - steps[0].stkOff)
  }

  lemma {:induction false} SlotPtrsExact(p: Plan, first: nat, ts: seq<GoType>, n: nat, b: nat)
    requires AllWf(ts) && PlanOk(p) && n <= |ts| && first + |ts| <= |p.valueStart|
    ensures b in SlotPtrs(p, first, ts, n) <==> exists i :: 0 <= i < n && SlotPtrAt(p, first, ts, i, b)
  {
    hide StepsForValue, PtrList, IsPtrWord;
    if n != 0 {
      SlotPtrsExact(p, first, ts, n - 1, b);
      var steps := StepsForValue(p, first + n - 1);
      if OnStack(steps) { PtrListExact(ts[n - 1], steps[0].stkOff, b); }
      assert SlotPtrAt(p, first, ts, n - 1, b) <==> OnStack(steps) && b in PtrList(ts[n - 1], steps[0].stkOff);
      if i :| 0 <= i < n && SlotPtrAt(p, first, ts, i, b) {
        assert i == n - 1 || i < n - 1;
      }
    }
  }

  lemma SlotPtrPlace(base: nat, ts: seq<GoType>, i: nat, b: int)
    requires AllWf(ts) && i < |ts|
    requires PlanOk(PlanOf(base, ts)) && |PlanOf(base, ts).valueStart| == |ts|
    requires SlotPtrAt(PlanOf(base, ts), 0, ts, i, b)
    ensures base <= b && b % 8 == 0 && b + 8 <= PlanOf(base, ts).cur.stackBytes
  {
    hide PlanAt, StepsForValue, IsPtrWord;
    var off := StepsForValue(PlanOf(base, ts), i)[0].stkOff;
    SlotPlace(base, ts, i);
    PtrWordPlace(ts[i], b - off);
    SumAligned(off, b - off, 8);
  }

  /** A pointer word of an argument lies in the argument words, one of a result in
      the result words, always whole and word-aligned. */
  lemma PtrWordRange(sig: Signature, l: Layout, v: Value, b: int)
    requires IsLayout(sig, l) && PtrWordOf(sig, l, v, b)
    ensures 0 <= b && b % 8 == 0 && b + 8 <= l.stackBytes
    ensures v.Arg? ==> b + 8 <= l.retOffset
    ensures v.Res? ==> l.retOffset <= b
  {
    hide PlanAt, StepsForValue, IsPtrWord, SlotPtrs, GatherOk, MaskOk;
    LayoutBounds(sig, l);
    match v
    case Arg(i) => SlotPtrPlace(0, CallTypes(sig), i + 1, b);
    case Res(i) => SlotPtrPlace(l.retOffset, sig.outs, i, b);
  }

  /** No word belongs to two values. */
  lemma PtrWordUnique(sig: Signature, l: Layout, u: Value, v: Value, b: int)
    requires IsLayout(sig, l) && PtrWordOf(sig, l, u, b) && PtrWordOf(sig, l, v, b)
    ensures u == v
  {
    hide PlanAt, StepsForValue, IsPtrWord;
    PtrWordRange(sig, l, u, b);
    PtrWordRange(sig, l, v, b);
    if u.Arg? && v.Arg? && u != v {
      SlotPtrsApart(0, CallTypes(sig), u.i + 1, v.i + 1, b);
    } else if u.Res? && v.Res? && u != v {
      SlotPtrsApart(l.retOffset, sig.outs, u.i, v.i, b);
    }
  }

  lemma SlotPtrsApart(base: nat, ts: seq<GoType>, i: nat, j: nat, b: int)
    requires AllWf(ts) && i < |ts| && j < |ts| && i != j
    requires PlanOk(PlanOf(base, ts)) && |PlanOf(base, ts).valueStart| == |ts|
    ensures !(SlotPtrAt(PlanOf(base, ts), 0, ts, i, b) && SlotPtrAt(PlanOf(base, ts), 0, ts, j, b))
  {
    hide PlanAt, StepsForValue, IsPtrWord;
    var p := PlanOf(base, ts);
    if SlotPtrAt(p, 0, ts, i, b) && SlotPtrAt(p, 0, ts, j, b) {
      SlotPlace(base, ts, i);
      SlotPlace(base, ts, j);
      PtrWordPlace(ts[i], b - StepsForValue(p, i)[0].stkOff);
      PtrWordPlace(ts[j], b - StepsForValue(p, j)[0].stkOff);
      if i < j { SlotsApart(base, ts, i, j); } else { SlotsApart(base, ts, j, i); }
    }
  }

  // ----- the shape -----

  /** What a shape says of word `w` of the stack area. */
  predicate ShapeBit(sh: StubShape, w: nat) {
    if w < sh.argWords then Has(sh.argPtrs, w) else Has(sh.retPtrs, w - sh.argWords)
  }

  /** A shape tells the truth about every word of the area it covers. */
  ghost predicate ShapeExact(sig: Signature, l: Layout, sh: StubShape)
    requires IsLayout(sig, l)
  {
    && l.stackBytes <= 8 * (sh.argWords + sh.retWords)
    && forall w: nat :: w < sh.argWords + sh.retWords ==>
         (ShapeBit(sh, w) <==> exists v :: PtrWordOf(sig, l, v, 8 * w))
  }

  predicate StackPointers(l: Layout) {
    |l.stackPtrOffs| != 0 || |l.retStackPtrOffs| != 0
  }

  /** Sets the bit of every word offset in `offs`, counted from `base`. */
  method SetWords(offs: seq<nat>, base: nat) returns (mask: nat)
    requires forall k :: 0 <= k < |offs| ==> base <= offs[k] < base + 8 * STUB_MAX_WORDS
    requires forall k :: 0 <= k < |offs| ==> (offs[k] - base) % 8 == 0
    ensures mask < Pow2(64)
    ensures forall w: nat :: Has(mask, w) <==> base + 8 * w in offs
  {
    mask := 0;
    Pow2Positive(64);
    forall w: nat ensures !Has(0, w) { NoBits(w); }
    var k := 0;
    while k < |offs|
      invariant 0 <= k <= |offs| && mask < Pow2(64)
      invariant forall w: nat :: Has(mask, w) <==> base + 8 * w in offs[..k]
    {
      var word := (offs[k] - base) / 8;
      assert base + 8 * word == offs[k];
      assert offs[..k + 1] == offs[..k] + [offs[k]];
      forall w: nat ensures Has(OrBit(mask, word), w) <==> Has(mask, w) || word == w {
        OrBitHas(mask, word, w);
      }
      OrBitWidth(mask, word, 64);
      mask := OrBit(mask, word);
      k := k + 1;
    }
    assert offs[..k] == offs;
  }

  method Shape(ghost sig: Signature, l: Layout, idx: nat) returns (r: Outcome<StubShape>)
    requires IsLayout(sig, l)
    ensures r.Panics? <==> l.retOffset > 8 * STUB_MAX_WORDS || l.stackBytes - l.retOffset > 8 * STUB_MAX_WORDS
    ensures r.Done? ==> ShapeExact(sig, l, r.value) && r.value.index == idx
    ensures r.Done? ==> 8 * r.value.argWords == l.retOffset && 8 * (r.value.argWords + r.value.retWords) == l.stackBytes
    ensures r.Done? ==> r.value.argPtrs < Pow2(64) && r.value.retPtrs < Pow2(64)
  {
    hide IsLayout, Has;
    LayoutBounds(sig, l);
    WholeWords(l.retOffset, l.stackBytes);
    var argWords := l.retOffset / 8;
    var retWords := (l.stackBytes - l.retOffset) / 8;
    if argWords > STUB_MAX_WORDS || retWords > STUB_MAX_WORDS { return Panics; }
    OffsInRange(sig, l);
    var argPtrs := SetWords(l.stackPtrOffs, 0);
    var retPtrs := SetWords(l.retStackPtrOffs, l.retOffset);
    r := Done(StubShape(idx, argWords, retWords, argPtrs, retPtrs));
    MasksExact(sig, l, r.value);
  }

  lemma WholeWords(a: nat, b: nat)
    requires a <= b && a % 8 == 0 && b % 8 == 0
    ensures 8 * (a / 8) == a && 8 * ((b - a) / 8) == b - a
  {
  }

  lemma MasksExact(sig: Signature, l: Layout, sh: StubShape)
    requires IsLayout(sig, l)
    requires 8 * sh.argWords == l.retOffset && 8 * (sh.argWords + sh.retWords) == l.stackBytes
    requires forall w: nat :: Has(sh.argPtrs, w) <==> 8 * w in l.stackPtrOffs
    requires forall w: nat :: Has(sh.retPtrs, w) <==> l.retOffset + 8 * w in l.retStackPtrOffs
    ensures ShapeExact(sig, l, sh)
  {
    hide IsLayout, PtrWordOf, Has;
    forall w: nat | w < sh.argWords + sh.retWords
      ensures ShapeBit(sh, w) <==> exists v :: PtrWordOf(sig, l, v, 8 * w)
    {
      WordBit(sig, l, w);
      if w >= sh.argWords { assert 8 * w == l.retOffset + 8 * (w - sh.argWords); }
    }
  }

  /** The offset lists of the layout are exactly the pointer words. */
  lemma OffsExact(sig: Signature, l: Layout, b: nat)
    requires IsLayout(sig, l)
    ensures b in l.stackPtrOffs <==> exists i: nat :: PtrWordOf(sig, l, Arg(i), b)
    ensures b in l.retStackPtrOffs <==> exists i: nat :: PtrWordOf(sig, l, Res(i), b)
  {
    hide PlanAt, StepsForValue, IsPtrWord, SlotPtrs, GatherOk, MaskOk;
    SlotPtrsExact(l.call, 1, sig.ins, |sig.ins|, b);
    SlotPtrsExact(l.ret, 0, sig.outs, |sig.outs|, b);
    if b in l.stackPtrOffs {
      var i :| 0 <= i < |sig.ins| && SlotPtrAt(l.call, 1, sig.ins, i, b);
      assert PtrWordOf(sig, l, Arg(i), b);
    }
    if b in l.retStackPtrOffs {
      var i :| 0 <= i < |sig.outs| && SlotPtrAt(l.ret, 0, sig.outs, i, b);
      assert PtrWordOf(sig, l, Res(i), b);
    }
  }

  lemma OffsInRange(sig: Signature, l: Layout)
    requires IsLayout(sig, l)
    ensures forall k :: 0 <= k < |l.stackPtrOffs| ==>
              l.stackPtrOffs[k] % 8 == 0 && l.stackPtrOffs[k] + 8 <= l.retOffset
    ensures forall k :: 0 <= k < |l.retStackPtrOffs| ==>
              (l.retStackPtrOffs[k] - l.retOffset) % 8 == 0
              && l.retOffset <= l.retStackPtrOffs[k] && l.retStackPtrOffs[k] + 8 <= l.stackBytes
  {
    hide PlanAt, StepsForValue, IsPtrWord, SlotPtrs, GatherOk, MaskOk;
    forall k | 0 <= k < |l.stackPtrOffs|
      ensures l.stackPtrOffs[k] % 8 == 0 && l.stackPtrOffs[k] + 8 <= l.retOffset
    {
      OffsExact(sig, l, l.stackPtrOffs[k]);
      var i: nat :| PtrWordOf(sig, l, Arg(i), l.stackPtrOffs[k]);
      PtrWordRange(sig, l, Arg(i), l.stackPtrOffs[k]);
    }
    forall k | 0 <= k < |l.retStackPtrOffs|
      ensures (l.retStackPtrOffs[k] - l.retOffset) % 8 == 0
        && l.retOffset <= l.retStackPtrOffs[k] && l.retStackPtrOffs[k] + 8 <= l.stackBytes
    {
      OffsExact(sig, l, l.retStackPtrOffs[k]);
      var i: nat :| PtrWordOf(sig, l, Res(i), l.retStackPtrOffs[k]);
      PtrWordRange(sig, l, Res(i), l.retStackPtrOffs[k]);
      LayoutBounds(sig, l);
    }
  }

  /** A word holds a pointer iff the list of its side has its offset. */
  lemma WordBit(sig: Signature, l: Layout, w: nat)
    requires IsLayout(sig, l)
    ensures (exists v :: PtrWordOf(sig, l, v, 8 * w)) <==>
            if 8 * w < l.retOffset then 8 * w in l.stackPtrOffs else 8 * w in l.retStackPtrOffs
  {
    hide PlanAt, StepsForValue, IsPtrWord, SlotPtrs, GatherOk, MaskOk;
    OffsExact(sig, l, 8 * w);
    if v :| PtrWordOf(sig, l, v, 8 * w) {
      PtrWordRange(sig, l, v, 8 * w);
      match v
      case Arg(i) => assert PtrWordOf(sig, l, Arg(i), 8 * w);
      case Res(i) => assert PtrWordOf(sig, l, Res(i), 8 * w);
    }
  }

  // ----- choosing a trampoline -----

  /** The trampoline for method `idx`, named by its shape: a generic slot when no
      pointer crosses the stack area, else a precise one, if executable memory
      can be had. */
  method NewTrampoline(ghost sig: Signature, l: Layout, idx: nat, execMem: bool) returns (r: Outcome<StubShape>)
    requires IsLayout(sig, l)
    ensures r.Done? <==> l.stackBytes <= STACK_WINDOW && if StackPointers(l) then execMem else idx < SLOT_COUNT
    ensures r.Done? ==> ShapeExact(sig, l, r.value) && r.value.index == idx
    ensures r.Done? ==> r.value.argWords + r.value.retWords <= STACK_WINDOW / 8
    ensures r.Done? ==> r.value.argPtrs < Pow2(64) && r.value.retPtrs < Pow2(64)
  {
    if l.stackBytes > STACK_WINDOW { return Panics; }
    if !StackPointers(l) {
      if idx >= SLOT_COUNT { return Panics; }
      var sh := StubShape(idx, STACK_WINDOW / 8, 0, 0, 0);
      Pow2Positive(64);
      NoPointers(sig, l, sh);
      return Done(sh);
    }
    LayoutBounds(sig, l);
    var sh := Shape(sig, l, idx);
    if !execMem { return Panics; }
    return sh;
  }

  lemma NoPointers(sig: Signature, l: Layout, sh: StubShape)
    requires IsLayout(sig, l) && !StackPointers(l)
    requires l.stackBytes <= 8 * sh.argWords && sh.retWords == 0 && sh.argPtrs == 0
    ensures ShapeExact(sig, l, sh)
  {
    forall w: nat | w < sh.argWords
      ensures ShapeBit(sh, w) <==> exists v :: PtrWordOf(sig, l, v, 8 * w)
    {
      NoBits(w);
      WordBit(sig, l, w);
    }
  }

  // ----- the bytes -----

  /** A little-endian int32 at `off`. */
  function Int32At(g: seq<Byte>, off: nat): nat
    requires off + 4 <= |g|
  {
    g[off] as int + 0x100 * g[off + 1] as int + 0x1_0000 * g[off + 2] as int + 0x100_0000 * g[off + 3] as int
  }

  /** Bit `w` of the stackmap at `off`: the bitmap follows the counts n and nbit. */
  predicate MapBit(g: seq<Byte>, off: nat, w: nat)
    requires off + 8 + w / 8 < |g|
  {
    Has(g[off + 8 + w / 8], w % 8)
  }

  method PutInt32(g: array<Byte>, off: nat, v: nat)
    requires off + 4 <= g.Length && v < 0x8000_0000
    modifies g
    ensures Int32At(g[..], off) == v
    ensures forall k :: 0 <= k < g.Length && !(off <= k < off + 4) ==> g[k] == old(g[k])
  {
    var v1 := v / 0x100;
    var v2 := v1 / 0x100;
    var v3 := v2 / 0x100;
    g[off], g[off + 1], g[off + 2], g[off + 3] := v % 0x100, v1 % 0x100, v2 % 0x100, v3;
  }

  /** The stack maps of one trampoline: the args map at 0 covers argument words
      then result words, the empty locals map follows at `localsOff`. */
  ghost predicate MapsOf(g: seq<Byte>, localsOff: nat, sh: StubShape) {
    var total := sh.argWords + sh.retWords;
    && localsOff % 4 == 0 && 8 + (total + 7) / 8 <= localsOff && localsOff + 12 == |g|
    && Int32At(g, 0) == 1 && Int32At(g, 4) == total
    && Int32At(g, localsOff) == 1 && Int32At(g, localsOff + 4) == 0
    && (forall w: nat :: w < total ==> (MapBit(g, 0, w) <==> ShapeBit(sh, w)))
    && (forall w: nat :: total <= w < 8 * ((total + 7) / 8) ==> !MapBit(g, 0, w))
  }

  method BuildStackMaps(sh: StubShape) returns (gofunc: array<Byte>, localsOff: nat)
    requires 8 * (sh.argWords + sh.retWords) < 0x8000_0000
    ensures fresh(gofunc) && MapsOf(gofunc[..], localsOff, sh)
  {
    var total := sh.argWords + sh.retWords;
    var argBits := (total + 7) / 8;
    localsOff := AlignUp(8 + argBits, 4);
    gofunc := new Byte[localsOff + 12](_ => 0);
    SetMapBits(gofunc, sh);
    ghost var args := gofunc[..];
    PutInt32(gofunc, 0, 1);
    PutInt32(gofunc, 4, total);
    PutInt32(gofunc, localsOff, 1);
    PutInt32(gofunc, localsOff + 4, 0);
    forall w: nat | w < 8 * argBits ensures MapBit(gofunc[..], 0, w) <==> MapBit(args, 0, w) {
      assert gofunc[..][8 + w / 8] == args[8 + w / 8];
    }
  }

  /** The loop over the words of the stack area. */
  method SetMapBits(gofunc: array<Byte>, sh: StubShape)
    requires 8 + (sh.argWords + sh.retWords + 7) / 8 <= gofunc.Length
    requires forall k :: 0 <= k < gofunc.Length ==> gofunc[k] == 0
    modifies gofunc
    ensures forall w: nat :: w < 8 * ((sh.argWords + sh.retWords + 7) / 8) ==>
              (MapBit(gofunc[..], 0, w) <==> w < sh.argWords + sh.retWords && ShapeBit(sh, w))
  {
    hide ShapeBit;
    var total := sh.argWords + sh.retWords;
    forall i: nat ensures !Has(0, i) { NoBits(i); }
    var i := 0;
    while i < total
      invariant 0 <= i <= total
      invariant forall w: nat :: w < 8 * ((total + 7) / 8) ==> (MapBit(gofunc[..], 0, w) <==> w < i && ShapeBit(sh, w))
    {
      if ShapeBit(sh, i) {
        ghost var before := gofunc[..];
        Pow2Of64();
        OrBitWidth(gofunc[8 + i / 8], i % 8, 8);
        gofunc[8 + i / 8] := OrBit(gofunc[8 + i / 8], i % 8);
        SetMapBit(before, gofunc[..], i);
      }
      i := i + 1;
    }
  }

  /** Setting a bit of one byte sets that bit of the map alone. */
  lemma SetMapBit(g: seq<Byte>, h: seq<Byte>, i: nat)
    requires 8 + i / 8 < |g| && OrBit(g[8 + i / 8], i % 8) < 256
    requires h == g[8 + i / 8 := OrBit(g[8 + i / 8], i % 8)]
    ensures forall w: nat :: 8 + w / 8 < |g| ==> (MapBit(h, 0, w) <==> MapBit(g, 0, w) || w == i)
  {
    forall w: nat | 8 + w / 8 < |g| ensures MapBit(h, 0, w) <==> MapBit(g, 0, w) || w == i {
      OrBitHas(g[8 + i / 8], i % 8, w % 8);
    }
  }

  /** End to end: for every signature a trampoline is made for, bit `w` of the
      emitted args map is set iff byte `8 * w` of the stack area starts a pointer
      word of exactly one stack-assigned argument or result; every such word has
      its bit, argument words before result words. */
  method TrampolineMaps(sig: Signature, idx: nat, execMem: bool)
    returns (l: Layout, r: Outcome<StubShape>, gofunc: array<Byte>, localsOff: nat)
    requires SigWf(sig)
    ensures IsLayout(sig, l)
    ensures r.Done? <==> l.stackBytes <= STACK_WINDOW && if StackPointers(l) then execMem else idx < SLOT_COUNT
    ensures r.Done? ==> GcExact(sig, l, gofunc[..])
  {
    l := NewABILayout(sig);
    r := NewTrampoline(sig, l, idx, execMem);
    if r.Panics? {
      gofunc, localsOff := new Byte[0], 0;
      return;
    }
    gofunc, localsOff := BuildStackMaps(r.value);
    MapsExact(sig, l, r.value, gofunc[..], localsOff);
  }

  /** The collector's view of the stack area is the types' view of it. */
  ghost predicate GcExact(sig: Signature, l: Layout, g: seq<Byte>)
    requires IsLayout(sig, l)
  {
    && 8 <= |g| && l.stackBytes <= 8 * Int32At(g, 4)
    && 8 + (Int32At(g, 4) + 7) / 8 <= |g|
    && (forall w: nat :: w < Int32At(g, 4) ==>
          (MapBit(g, 0, w) <==> exists v :: PtrWordOf(sig, l, v, 8 * w)))
    && (forall u, v, w: nat :: PtrWordOf(sig, l, u, 8 * w) && PtrWordOf(sig, l, v, 8 * w) ==> u == v)
    && (forall v, b :: PtrWordOf(sig, l, v, b) ==>
          0 <= b && b % 8 == 0 && b / 8 < Int32At(g, 4) && (v.Arg? <==> b < l.retOffset))
  }

  lemma MapsExact(sig: Signature, l: Layout, sh: StubShape, g: seq<Byte>, localsOff: nat)
    requires IsLayout(sig, l) && ShapeExact(sig, l, sh) && MapsOf(g, localsOff, sh)
    ensures GcExact(sig, l, g)
  {
    hide PtrWordOf, ShapeBit, Has, IsLayout;
    forall u, v, w: nat | PtrWordOf(sig, l, u, 8 * w) && PtrWordOf(sig, l, v, 8 * w) ensures u == v {
      PtrWordUnique(sig, l, u, v, 8 * w);
    }
    forall v, b | PtrWordOf(sig, l, v, b)
      ensures 0 <= b && b % 8 == 0 && b / 8 < Int32At(g, 4) && (v.Arg? <==> b < l.retOffset)
    {
      PtrWordRange(sig, l, v, b);
    }
  }
}

/** The register parts of a value against its bytes: what they cover, and which of
    them are pointers. */
module Coverage {
  import opened Bits
  import opened GoTypes
  import opened AbiAssign

  predicate Covers(p: Part, b: int) {
    p.offset <= b < p.offset + p.size
  }

  /** Parts in order, apart, between `lo` and `hi`, each one register at most. */
  ghost predicate Ordered(ps: seq<Part>, lo: int, hi: int) {
    && (forall k :: 0 <= k < |ps| ==> lo <= ps[k].offset && ps[k].offset + ps[k].size <= hi && 0 < ps[k].size <= 8)
    && (forall j, k :: 0 <= j < k < |ps| ==> ps[j].offset + ps[j].size <= ps[k].offset)
  }

  lemma OneElement(e: GoType)
    requires Wf(e)
    ensures Size(Array(1, e)) == Size(e)
  {
    NextElem(0, Size(e));
  }

  /** The parts of a value lie in order inside it and do not overlap. */
  lemma {:induction false} PartsOrdered(t: GoType, off: nat)
    requires Wf(t) && Assignable(t)
    ensures Ordered(Parts(t, off), off, off + Size(t))
    decreases t
  {
    hide ElemOff, Ordered, AnySized, AlignUp;
    match t
    case Array(n, e) => if n == 1 { OneElement(e); PartsOrdered(e, off); } else { NothingOrdered(off, off + Size(t)); }
    case Struct(fs, s, a) => FieldPartsOrdered(fs, off, 0, s, a);
    case _ => BasicOrdered(t, off);
  }

  lemma BasicOrdered(t: GoType, off: nat)
    requires Wf(t) && !t.Array? && !t.Struct?
    ensures Ordered(Parts(t, off), off, off + Size(t))
  {
  }

  lemma {:induction false} FieldPartsOrdered(fs: Fields, off: nat, lo: nat, s: nat, a: nat)
    requires FieldsWf(fs, lo, s, a) && FieldsAssignable(fs)
    ensures Ordered(FieldParts(fs, off), off + lo, off + s)
    decreases fs
  {
    hide *;
    FieldPartsIs(fs, off, lo, s, a);
    if fs.Field? {
      var mid := fs.offset + Size(fs.typ);
      PartsOrdered(fs.typ, off + fs.offset);
      FieldPartsOrdered(fs.rest, off, mid, s, a);
      FieldsFit(fs.rest, mid, s, a);
      OrderedWider(Parts(fs.typ, off + fs.offset), off + lo, off + fs.offset, off + mid);
      OrderedJoin(Parts(fs.typ, off + fs.offset), FieldParts(fs.rest, off), off + lo, off + mid, off + s);
    } else {
      NothingOrdered(off + lo, off + s);
    }
  }

  lemma FieldPartsIs(fs: Fields, off: nat, lo: nat, s: nat, a: nat)
    requires FieldsWf(fs, lo, s, a) && FieldsAssignable(fs)
    ensures fs.Field? ==>
              && lo <= fs.offset && Wf(fs.typ) && Assignable(fs.typ) && FieldsAssignable(fs.rest)
              && FieldsWf(fs.rest, fs.offset + Size(fs.typ), s, a)
              && FieldParts(fs, off) == Parts(fs.typ, off + fs.offset) + FieldParts(fs.rest, off)
    ensures fs.NoFields? ==> FieldParts(fs, off) == []
  {
  }

  lemma NothingOrdered(lo: int, hi: int)
    ensures Ordered([], lo, hi)
  {
  }

  lemma OrderedWider(p: seq<Part>, lo: int, lo': int, hi: int)
    requires Ordered(p, lo', hi) && lo <= lo'
    ensures Ordered(p, lo, hi)
  {
  }

  lemma OrderedJoin(p: seq<Part>, q: seq<Part>, lo: int, mid: int, hi: int)
    requires Ordered(p, lo, mid) && Ordered(q, mid, hi) && lo <= mid <= hi
    ensures Ordered(p + q, lo, hi)
  {
  }

  ghost predicate Covered(ps: seq<Part>, b: int) {
    exists k :: 0 <= k < |ps| && Covers(ps[k], b)
  }

  lemma CoveredJoin(p: seq<Part>, q: seq<Part>, b: int)
    ensures Covered(p + q, b) <==> Covered(p, b) || Covered(q, b)
  {
    if Covered(p, b) {
      var k :| 0 <= k < |p| && Covers(p[k], b);
      assert (p + q)[k] == p[k];
    }
    if Covered(q, b) {
      var k :| 0 <= k < |q| && Covers(q[k], b);
      assert (p + q)[|p| + k] == q[k];
    }
  }

  /** The parts cover every data byte of the value and no padding. */
  lemma {:induction false} PartsCover(t: GoType, off: nat, b: int)
    requires Wf(t) && Assignable(t)
    ensures Covered(Parts(t, off), b) <==> IsData(t, b - off)
    decreases t
  {
    hide ElemOff, ElemIdx, ElemRel;
    match t
    case Array(n, e) =>
      if n == 1 {
        PartsCover(e, off, b);
        SoleElement(e, b - off);
        if IsData(e, b - off) { DataInside(e, b - off); }
      }
    case Struct(fs, s, a) => FieldPartsCover(fs, off, 0, s, a, b);
    case _ => BasicCover(t, off, b);
  }

  lemma SoleElement(e: GoType, rel: int)
    requires Wf(e)
    ensures 0 <= rel && 0 < Size(e) ==>
              (ElemIdx(rel, Size(e)) < 1 <==> rel < Size(e)) && (rel < Size(e) ==> ElemRel(rel, Size(e)) == rel)
  {
    if 0 <= rel && 0 < Size(e) {
      ElemSplit(rel, Size(e));
      assert ElemOff(0, Size(e)) == 0;
      if rel < Size(e) { ElemAt(0, Size(e), rel); }
    }
  }

  lemma BasicCover(t: GoType, off: nat, b: int)
    requires Wf(t) && !t.Array? && !t.Struct?
    ensures Covered(Parts(t, off), b) <==> 0 <= b - off < Size(t)
  {
    var ps := Parts(t, off);
    assert |ps| > 0;
    if 0 <= b - off < Size(t) {
      if Covers(ps[0], b) {
      } else if |ps| > 1 && Covers(ps[1], b) {
      } else {
        assert |ps| > 2 && Covers(ps[2], b);
      }
    }
  }

  lemma {:induction false} FieldPartsCover(fs: Fields, off: nat, lo: nat, s: nat, a: nat, b: int)
    requires FieldsWf(fs, lo, s, a) && FieldsAssignable(fs)
    ensures Covered(FieldParts(fs, off), b) <==> FieldData(fs, b - off)
    decreases fs
  {
    hide Size, Align, Parts, AlignUp, Covered, IsData, Assignable, Wf;
    if fs.Field? {
      assert b - off - fs.offset == b - (off + fs.offset);
      PartsCover(fs.typ, off + fs.offset, b);
      FieldPartsCover(fs.rest, off, fs.offset + Size(fs.typ), s, a, b);
      CoveredJoin(Parts(fs.typ, off + fs.offset), FieldParts(fs.rest, off), b);
    } else {
      NothingCovered(b);
    }
  }

  lemma NothingCovered(b: int)
    ensures !Covered([], b)
  {
  }

  // ----- pointers the collector must keep -----

  /** Byte `rel` starts a pointer word other than an interface's itab, which the
      runtime keeps alive by itself. */
  predicate IsHeapWord(t: GoType, rel: int)
    decreases t
  {
    match t
    case Ptr | Func | Str | Slice => rel == 0
    case Iface(_) => rel == 8
    case Array(n, e) =>
      0 <= rel && 0 < Size(e) && ElemIdx(rel, Size(e)) < n && IsHeapWord(e, ElemRel(rel, Size(e)))
    case Struct(fs, _, _) => FieldHeapWord(fs, rel)
    case _ => false
  }

  predicate FieldHeapWord(fs: Fields, rel: int)
    decreases fs
  {
    fs.Field? && (IsHeapWord(fs.typ, rel - fs.offset) || FieldHeapWord(fs.rest, rel))
  }

  lemma {:induction false} HeapIsPtr(t: GoType, rel: int)
    requires IsHeapWord(t, rel)
    ensures IsPtrWord(t, rel)
    decreases t
  {
    match t
    case Array(n, e) => HeapIsPtr(e, ElemRel(rel, Size(e)));
    case Struct(fs, _, _) => FieldHeapIsPtr(fs, rel);
    case _ =>
  }

  lemma {:induction false} FieldHeapIsPtr(fs: Fields, rel: int)
    requires FieldHeapWord(fs, rel)
    ensures FieldPtrWord(fs, rel)
    decreases fs
  {
    if IsHeapWord(fs.typ, rel - fs.offset) { HeapIsPtr(fs.typ, rel - fs.offset); } else { FieldHeapIsPtr(fs.rest, rel); }
  }

  ghost predicate PtrPart(ps: seq<Part>, b: int) {
    exists k :: 0 <= k < |ps| && ps[k].cls.CPtr? && ps[k].offset == b && ps[k].size == 8
  }

  lemma PtrPartJoin(p: seq<Part>, q: seq<Part>, b: int)
    ensures PtrPart(p, b) || PtrPart(q, b) ==> PtrPart(p + q, b)
  {
    if PtrPart(p, b) {
      var k :| 0 <= k < |p| && p[k].cls.CPtr? && p[k].offset == b && p[k].size == 8;
      assert (p + q)[k] == p[k];
    }
    if PtrPart(q, b) {
      var k :| 0 <= k < |q| && q[k].cls.CPtr? && q[k].offset == b && q[k].size == 8;
      assert (p + q)[|p| + k] == q[k];
    }
  }

  /** Every such word of a value in registers is a part marked as a pointer. */
  lemma {:induction false} HeapWordPart(t: GoType, off: nat, b: int)
    requires Wf(t) && Assignable(t) && IsHeapWord(t, b - off)
    ensures PtrPart(Parts(t, off), b)
    decreases t
  {
    hide ElemOff, ElemIdx, ElemRel;
    match t
    case Array(n, e) =>
      if n == 1 {
        SoleElement(e, b - off);
        HeapWordPart(e, off, b);
      }
    case Struct(fs, s, a) => FieldHeapPart(fs, off, 0, s, a, b);
    case _ => BasicHeapPart(t, off, b);
  }

  lemma BasicHeapPart(t: GoType, off: nat, b: int)
    requires !t.Array? && !t.Struct? && IsHeapWord(t, b - off)
    ensures PtrPart(Parts(t, off), b)
  {
    var k := if t.Iface? then 1 else 0;
    assert Parts(t, off)[k].offset == b;
  }

  lemma {:induction false} FieldHeapPart(fs: Fields, off: nat, lo: nat, s: nat, a: nat, b: int)
    requires FieldsWf(fs, lo, s, a) && FieldsAssignable(fs) && FieldHeapWord(fs, b - off)
    ensures PtrPart(FieldParts(fs, off), b)
    decreases fs
  {
    hide Size, Align, Parts, AlignUp, PtrPart, IsHeapWord, Assignable, Wf;
    assert b - off - fs.offset == b - (off + fs.offset);
    if IsHeapWord(fs.typ, b - off - fs.offset) {
      HeapWordPart(fs.typ, off + fs.offset, b);
    } else {
      FieldHeapPart(fs.rest, off, fs.offset + Size(fs.typ), s, a, b);
    }
    PtrPartJoin(Parts(fs.typ, off + fs.offset), FieldParts(fs.rest, off), b);
  }

  // ----- the first part -----

  /** No part is empty. */
  lemma {:induction false} PartsSized(t: GoType, off: nat)
    requires Wf(t)
    ensures forall k :: 0 <= k < |Parts(t, off)| ==> 0 < Parts(t, off)[k].size && (Parts(t, off)[k].cls.CPtr? ==> Parts(t, off)[k].size == 8)
    decreases t
  {
    match t
    case Array(n, e) => PartsSized(e, off);
    case Struct(fs, s, a) => FieldPartsSized(fs, off, 0, s, a);
    case _ =>
  }

  lemma {:induction false} FieldPartsSized(fs: Fields, off: nat, lo: nat, s: nat, a: nat)
    requires FieldsWf(fs, lo, s, a)
    ensures forall k :: 0 <= k < |FieldParts(fs, off)| ==>
              0 < FieldParts(fs, off)[k].size && (FieldParts(fs, off)[k].cls.CPtr? ==> FieldParts(fs, off)[k].size == 8)
    decreases fs
  {
    match fs
    case NoFields =>
    case Field(o, t, rest) =>
      PartsSized(t, off + o);
      FieldPartsSized(rest, off, o + Size(t), s, a);
  }

  /** A sized value in registers has a part, and the first is where the value is. */
  lemma {:induction false} FirstPart(t: GoType, off: nat)
    requires Wf(t) && Assignable(t) && 0 < Size(t)
    ensures Parts(t, off) != [] && Parts(t, off)[0].offset == off
    decreases t
  {
    match t
    case Array(n, e) =>
      if n == 1 {
        OneElement(e);
        FirstPart(e, off);
      }
    case Struct(fs, s, a) => FirstOfFields(fs, off, s, a);
    case _ =>
  }

  lemma RoomNeeded(ps: seq<Part>, lo: int, hi: int)
    requires Ordered(ps, lo, hi) && ps != []
    ensures lo < hi
  {
    assert ps[0].offset + ps[0].size <= hi;
  }

  lemma {:induction false} FirstOfFields(fs: Fields, off: nat, s: nat, a: nat)
    requires FieldsWf(fs, 0, s, a) && FieldsAssignable(fs) && AnySized(fs)
    ensures FieldParts(fs, off) != [] && FieldParts(fs, off)[0].offset == off
    decreases fs
  {
    hide Parts, Wf, Size, Align;
    assert fs.offset == 0;
    if 0 < Size(fs.typ) {
      FirstPart(fs.typ, off);
    } else {
      PartsOrdered(fs.typ, off);
      if Parts(fs.typ, off) != [] { RoomNeeded(Parts(fs.typ, off), off, off); }
      FirstOfFields(fs.rest, off, s, a);
    }
  }
}

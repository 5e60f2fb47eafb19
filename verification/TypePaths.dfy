/** What a type is made of, told by paths: from a value to a field or element, from there
    to one of its own, down to the scalars. The recursions the code walks by are tied to
    it here. */
module TypePaths {
  import opened Bits
  import opened GoTypes
  import opened AbiAssign
  import opened Coverage

  /** A type at an offset. */
  datatype Spot = Spot(typ: GoType, off: nat)

  function FieldList(fs: Fields): seq<Spot> {
    match fs
    case NoFields => []
    case Field(o, t, rest) => [Spot(t, o)] + FieldList(rest)
  }

  /** `q` is an element or a field of `p`. */
  ghost predicate Below(p: Spot, q: Spot) {
    match p.typ
    case Array(n, e) => q.typ == e && exists i: nat :: i < n && q.off == p.off + ElemOff(i, Size(e))
    case Struct(fs, _, _) => exists f :: f in FieldList(fs) && q == Spot(f.typ, p.off + f.off)
    case _ => false
  }

  /** A path from `p` down to `q`. */
  ghost predicate Path(ps: seq<Spot>, p: Spot, q: Spot) {
    && 0 < |ps| && ps[0] == p && ps[|ps| - 1] == q
    && forall k :: 0 <= k < |ps| - 1 ==> Below(ps[k], ps[k + 1])
  }

  ghost predicate Inside(t: GoType, u: GoType, off: nat) {
    exists ps :: Path(ps, Spot(t, 0), Spot(u, off))
  }

  predicate Scalar(t: GoType) { !t.Array? && !t.Struct? }

  // ----- paths by recursion -----

  ghost predicate Reach(p: Spot, q: Spot)
    decreases p.typ, 0
  {
    p == q ||
    match p.typ
    case Array(n, e) => exists i: nat :: i < n && Reach(Spot(e, p.off + ElemOff(i, Size(e))), q)
    case Struct(fs, _, _) => ReachField(fs, p.off, q)
    case _ => false
  }

  ghost predicate ReachField(fs: Fields, off: nat, q: Spot)
    decreases fs
  {
    fs.Field? && (Reach(Spot(fs.typ, off + fs.offset), q) || ReachField(fs.rest, off, q))
  }

  lemma {:induction false} FieldSmaller(fs: Fields, f: Spot)
    requires f in FieldList(fs)
    ensures f.typ < fs
  {
    if f != Spot(fs.typ, fs.offset) { FieldSmaller(fs.rest, f); }
  }

  lemma {:induction false} ReachFieldIff(fs: Fields, off: nat, q: Spot)
    ensures ReachField(fs, off, q) <==> exists f :: f in FieldList(fs) && Reach(Spot(f.typ, off + f.off), q)
    decreases fs
  {
    hide Reach;
    if fs.Field? {
      ReachFieldIff(fs.rest, off, q);
      assert FieldList(fs)[0] == Spot(fs.typ, fs.offset);
    }
  }

  lemma StepDown(p: Spot, r: Spot, q: Spot)
    requires Below(p, r) && Reach(r, q)
    ensures Reach(p, q)
  {
    if p.typ.Struct? {
      var f :| f in FieldList(p.typ.fields) && r == Spot(f.typ, p.off + f.off);
      ReachFieldIff(p.typ.fields, p.off, q);
    }
  }

  lemma {:induction false} PathReaches(ps: seq<Spot>, p: Spot, q: Spot)
    requires Path(ps, p, q)
    ensures Reach(p, q)
    decreases |ps|
  {
    hide Below, Reach;
    if |ps| == 1 {
      assert Reach(p, p) by { Stays(p); }
    } else {
      assert Path(ps[1..], ps[1], q) by {
        forall k | 0 <= k < |ps[1..]| - 1 ensures Below(ps[1..][k], ps[1..][k + 1]) { assert Below(ps[k + 1], ps[k + 2]); }
      }
      PathReaches(ps[1..], ps[1], q);
      assert Below(ps[0], ps[0 + 1]);
      StepDown(p, ps[1], q);
    }
  }

  lemma Stays(p: Spot)
    ensures Reach(p, p)
  {
  }

  lemma {:induction false} ReachesPath(p: Spot, q: Spot) returns (ps: seq<Spot>)
    requires Reach(p, q)
    ensures Path(ps, p, q)
    decreases p.typ
  {
    if p == q { return [p]; }
    var r := NextSpot(p, q);
    var rest := ReachesPath(r, q);
    ps := [p] + rest;
    hide Below, Reach;
    forall k | 0 <= k < |ps| - 1 ensures Below(ps[k], ps[k + 1]) {
      if k > 0 { assert Below(rest[k - 1], rest[k]); }
    }
  }

  lemma NextSpot(p: Spot, q: Spot) returns (r: Spot)
    requires Reach(p, q) && p != q
    ensures Below(p, r) && Reach(r, q) && r.typ < p.typ
  {
    match p.typ
    case Array(n, e) =>
      var i: nat :| i < n && Reach(Spot(e, p.off + ElemOff(i, Size(e))), q);
      r := Spot(e, p.off + ElemOff(i, Size(e)));
    case Struct(fs, _, _) =>
      ReachFieldIff(fs, p.off, q);
      var f :| f in FieldList(fs) && Reach(Spot(f.typ, p.off + f.off), q);
      FieldSmaller(fs, f);
      r := Spot(f.typ, p.off + f.off);
  }

  lemma InsideIff(t: GoType, u: GoType, off: nat)
    ensures Inside(t, u, off) <==> Reach(Spot(t, 0), Spot(u, off))
  {
    hide Path, Reach;
    if Inside(t, u, off) {
      var ps :| Path(ps, Spot(t, 0), Spot(u, off));
      PathReaches(ps, Spot(t, 0), Spot(u, off));
    }
    if Reach(Spot(t, 0), Spot(u, off)) { var ps := ReachesPath(Spot(t, 0), Spot(u, off)); }
  }

  // ----- which types may go in registers -----

  lemma {:induction false} BigBelow(p: Spot)
    ensures !Assignable(p.typ) <==> exists n: nat, e, off :: n >= 2 && Reach(p, Spot(Array(n, e), off))
    decreases p.typ
  {
    match p.typ
    case Array(n, e) =>
      if n == 1 {
        BigBelow(Spot(e, p.off));
        assert ElemOff(0, Size(e)) == 0;
        forall q ensures Reach(p, q) <==> p == q || Reach(Spot(e, p.off), q) {
          if Reach(p, q) && p != q {
            var i: nat :| i < n && Reach(Spot(e, p.off + ElemOff(i, Size(e))), q);
          }
        }
      }
    case Struct(fs, _, _) => BigField(fs, p.off);
    case _ =>
  }

  lemma {:induction false} BigField(fs: Fields, off: nat)
    ensures !FieldsAssignable(fs) <==> exists n: nat, e, o :: n >= 2 && ReachField(fs, off, Spot(Array(n, e), o))
    decreases fs
  {
    hide Reach;
    if fs.Field? {
      BigBelow(Spot(fs.typ, off + fs.offset));
      BigField(fs.rest, off);
    }
  }

  /** No path inside a type leads to an array of two or more elements. */
  ghost predicate NoBigArray(t: GoType) {
    forall n: nat, e, off :: Inside(t, Array(n, e), off) ==> n < 2
  }

  /** Those are the types that may go in registers. */
  lemma AssignableIff(t: GoType)
    ensures Assignable(t) <==> NoBigArray(t)
  {
    hide Inside, Assignable;
    BigBelow(Spot(t, 0));
    forall n: nat, e, off ensures Inside(t, Array(n, e), off) <==> Reach(Spot(t, 0), Spot(Array(n, e), off)) {
      InsideIff(t, Array(n, e), off);
    }
  }

  // ----- which registers its parts need -----

  /** The registers a scalar is passed in: what each holds, where in the scalar, how wide. */
  predicate WordOf(u: GoType, cls: PartClass, off: int, size: nat) {
    match u
    case Ptr | Func => cls.CPtr? && off == 0 && size == 8
    case Bool => cls.CInt? && off == 0 && size == 1
    case SInt(w) => cls.CInt? && off == 0 && size == w
    case UInt(w) => cls.CInt? && off == 0 && size == w
    case Float(w) => cls.CFloat? && off == 0 && size == w
    case Complex(w) => cls.CFloat? && (off == 0 || off == w / 2) && size == w / 2   // real, imaginary
    case Str => size == 8 && ((cls.CPtr? && off == 0) || (cls.CInt? && off == 8))   // data, length
    case Iface(_) => size == 8 && ((cls.CInt? && off == 0) || (cls.CPtr? && off == 8))   // itab or type, data
    case Slice => size == 8 && ((cls.CPtr? && off == 0) || (cls.CInt? && (off == 8 || off == 16)))   // data, length, capacity
    case _ => false
  }

  predicate PartOf(u: GoType, o: nat, p: Part) { WordOf(u, p.cls, p.offset - o, p.size) }

  lemma OneElementReach(e: GoType, off: nat, u: GoType, o: nat)
    requires !u.Array?
    ensures Reach(Spot(Array(1, e), off), Spot(u, o)) <==> Reach(Spot(e, off), Spot(u, o))
  {
    assert ElemOff(0, Size(e)) == 0;
    if Reach(Spot(Array(1, e), off), Spot(u, o)) {
      var i: nat :| i < 1 && Reach(Spot(e, off + ElemOff(i, Size(e))), Spot(u, o));
    }
  }

  lemma {:induction false} PartsReach(t: GoType, off: nat, p: Part)
    requires Assignable(t)
    ensures p in Parts(t, off) <==> exists u, o :: PartOf(u, o, p) && Reach(Spot(t, off), Spot(u, o))
    decreases t
  {
    match t
    case Array(n, e) =>
      if n == 1 {
        PartsReach(e, off, p);
        forall u, o | PartOf(u, o, p) ensures Reach(Spot(t, off), Spot(u, o)) <==> Reach(Spot(e, off), Spot(u, o)) {
          OneElementReach(e, off, u, o);
        }
        hide PartOf;
      }
    case Struct(fs, _, _) =>
      FieldPartsReach(fs, off, p);
      forall u, o | PartOf(u, o, p) ensures Reach(Spot(t, off), Spot(u, o)) <==> ReachField(fs, off, Spot(u, o)) { }
    case _ =>
      if p in Parts(t, off) { assert PartOf(t, off, p) && Reach(Spot(t, off), Spot(t, off)); }
  }

  lemma {:induction false} FieldPartsReach(fs: Fields, off: nat, p: Part)
    requires FieldsAssignable(fs)
    ensures p in FieldParts(fs, off) <==> exists u, o :: PartOf(u, o, p) && ReachField(fs, off, Spot(u, o))
    decreases fs
  {
    hide Reach, PartOf, Parts;
    if fs.Field? {
      PartsReach(fs.typ, off + fs.offset, p);
      FieldPartsReach(fs.rest, off, p);
    }
  }

  /** The parts of a value that may go in registers are the words of the scalars some path
      inside it leads to, and as `PartsOrdered` has it in the order of their offsets. */
  lemma PartsAreWords(t: GoType, p: Part)
    requires NoBigArray(t)
    ensures p in Parts(t, 0) <==> exists u, o :: PartOf(u, o, p) && Inside(t, u, o)
  {
    hide Inside, PartOf, Reach, NoBigArray;
    AssignableIff(t);
    PartsReach(t, 0, p);
    forall u, o ensures Inside(t, u, o) <==> Reach(Spot(t, 0), Spot(u, o)) { InsideIff(t, u, o); }
  }

  // ----- which bytes are what -----

  datatype Mark = PtrMark | HeapMark | DataMark

  /** The bytes of a scalar where a pointer word starts, one the collector has to follow,
      and those that hold anything. */
  predicate ScalarMark(k: Mark, u: GoType, rel: int) {
    Scalar(u) &&
    match k
    case PtrMark => if u.Iface? then rel == 0 || rel == 8 else (u.Ptr? || u.Func? || u.Str? || u.Slice?) && rel == 0
    case HeapMark => if u.Iface? then rel == 8 else (u.Ptr? || u.Func? || u.Str? || u.Slice?) && rel == 0
    case DataMark => 0 <= rel < Size(u)
  }

  predicate MarkAt(k: Mark, u: GoType, o: nat, b: int) { ScalarMark(k, u, b - o) }

  predicate Marks(k: Mark, t: GoType, rel: int) {
    match k
    case PtrMark => IsPtrWord(t, rel)
    case HeapMark => IsHeapWord(t, rel)
    case DataMark => IsData(t, rel)
  }

  predicate MarksField(k: Mark, fs: Fields, rel: int) {
    match k
    case PtrMark => FieldPtrWord(fs, rel)
    case HeapMark => FieldHeapWord(fs, rel)
    case DataMark => FieldData(fs, rel)
  }

  lemma MarksIs(k: Mark, t: GoType, rel: int)
    ensures t.Array? ==> (Marks(k, t, rel) <==>
              0 <= rel && 0 < Size(t.elem) && ElemIdx(rel, Size(t.elem)) < t.len && Marks(k, t.elem, ElemRel(rel, Size(t.elem))))
    ensures t.Struct? ==> (Marks(k, t, rel) <==> MarksField(k, t.fields, rel))
    ensures Scalar(t) ==> (Marks(k, t, rel) <==> ScalarMark(k, t, rel))
  {
    hide ElemIdx, ElemRel;
  }

  lemma MarksFieldIs(k: Mark, fs: Fields, rel: int)
    ensures MarksField(k, fs, rel) <==> fs.Field? && (Marks(k, fs.typ, rel - fs.offset) || MarksField(k, fs.rest, rel))
  {
  }

  lemma MarksInside(k: Mark, t: GoType, rel: int)
    requires Wf(t) && Marks(k, t, rel)
    ensures 0 <= rel < Size(t)
  {
    match k
    case PtrMark => PtrWordPlace(t, rel);
    case HeapMark => HeapIsPtr(t, rel); PtrWordPlace(t, rel);
    case DataMark => DataInside(t, rel);
  }

  predicate MarksElem(k: Mark, e: GoType, rel: int, i: nat) { Marks(k, e, rel - ElemOff(i, Size(e))) }

  /** A byte of an array is marked iff it is in one of its elements. */
  lemma MarksElement(k: Mark, n: nat, e: GoType, rel: int)
    requires Wf(e)
    ensures Marks(k, Array(n, e), rel) <==> exists i: nat :: i < n && MarksElem(k, e, rel, i)
  {
    hide ElemOff, ElemIdx, ElemRel, Marks;
    MarksIs(k, Array(n, e), rel);
    if Marks(k, Array(n, e), rel) {
      ElemSplit(rel, Size(e));
      var i := ElemIdx(rel, Size(e));
      assert rel - ElemOff(i, Size(e)) == ElemRel(rel, Size(e));
      assert MarksElem(k, e, rel, i);
    }
    if i: nat :| i < n && MarksElem(k, e, rel, i) {
      MarksInside(k, e, rel - ElemOff(i, Size(e)));
      ElemAt(i, Size(e), rel - ElemOff(i, Size(e)));
    }
  }

  ghost predicate Marked(k: Mark, p: Spot, b: int) {
    exists u, o :: MarkAt(k, u, o, b) && Reach(p, Spot(u, o))
  }

  ghost predicate ElemMarked(k: Mark, e: GoType, off: nat, i: nat, b: int) {
    Marked(k, Spot(e, off + ElemOff(i, Size(e))), b)
  }

  ghost predicate MarkedField(k: Mark, fs: Fields, off: nat, b: int) {
    exists u, o :: MarkAt(k, u, o, b) && ReachField(fs, off, Spot(u, o))
  }

  lemma {:induction false} MarksReach(k: Mark, t: GoType, off: nat, b: int)
    requires Wf(t)
    ensures Marks(k, t, b - off) <==> Marked(k, Spot(t, off), b)
    decreases t
  {
    hide Marks, ScalarMark, ElemOff, AlignUp, Size, Align;
    MarksIs(k, t, b - off);
    match t
    case Array(n, e) =>
      forall i: nat | i < n ensures MarksElem(k, e, b - off, i) <==> ElemMarked(k, e, off, i, b) {
        MarksReach(k, e, off + ElemOff(i, Size(e)), b);
        assert b - off - ElemOff(i, Size(e)) == b - (off + ElemOff(i, Size(e)));
      }
      ArrayMarked(k, n, e, off, b);
    case Struct(fs, s, a) =>
      MarksFieldReach(k, fs, off, 0, s, a, b);
      StructMarked(k, t, off, b);
    case _ =>
      if Marks(k, t, b - off) { assert MarkAt(k, t, off, b) && Reach(Spot(t, off), Spot(t, off)); }
  }

  lemma NotMarked(k: Mark, t: GoType, o: nat, b: int)
    requires !Scalar(t)
    ensures !MarkAt(k, t, o, b)
  {
  }

  lemma ElementMarked(k: Mark, n: nat, e: GoType, off: nat, b: int)
    ensures Marked(k, Spot(Array(n, e), off), b) <==> exists i: nat :: i < n && ElemMarked(k, e, off, i, b)
  {
    hide MarkAt, ElemOff, Size;
    var p := Spot(Array(n, e), off);
    if Marked(k, p, b) {
      var u, o :| MarkAt(k, u, o, b) && Reach(p, Spot(u, o));
      assert p != Spot(u, o) by { if p == Spot(u, o) { NotMarked(k, u, o, b); } }
      var i: nat :| i < n && Reach(Spot(e, off + ElemOff(i, Size(e))), Spot(u, o));
      assert ElemMarked(k, e, off, i, b);
    }
    forall i: nat | i < n && ElemMarked(k, e, off, i, b) ensures Marked(k, p, b) {
      MarkedAbove(k, p, Spot(e, off + ElemOff(i, Size(e))), b);
    }
  }

  lemma MarkedAbove(k: Mark, p: Spot, r: Spot, b: int)
    requires Below(p, r) && Marked(k, r, b)
    ensures Marked(k, p, b)
  {
    hide MarkAt, Reach, Below;
    var u, o :| MarkAt(k, u, o, b) && Reach(r, Spot(u, o));
    StepDown(p, r, Spot(u, o));
  }

  lemma ArrayMarked(k: Mark, n: nat, e: GoType, off: nat, b: int)
    requires Wf(e) && forall i: nat | i < n :: MarksElem(k, e, b - off, i) <==> ElemMarked(k, e, off, i, b)
    ensures Marks(k, Array(n, e), b - off) <==> Marked(k, Spot(Array(n, e), off), b)
  {
    hide Marks, Marked, MarksElem, ElemMarked;
    var rel := b - off;
    MarksElement(k, n, e, rel);
    ElementMarked(k, n, e, off, b);
    if Marks(k, Array(n, e), rel) {
      var i: nat :| i < n && MarksElem(k, e, rel, i);
      assert ElemMarked(k, e, off, i, b);
    }
    if Marked(k, Spot(Array(n, e), off), b) {
      var i: nat :| i < n && ElemMarked(k, e, off, i, b);
      assert MarksElem(k, e, b - off, i);
    }
  }

  lemma StructMarked(k: Mark, t: GoType, off: nat, b: int)
    requires t.Struct?
    ensures Marked(k, Spot(t, off), b) <==> MarkedField(k, t.fields, off, b)
  {
    hide MarkAt;
    forall o: nat ensures !MarkAt(k, t, o, b) { NotMarked(k, t, o, b); }
  }

  lemma {:induction false} MarksFieldReach(k: Mark, fs: Fields, off: nat, lo: nat, s: nat, a: nat, b: int)
    requires FieldsWf(fs, lo, s, a)
    ensures MarksField(k, fs, b - off) <==> MarkedField(k, fs, off, b)
    decreases fs
  {
    hide Marks, ScalarMark, MarkAt, Reach, AlignUp, Size, Align;
    MarksFieldIs(k, fs, b - off);
    if fs.Field? {
      assert b - off - fs.offset == b - (off + fs.offset);
      MarksReach(k, fs.typ, off + fs.offset, b);
      MarksFieldReach(k, fs.rest, off, fs.offset + Size(fs.typ), s, a, b);
      hide MarksField;
      FieldMarked(k, fs, off, b);
    }
  }

  lemma FieldMarked(k: Mark, fs: Fields, off: nat, b: int)
    requires fs.Field?
    ensures MarkedField(k, fs, off, b) <==> Marked(k, Spot(fs.typ, off + fs.offset), b) || MarkedField(k, fs.rest, off, b)
  {
    hide MarkAt, Reach;
  }

  /** A byte starts a pointer word, starts one the collector follows, or holds data, iff it
      does so in a scalar some path inside the value leads to. */
  lemma MarksIff(k: Mark, t: GoType, rel: int)
    requires Wf(t)
    ensures Marks(k, t, rel) <==> exists u, o :: MarkAt(k, u, o, rel) && Inside(t, u, o)
  {
    hide Marks, MarkAt, Reach, Inside;
    MarksReach(k, t, 0, rel);
    forall u, o ensures Inside(t, u, o) <==> Reach(Spot(t, 0), Spot(u, o)) { InsideIff(t, u, o); }
  }
}

/** The types of a method signature as reflect describes them on a 64-bit target:
    sizes, alignments, and which bytes of a value hold data or a pointer. */
module GoTypes {
  import opened Bits

  datatype GoType =
    | Ptr                      // pointer, channel, map, unsafe.Pointer
    | Func                     // a pointer to a closure, whose first word is its code
    | Bool
    | SInt(width: nat)         // int, int8 .. int64
    | UInt(width: nat)         // uint, uint8 .. uint64, uintptr
    | Float(width: nat)
    | Complex(width: nat)
    | Str
    | Iface(empty: bool)       // empty: an interface with no methods (any)
    | Slice
    | Array(len: nat, elem: GoType)
    | Struct(fields: Fields, size: nat, align: nat)

  datatype Fields = NoFields | Field(offset: nat, typ: GoType, rest: Fields)

  function Align(t: GoType): nat {
    match t
    case Ptr | Func | Str | Iface(_) | Slice => 8
    case Bool => 1
    case SInt(w) => w
    case UInt(w) => w
    case Float(w) => w
    case Complex(w) => w / 2
    case Array(_, e) => Align(e)
    case Struct(_, _, a) => a
  }

  function Size(t: GoType): nat {
    match t
    case Ptr | Func => 8
    case Bool => 1
    case SInt(w) => w
    case UInt(w) => w
    case Float(w) => w
    case Complex(w) => w
    case Str | Iface(_) => 16
    case Slice => 24
    case Array(n, e) => ElemOff(n, Size(e))
    case Struct(_, s, _) => s
  }

  /** Array elements: where element `i` starts, which element byte `rel` of the
      array lies in, and where in that element. */
  function ElemOff(i: nat, esz: nat): nat {
    if i == 0 then 0 else ElemOff(i - 1, esz) + esz
  }

  function ElemIdx(rel: nat, esz: nat): nat
    requires 0 < esz
  {
    if rel < esz then 0 else 1 + ElemIdx(rel - esz, esz)
  }

  function ElemRel(rel: nat, esz: nat): nat
    requires 0 < esz
  {
    if rel < esz then rel else ElemRel(rel - esz, esz)
  }

  /** What the compiler guarantees of every type: legal widths, and struct fields
      in order, each at the next offset its alignment allows, inside the struct, which
      is sized only if a field is. */
  predicate Wf(t: GoType)
    decreases t
  {
    match t
    case SInt(w) => IsAlign(w)
    case UInt(w) => IsAlign(w)
    case Float(w) => w == 4 || w == 8
    case Complex(w) => w == 8 || w == 16
    case Array(_, e) => Wf(e)
    case Struct(fs, s, a) => Aligned(s, a) && FieldsWf(fs, 0, s, a) && (0 < s ==> AnySized(fs))
    case _ => true
  }

  predicate AnySized(fs: Fields) {
    fs.Field? && (0 < Size(fs.typ) || AnySized(fs.rest))
  }

  predicate FieldsWf(fs: Fields, lo: nat, size: nat, align: nat)
    decreases fs
  {
    match fs
    case NoFields => lo <= size
    case Field(off, t, rest) =>
      && Wf(t) && IsAlign(Align(t)) && Align(t) <= align
      && off == AlignUp(lo, Align(t))
      && FieldsWf(rest, off + Size(t), size, align)
  }

  lemma {:induction false} AlignIsAlign(t: GoType)
    requires Wf(t)
    ensures IsAlign(Align(t))
  {
    match t
    case Array(_, e) => AlignIsAlign(e);
    case _ =>
  }

  /** A size is a multiple of the alignment. */
  lemma {:induction false} SizeAligned(t: GoType)
    requires Wf(t)
    ensures Aligned(Size(t), Align(t))
  {
    match t
    case Array(n, e) => SizeAligned(e); ElemAligned(n, Size(e), Align(e));
    case _ =>
  }

  lemma {:induction false} ElemAligned(n: nat, s: nat, a: nat)
    requires Aligned(s, a)
    ensures Aligned(ElemOff(n, s), a)
  {
    if n != 0 {
      ElemAligned(n - 1, s, a);
      NextElem(n - 1, s);
      hide ElemOff;
      SumAligned(ElemOff(n - 1, s), s, a);
    }
  }

  lemma SumAligned(x: nat, y: nat, a: nat)
    requires Aligned(x, a) && Aligned(y, a)
    ensures Aligned(x + y, a)
  {
    if a == 8 {
      assert x + y == 8 * (x / 8 + y / 8);
    } else if a == 4 {
      assert x + y == 4 * (x / 4 + y / 4);
    }
  }

  lemma NextElem(n: nat, s: nat)
    ensures ElemOff(n + 1, s) == ElemOff(n, s) + s
  {
  }

  /** Elements do not overlap, and the last ends where the array does. */
  lemma {:induction false} ElemBefore(i: nat, n: nat, s: nat)
    requires i < n
    ensures ElemOff(i, s) + s <= ElemOff(n, s)
    decreases n
  {
    NextElem(n - 1, s);
    hide ElemOff;
    if i < n - 1 { ElemBefore(i, n - 1, s); }
  }

  /** Every byte lies in its element. */
  lemma {:induction false} ElemSplit(rel: nat, esz: nat)
    requires 0 < esz
    ensures rel == ElemOff(ElemIdx(rel, esz), esz) + ElemRel(rel, esz) && ElemRel(rel, esz) < esz
  {
    if esz <= rel { ElemSplit(rel - esz, esz); }
  }

  /** Element `i` starts at `i` element sizes. */
  lemma {:induction false} ElemOffIs(i: nat, esz: nat)
    ensures ElemOff(i, esz) == i * esz
  {
    if i != 0 {
      ElemOffIs(i - 1, esz);
      assert i * esz == (i - 1) * esz + esz;
    }
  }

  /** And in no other. */
  lemma ElemAt(i: nat, esz: nat, r: nat)
    requires r < esz
    ensures ElemIdx(ElemOff(i, esz) + r, esz) == i && ElemRel(ElemOff(i, esz) + r, esz) == r
  {
    var x := ElemOff(i, esz) + r;
    ElemSplit(x, esz);
    var q := ElemIdx(x, esz);
    hide ElemOff, ElemIdx, ElemRel;
    if q < i { ElemBefore(q, i, esz); }
    if i < q { ElemBefore(i, q, esz); }
  }

  lemma ElemWord(n: nat, esz: nat, rel: nat)
    requires 0 < esz && ElemIdx(rel, esz) < n && Aligned(esz, 8)
    requires Aligned(ElemRel(rel, esz), 8) && ElemRel(rel, esz) + 8 <= esz
    ensures rel % 8 == 0 && rel + 8 <= ElemOff(n, esz)
  {
    hide ElemOff, ElemIdx, ElemRel;
    ElemSplit(rel, esz);
    ElemBefore(ElemIdx(rel, esz), n, esz);
    ElemAligned(ElemIdx(rel, esz), esz, 8);
  }

  // ----- pointers -----

  /** Byte `rel` of a value of type `t` is where a pointer word starts. */
  predicate IsPtrWord(t: GoType, rel: int)
    decreases t
  {
    match t
    case Ptr | Func | Str | Slice => rel == 0
    case Iface(_) => rel == 0 || rel == 8
    case Array(n, e) =>
      0 <= rel && 0 < Size(e) && ElemIdx(rel, Size(e)) < n && IsPtrWord(e, ElemRel(rel, Size(e)))
    case Struct(fs, _, _) => FieldPtrWord(fs, rel)
    case _ => false
  }

  predicate FieldPtrWord(fs: Fields, rel: int)
    decreases fs
  {
    fs.Field? && (IsPtrWord(fs.typ, rel - fs.offset) || FieldPtrWord(fs.rest, rel))
  }

  /** Every pointer is a whole aligned word inside its value, and makes its value
      word-aligned. */
  lemma {:induction false} PtrWordPlace(t: GoType, rel: int)
    requires Wf(t) && IsPtrWord(t, rel)
    ensures 0 <= rel && rel + 8 <= Size(t) && rel % 8 == 0 && Align(t) == 8
    decreases t
  {
    hide ElemOff, ElemIdx, ElemRel;
    match t
    case Array(n, e) =>
      PtrWordPlace(e, ElemRel(rel, Size(e)));
      SizeAligned(e);
      ElemWord(n, Size(e), rel);
    case Struct(fs, s, a) => FieldPtrPlace(fs, 0, s, a, rel);
    case _ =>
  }

  lemma {:induction false} FieldPtrPlace(fs: Fields, lo: nat, s: nat, a: nat, rel: int)
    requires FieldsWf(fs, lo, s, a) && FieldPtrWord(fs, rel) && IsAlign(a)
    ensures lo <= rel && rel + 8 <= s && rel % 8 == 0 && a == 8
    decreases fs
  {
    hide IsPtrWord;
    if IsPtrWord(fs.typ, rel - fs.offset) {
      var off := fs.offset;
      PtrWordPlace(fs.typ, rel - off);
      assert Aligned(off, 8);
      hide AlignUp, Size, Align;
      SumAligned(off, rel - off, 8);
      FieldsFit(fs.rest, fs.offset + Size(fs.typ), s, a);
    } else {
      FieldPtrPlace(fs.rest, fs.offset + Size(fs.typ), s, a, rel);
    }
  }

  lemma {:induction false} FieldsFit(fs: Fields, lo: nat, s: nat, a: nat)
    requires FieldsWf(fs, lo, s, a)
    ensures lo <= s
    decreases fs
  {
    if fs.Field? { FieldsFit(fs.rest, fs.offset + Size(fs.typ), s, a); }
  }

  // ----- data bytes -----

  /** Byte `rel` of a value of type `t` holds data, not padding. */
  predicate IsData(t: GoType, rel: int)
    decreases t
  {
    match t
    case Array(n, e) =>
      0 <= rel && 0 < Size(e) && ElemIdx(rel, Size(e)) < n && IsData(e, ElemRel(rel, Size(e)))
    case Struct(fs, _, _) => FieldData(fs, rel)
    case _ => 0 <= rel < Size(t)
  }

  predicate FieldData(fs: Fields, rel: int)
    decreases fs
  {
    fs.Field? && (IsData(fs.typ, rel - fs.offset) || FieldData(fs.rest, rel))
  }

  lemma {:induction false} DataInside(t: GoType, rel: int)
    requires Wf(t) && IsData(t, rel)
    ensures 0 <= rel < Size(t)
    decreases t
  {
    hide ElemOff, ElemIdx, ElemRel;
    match t
    case Array(n, e) =>
      DataInside(e, ElemRel(rel, Size(e)));
      ElemSplit(rel, Size(e));
      ElemBefore(ElemIdx(rel, Size(e)), n, Size(e));
    case Struct(fs, s, a) => FieldDataInside(fs, 0, s, a, rel);
    case _ =>
  }

  lemma {:induction false} FieldDataInside(fs: Fields, lo: nat, s: nat, a: nat, rel: int)
    requires FieldsWf(fs, lo, s, a) && FieldData(fs, rel)
    ensures lo <= rel < s
    decreases fs
  {
    hide Size, Align, AlignUp, IsData, Wf;
    if IsData(fs.typ, rel - fs.offset) {
      DataInside(fs.typ, rel - fs.offset);
      FieldsFit(fs.rest, fs.offset + Size(fs.typ), s, a);
    } else {
      FieldDataInside(fs.rest, fs.offset + Size(fs.typ), s, a, rel);
    }
  }
}

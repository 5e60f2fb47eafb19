/** Where the pointers of a value lie: the walk that lists them. */
module PointerWalk {
  import opened Bits
  import opened GoTypes

  /** The offsets the walk appends for a value of type `t` at `off`, in order. */
  function PtrList(t: GoType, off: nat): seq<nat>
    decreases t, 0
  {
    match t
    case Ptr | Func | Str | Slice => [off]
    case Iface(_) => [off, off + 8]
    case Array(n, e) => ElemPtrs(e, off, n)
    case Struct(fs, _, _) => FieldPtrs(fs, off)
    case _ => []
  }

  function ElemPtrs(e: GoType, off: nat, n: nat): seq<nat>
    decreases e, n
  {
    if n == 0 then [] else ElemPtrs(e, off, n - 1) + PtrList(e, off + ElemOff(n - 1, Size(e)))
  }

  function FieldPtrs(fs: Fields, off: nat): seq<nat>
    decreases fs
  {
    match fs
    case NoFields => []
    case Field(o, t, rest) => PtrList(t, off + o) + FieldPtrs(rest, off)
  }

  /** Appends the word offset of every pointer of a value of type `t` at `off`. */
  method PtrOffsets(t: GoType, off: nat, acc: seq<nat>) returns (out: seq<nat>)
    ensures out == acc + PtrList(t, off)
    decreases t
  {
    hide ElemOff;
    match t
    case Ptr | Func => out := acc + [off];
    case Str => out := acc + [off];       // the data word; the length is not a pointer
    case Iface(_) => out := acc + [off, off + 8];
    case Slice => out := acc + [off];     // the data word
    case Array(n, e) =>
      out := acc;
      if n == 0 { return; }
      var esz := Size(e);
      var i := 0;
      while i < n
        invariant 0 <= i <= n && out == acc + ElemPtrs(e, off, i)
      {
        Append(acc, ElemPtrs(e, off, i), PtrList(e, off + ElemOff(i, esz)));
        out := PtrOffsets(e, off + ElemOff(i, esz), out);
        i := i + 1;
      }
    case Struct(fs, _, _) =>
      out := acc;
      var rest := fs;
      while rest.Field?
        invariant out + FieldPtrs(rest, off) == acc + FieldPtrs(fs, off)
        invariant rest == fs || rest < fs
        decreases rest
      {
        Append(out, PtrList(rest.typ, off + rest.offset), FieldPtrs(rest.rest, off));
        out := PtrOffsets(rest.typ, off + rest.offset, out);
        rest := rest.rest;
      }
    case _ => out := acc;
  }

  lemma Append(a: seq<nat>, b: seq<nat>, c: seq<nat>)
    ensures a + (b + c) == (a + b) + c
  {
  }

  /** The walk lists exactly the pointer words of the value. */
  lemma {:induction false} PtrListExact(t: GoType, off: nat, o: nat)
    requires Wf(t)
    ensures o in PtrList(t, off) <==> IsPtrWord(t, o - off)
    decreases t, 0
  {
    match t
    case Array(n, e) => ElemPtrsExact(e, off, n, o);
    case Struct(fs, s, a) => FieldPtrsExact(fs, off, 0, s, a, o);
    case _ =>
  }

  lemma {:induction false} FieldPtrsExact(fs: Fields, off: nat, lo: nat, s: nat, a: nat, o: nat)
    requires FieldsWf(fs, lo, s, a)
    ensures o in FieldPtrs(fs, off) <==> FieldPtrWord(fs, o - off)
    decreases fs
  {
    hide Size, Align, AlignUp, PtrList, IsPtrWord, Wf;
    if fs.Field? {
      assert o - off - fs.offset == o - (off + fs.offset);
      PtrListExact(fs.typ, off + fs.offset, o);
      FieldPtrsExact(fs.rest, off, fs.offset + Size(fs.typ), s, a, o);
    }
  }

  /** Pointer words of the first `n` elements of an array. */
  ghost predicate ElemPtrWord(e: GoType, n: nat, rel: int) {
    0 <= rel && 0 < Size(e) && ElemIdx(rel, Size(e)) < n && IsPtrWord(e, ElemRel(rel, Size(e)))
  }

  lemma {:induction false} ElemPtrsExact(e: GoType, off: nat, n: nat, o: nat)
    requires Wf(e)
    ensures o in ElemPtrs(e, off, n) <==> ElemPtrWord(e, n, o - off)
    decreases e, n
  {
    hide ElemOff, ElemIdx, ElemRel;
    if n != 0 {
      ElemPtrsExact(e, off, n - 1, o);
      PtrListExact(e, off + ElemOff(n - 1, Size(e)), o);
      OneElem(e, n - 1, o - off);
    }
  }

  /** A pointer word of element `i` alone. */
  lemma OneElem(e: GoType, i: nat, rel: int)
    requires Wf(e)
    ensures IsPtrWord(e, rel - ElemOff(i, Size(e))) <==>
            0 <= rel && 0 < Size(e) && ElemIdx(rel, Size(e)) == i && IsPtrWord(e, ElemRel(rel, Size(e)))
  {
    hide ElemOff, ElemIdx, ElemRel;
    var r := rel - ElemOff(i, Size(e));
    if IsPtrWord(e, r) {
      PtrWordPlace(e, r);
      ElemAt(i, Size(e), r);
    } else if 0 <= rel && 0 < Size(e) {
      ElemSplit(rel, Size(e));
    }
  }
}

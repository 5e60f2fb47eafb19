/** Struct types as the compiler lays them out, which are the struct types there are. */
module CompilerTypes {
  import opened Bits
  import opened GoTypes
  import opened AbiLayout

  /** Fields in order, each at the next offset its alignment allows. */
  function Laid(ts: seq<GoType>, lo: nat): (fs: Fields)
    requires AllWf(ts)
    decreases |ts|
  {
    if ts == [] then NoFields
    else
      AlignIsAlign(ts[0]);
      var off := AlignUp(lo, Align(ts[0]));
      Field(off, ts[0], Laid(ts[1..], off + Size(ts[0])))
  }

  /** Where they end. */
  function EndOf(ts: seq<GoType>, lo: nat): (end: nat)
    requires AllWf(ts)
    ensures lo <= end
    decreases |ts|
  {
    if ts == [] then lo
    else
      AlignIsAlign(ts[0]);
      EndOf(ts[1..], AlignUp(lo, Align(ts[0])) + Size(ts[0]))
  }

  function MostAligned(ts: seq<GoType>): nat {
    if ts == [] then 1
    else
      var a := MostAligned(ts[1..]);
      if Align(ts[0]) > a then Align(ts[0]) else a
  }

  lemma {:induction false} MostIsAlign(ts: seq<GoType>)
    requires AllWf(ts)
    ensures IsAlign(MostAligned(ts)) && forall i :: 0 <= i < |ts| ==> Align(ts[i]) <= MostAligned(ts)
  {
    if ts != [] {
      AlignIsAlign(ts[0]);
      MostIsAlign(ts[1..]);
      forall i | 0 <= i < |ts| ensures Align(ts[i]) <= MostAligned(ts) { assert i > 0 ==> ts[i] == ts[1..][i - 1]; }
    }
  }

  /** The struct with fields of these types: aligned as its strictest field, one byte
      longer if it would end in a field of no size. */
  function StructOf(ts: seq<GoType>): GoType
    requires AllWf(ts)
  {
    MostIsAlign(ts);
    var end := EndOf(ts, 0);
    var padded := if 0 < end && Size(ts[|ts| - 1]) == 0 then end + 1 else end;
    Struct(Laid(ts, 0), AlignUp(padded, MostAligned(ts)), MostAligned(ts))
  }

  lemma {:induction false} LaidWf(ts: seq<GoType>, lo: nat, size: nat, align: nat)
    requires AllWf(ts) && EndOf(ts, lo) <= size && IsAlign(align) && forall i :: 0 <= i < |ts| ==> Align(ts[i]) <= align
    ensures FieldsWf(Laid(ts, lo), lo, size, align)
    decreases |ts|
  {
    if ts != [] {
      AlignIsAlign(ts[0]);
      forall i | 0 <= i < |ts[1..]| ensures Align(ts[1..][i]) <= align { assert ts[1..][i] == ts[i + 1]; }
      LaidWf(ts[1..], AlignUp(lo, Align(ts[0])) + Size(ts[0]), size, align);
    }
  }

  lemma {:induction false} SizedField(ts: seq<GoType>, lo: nat)
    requires AllWf(ts)
    ensures AnySized(Laid(ts, lo)) <==> exists i :: 0 <= i < |ts| && 0 < Size(ts[i])
    ensures !AnySized(Laid(ts, lo)) && lo == 0 ==> EndOf(ts, lo) == 0
    decreases |ts|
  {
    if ts != [] {
      AlignIsAlign(ts[0]);
      var next := AlignUp(lo, Align(ts[0])) + Size(ts[0]);
      SizedField(ts[1..], next);
      hide AlignUp, Align, Size, EndOf, Wf;
      if i :| 0 <= i < |ts| && 0 < Size(ts[i]) { assert i == 0 || ts[i] == ts[1..][i - 1]; }
      if j :| 0 <= j < |ts[1..]| && 0 < Size(ts[1..][j]) { assert ts[1..][j] == ts[j + 1]; }
    }
  }

  /** What is assumed of types holds of every struct the compiler builds from such types,
      hence of every type that can be written. */
  lemma StructsWf(ts: seq<GoType>)
    requires AllWf(ts)
    ensures Wf(StructOf(ts))
  {
    MostIsAlign(ts);
    SizedField(ts, 0);
    LaidWf(ts, 0, StructOf(ts).size, MostAligned(ts));
  }
}

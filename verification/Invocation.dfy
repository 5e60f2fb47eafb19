/** The invocation object interceptors work with. */
module Invocation {
  import opened Wrappers
  import opened Bits
  import opened Frames
  import opened Registers
  import opened Results
  import opened Materialize
  import opened Dispatch

  method CopyWords(dst: array<Word8>, src: array<Word8>)
    requires dst != src && dst.Length == src.Length
    modifies dst
    ensures dst[..] == src[..]
  {
    for i := 0 to dst.Length
      invariant dst[..i] == src[..i]
    {
      dst[i] := src[i];
    }
  }

  method SetWords(dst: array<Word8>, ws: seq<Word8>)
    requires dst.Length == |ws|
    modifies dst
    ensures dst[..] == ws
  {
    for i := 0 to dst.Length
      invariant dst[..i] == ws[..i]
    {
      dst[i] := ws[i];
    }
  }

  class Ctx {
    const call: Call
    const regs: RegBuf
    const snap: RegBuf
    var next: nat
    var args: Option<seq<Arg>>
    var hasSnap: bool
    var direct: bool

    constructor (call: Call, regs: RegBuf, snap: RegBuf)
      requires CallOk(call) && Apart(regs, snap)
      ensures Valid() && this.call == call && this.regs == regs && this.snap == snap
      ensures Fresh(State()) && State().regs == regs.State()
    {
      this.call, this.regs, this.snap := call, regs, snap;
      next, args, hasSnap, direct := 0, None, false, false;
    }

    /** The spill area and the snapshot are different buffers over one stack area. */
    static predicate Apart(regs: RegBuf, snap: RegBuf) {
      && regs.Valid() && snap.Valid() && regs.stack == snap.stack
      && {regs.ints, regs.ptrs, regs.floats, regs.stackPtrs} !! {snap.ints, snap.ptrs, snap.floats, snap.stackPtrs}
    }

    ghost predicate Valid()
      reads this
    {
      CallOk(call) && Apart(regs, snap) && (args.Some? ==> |args.value| == |call.sig.ins|)
    }

    ghost function State(): (s: Inv)
      requires Valid()
      reads this, regs.ints, regs.ptrs, regs.floats, regs.stackPtrs, regs.stack
      reads snap.ints, snap.ptrs, snap.floats, snap.stackPtrs, snap.stack
      ensures InvOk(call, s)
    {
      Inv(next, args, regs.State(), snap.State(), hasSnap, direct)
    }

    /** The arguments, read out of the registers on first use, which may panic. */
    method Args() returns (a: Outcome<seq<Arg>>)
      requires Valid()
      modifies `args
      ensures Valid() && (a.Done? <==> Reading(call, old(State())).Some?)
      ensures a.Done? ==> Reading(call, old(State())) == Some(State()) && args == Some(a.value)
      ensures a.Panics? ==> State() == old(State())
    {
      hide FitsWindow, ArgAt;
      if args.None? {
        var r := if hasSnap then snap else regs;
        var all := MaterializeArgs(r, call.env, call.sig, call.layout);
        if all.Panics? { return Panics; }
        assert all.value == ReadArgs(call, r.State());
        args := Some(all.value);
      }
      return Done(args.value);
    }

    /** Replaces one argument; an index out of range panics. */
    method SetArg(i: int, v: Arg) returns (e: Event)
      requires Valid()
      modifies `args
      ensures Valid() && (State(), e) == Dispatch.Next(call, old(State()), Op.SetArg(i, v))
    {
      hide FitsWindow, AllArgs, ReadArgs, Readable;
      var a := Args();
      if a.Panics? { return ReadPanic; }
      if i < 0 || i >= |a.value| { return IndexPanic; }
      args := Some(a.value[i := v]);
      return Wrote;
    }

    /** The next interceptor, or the target. `ints` and `floats` are what the
        target's code leaves in the registers when it is reissued directly. */
    method Proceed(ints: seq<Word8>, floats: seq<Word8>) returns (e: Event)
      requires Valid() && OpOk(Op.Proceed(ints, floats))
      modifies this, regs.ints, regs.ptrs, regs.floats, snap.ints, snap.ptrs, snap.floats, snap.stackPtrs
      ensures Valid() && (State(), e) == Dispatch.Next(call, old(State()), Op.Proceed(ints, floats))
    {
      hide FitsWindow, AllArgs, ReadArgs, Readable;
      if next < call.links {
        next := next + 1;
        return RanInterceptor(next - 1);
      }
      e := CallTarget(ints, floats);
    }

    method CallTarget(ints: seq<Word8>, floats: seq<Word8>) returns (e: Event)
      requires Valid() && OpOk(Op.Proceed(ints, floats))
      modifies this, regs.ints, regs.ptrs, regs.floats, snap.ints, snap.ptrs, snap.floats, snap.stackPtrs
      ensures Valid() && (State(), e) == Dispatch.CallTarget(call, old(State()), Op.Proceed(ints, floats))
    {
      hide FitsWindow, AllArgs, ReadArgs, Readable;
      if call.target.NoTarget? { return GaveZeros; }
      if call.target.ByCode? && args.None? && call.layout.stackBytes == 0 {
        e := ByRegisters(call.target.data, ints, floats);
        return;
      }
      var a := Args();
      if a.Panics? { return ReadPanic; }
      return CalledReflect(a.value);
    }

    /** Snapshot or replay the arguments, rebind the receiver, reissue the call. */
    method ByRegisters(data: Word8, ints: seq<Word8>, floats: seq<Word8>) returns (e: Event)
      requires Valid() && OpOk(Op.Proceed(ints, floats))
      modifies this, regs.ints, regs.ptrs, regs.floats, snap.ints, snap.ptrs, snap.floats, snap.stackPtrs
      ensures Valid() && (State(), e) == Dispatch.ByRegisters(old(State()), data, Op.Proceed(ints, floats))
    {
      hide FitsWindow, AllArgs, ReadArgs, Readable;
      if hasSnap {
        CopyWords(regs.ints, snap.ints);
        CopyWords(regs.floats, snap.floats);
      } else {
        CopyWords(snap.ints, regs.ints);
        CopyWords(snap.ptrs, regs.ptrs);
        CopyWords(snap.floats, regs.floats);
        CopyWords(snap.stackPtrs, regs.stackPtrs);
        hasSnap := true;
      }
      regs.ints[0] := data;
      regs.ptrs[0] := data;
      e := CalledCode(Frame(regs.ints[..], regs.ptrs[..], regs.floats[..], regs.stackPtrs[..], regs.stack[..]));
      SetWords(regs.ints, ints);
      SetWords(regs.floats, floats);
      direct := true;
    }
  }
}

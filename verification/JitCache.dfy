/** The generated trampolines, one per shape, and the module list through which the
    runtime finds their tables. */
module JitCache {
  import opened Wrappers
  import opened Precise

  /** A trampoline's text and the shape its tables describe. */
  datatype Module = Module(base: nat, size: nat, shape: StubShape)

  predicate InText(m: Module, pc: nat) { m.base <= pc < m.base + m.size }

  /** Fresh executable memory overlaps nothing registered. */
  ghost predicate FreshMem(modules: seq<Module>, base: nat, size: nat) {
    0 < size && forall i :: 0 <= i < |modules| ==> base + size <= modules[i].base || modules[i].base + modules[i].size <= base
  }

  ghost predicate Listed(modules: seq<Module>, sh: StubShape) {
    exists i :: 0 <= i < |modules| && modules[i].shape == sh
  }

  /** Texts are apart, and the cache maps each registered shape to its own text. */
  ghost predicate Consistent(bySh: map<StubShape, nat>, modules: seq<Module>) {
    && (forall i :: 0 <= i < |modules| ==> modules[i].shape in bySh && bySh[modules[i].shape] == modules[i].base && 0 < modules[i].size)
    && (forall sh :: sh in bySh ==> Listed(modules, sh))
    && (forall i, j :: 0 <= i < j < |modules| ==>
          modules[i].shape != modules[j].shape
          && (modules[j].base + modules[j].size <= modules[i].base || modules[i].base + modules[i].size <= modules[j].base))
  }

  class Jit {
    var bySh: map<StubShape, nat>
    var modules: seq<Module>    // the list from the first generated module on

    constructor ()
      ensures Valid() && bySh == map[] && modules == []
    {
      bySh, modules := map[], [];
    }

    ghost predicate Valid()
      reads this
    {
      Consistent(bySh, modules)
    }

    /** Appends to the list; what is on it stays where it is. */
    method RegisterModule(m: Module)
      modifies `modules
      ensures modules == old(modules) + [m]
    {
      modules := modules + [m];
    }

    /** The code for a shape: what is cached, or compiled into `mem` and registered.
        Without memory there is none, and a later call may still succeed. */
    method Trampoline(sh: StubShape, size: nat, mem: Option<nat>) returns (code: Option<nat>)
      requires Valid() && (mem.Some? ==> FreshMem(modules, mem.value, size))
      modifies this
      ensures Valid() && old(modules) <= modules
      ensures sh in old(bySh) ==> code == Some(old(bySh)[sh]) && bySh == old(bySh) && modules == old(modules)
      ensures sh !in old(bySh) && mem.Some? ==>
                code == mem && bySh == old(bySh)[sh := mem.value] && modules == old(modules) + [Module(mem.value, size, sh)]
      ensures sh !in old(bySh) && mem.None? ==> code.None? && bySh == old(bySh) && modules == old(modules)
    {
      if sh in bySh { return Some(bySh[sh]); }
      if mem.None? { return None; }
      ghost var was := modules;
      RegisterModule(Module(mem.value, size, sh));
      bySh := bySh[sh := mem.value];
      Registered(old(bySh), was, sh, mem.value, size);
      return mem;
    }
  }

  lemma Registered(bySh: map<StubShape, nat>, modules: seq<Module>, sh: StubShape, base: nat, size: nat)
    requires Consistent(bySh, modules) && sh !in bySh && FreshMem(modules, base, size)
    ensures Consistent(bySh[sh := base], modules + [Module(base, size, sh)])
  {
    var now := modules + [Module(base, size, sh)];
    forall s: StubShape | s in bySh || s == sh ensures Listed(now, s) {
      if s == sh {
        assert now[|modules|].shape == s;
      } else {
        assert Listed(modules, s);
        var i :| 0 <= i < |modules| && modules[i].shape == s;
        assert now[i].shape == s;
      }
    }
  }

  /** For a pc inside a shape's code the runtime finds that shape's tables and no
      others; so two shapes never share an address. */
  lemma FoundByPc(bySh: map<StubShape, nat>, modules: seq<Module>, sh: StubShape, i: nat, pc: nat)
    requires Consistent(bySh, modules) && sh in bySh && i < |modules| && modules[i].shape == sh && InText(modules[i], pc)
    ensures forall j :: 0 <= j < |modules| && InText(modules[j], pc) ==> j == i
    ensures InText(modules[i], bySh[sh])
    ensures forall s :: s in bySh && bySh[s] == bySh[sh] ==> s == sh
  {
    forall s | s in bySh && bySh[s] == bySh[sh] ensures s == sh {
      assert Listed(modules, s);
      var j :| 0 <= j < |modules| && modules[j].shape == s;
      assert modules[j].base == modules[i].base;
    }
  }
}

# go-weave, modelled and proved

go-weave forges interface values at runtime: calls on them enter generated machine
code, are turned into argument values, pass a chain of interceptors and reach the
target, by register replay where possible. This project models the parts in which
that can go wrong and proves what they are for.

| files | model |
|---|---|
| `GoTypes`, `CompilerTypes`, `TypePaths`, `AbiAssign`, `AbiLayout`, `AbiRules`, `PointerWalk`, `Coverage` | types with sizes, alignments and pointer words, and what lies inside them path by path; register assignment with rollback; stack slots; the call layout (`abi.go`) |
| `Precise`, `GcMap`, `JitCache` | the shape of a stack area, the byte bitmap the collector reads, the cache of trampolines (`abi.go`, `tramp.go`, `jit.go`) |
| `PcTable` | the stack-delta table and its decoder (`jit.go`) |
| `Amd64Asm` to `Amd64Run`, `Amd64Bytes`, `Arm64Asm` to `Arm64Unwind`, `Arm64Words`, `StackArea` | the two assemblers, small machines that decode and execute their bytes, the generated trampolines byte for byte and run from entry to return, what the unwind tables say on the way (`jitcode_amd64.go`, `jitcode_arm64.go`) |
| `DispatchLayout`, `Amd64Dispatch`, `Arm64Dispatch` | dispatch's own signature under the layout rules, met by both trampolines (`dispatch_amd64.go`, `dispatch_arm64.go`) |
| `Frames`, `Float32`, `FloatValues`, `Values`, `Scatter`, `Registers`, `Results`, `Materialize`, `Aliases` | the register spill area and stack copy of a call; values scattered into and materialised out of it, through float64 where the code does; arguments read while results are stored (`materialize.go`) |
| `Dispatch`, `Invocation`, `FastPath`, `Entry` | the invocation object over whole runs, snapshot and replay, the dispatch entry (`invocation.go`, `dispatch_amd64.go`, `dispatch_arm64.go`) |
| `ProxiedCall`, `Amd64Call`, `Arm64Call` | a whole call of a proxy without interceptors, from the caller's machine state and back (`dispatch_amd64.go`, `dispatch_arm64.go`) |
| `Chaos*`, `SplitMix` | fault rules, the lookup plan, flattened actions, the shared budget and the counters under it, the sampler, publication and first calls under races, what accepting a rule set means for the calls it faults (`chaos/`) |
| `Mocks`, `InOrder` | the call log, stubs and ordered verification (`mockito/`) |
| `Bits`, `LittleEndian`, `Wrappers` | words, bytes and option types shared by the rest |

Code that changes state step by step is a class or a method over its state, proved
against a function or predicate on values; the lemmas then speak of those. A Go
panic is a false or `Panics` result. Values are their bytes in memory, low byte
first; an interface is its two words. The register counts are left open between nine
and sixteen, so what is proved of layouts, pointer maps, frames and invocations holds
for amd64 and arm64 alike.

## Where the code and its own words differ

The model follows the code.

- `abi.go:10-12` says that after one spilled argument the rest stay on the stack;
  the code tries registers again for each (`AbiLayout.SpillDoesNotStick`).
- `jit.go:162` describes a table entry's delta as valid at and after its pc; the
  table and the decoder use it up to that pc (`PcTable.TableRoundTrip`).
- On arm64 the table is written in bytes (`jit.go:183`) and read in units of four
  (`docs/en/04-pclntab.md:136`). It is therefore wrong from the opening of the frame
  while registers are shuffled, and at the RET, and right wherever a call is in
  progress (`Arm64Unwind.UnwindRightIff`, `Arm64Unwind.UnwindRightReturning`).
- `invocation.go:132-133` says a second Proceed re-executes the remaining chain;
  each interceptor runs at most once and only the target repeats
  (`Dispatch.InterceptorsInOrder`).
- Results of unsigned kinds, and structs or arrays that fit one register, panic when
  stored (`Registers.RegBuf.ScatterValue`). In registers a func result becomes its code
  pointer, a nonzero complex64 loses its value, and a signalling float32 is quieted
  (`Results.ResultArrivesIff`).
- An interface argument is rebuilt from the concrete type its itab records
  (`materialize.go:194-203`). A non-nil empty interface has a type where the itab should
  be, and a proxy's forged itab records the proxy type: reading such an argument panics,
  or turns a proxy whose own type implements the interface into the proxy object
  (`Values.DecodesIff`, `Values.ProxyLost`). Interceptors that look at arguments then do
  show (`Dispatch.RunRefinesIff`), while calls by registers go through.
- Arguments are described where they lie (`doc.go:115-116`) and results go to the same
  registers, so an argument returned as a result is read after the results before it are
  stored; it arrives iff none of them uses its register (`Aliases.AliasArrivesIff`).
- The chaos documentation lets delays stack without limit; the sum is an int64
  (`ChaosActions.MeaningKeptIff`). It calls sampling reproducible per call; racing
  first calls count in separate tables (`ChaosRaces.DrawsInTurnIff`). A
  MaxCount can be passed by up to T-1 calls (`ChaosBudget.BudgetTight`).
- `mockito/inorder.go:47` says Times asserts exactly n calls; for n of at least 1 it
  accepts more (`InOrder.Cursor.Times`). A call made inside Verify uses up a return
  group of its stub (`Mocks.TriggerUnnoticedIff`), and one that panics stays in the log
  (`Mocks.State.Trigger`).

## Model

| member | source | states |
|---|---|---|
| `GoTypes.PtrWordPlace` | abi.go:354-378 | every pointer word of a well-formed type is whole, word-aligned and inside the value, and forces 8-byte alignment |
| `CompilerTypes.StructsWf` | abi.go:133-140 | the assumptions made of types hold of every struct laid out field by field as the compiler does, so no type that can be written is excluded |
| `TypePaths.AssignableIff` | abi.go:96-145 | a type may go in registers iff no path of fields and elements inside it leads to an array of two or more elements |
| `TypePaths.PartsAreWords` | abi.go:96-145 | the parts of a type that may are exactly the words, with their register class, of the scalars some path inside it leads to |
| `TypePaths.MarksIff` | abi.go:354-378 | a byte starts a pointer word, starts one the collector follows, or holds data iff it does so in a scalar some path inside the type leads to |
| `Bits.AlignUpIsMasking` | abi.go:21 | the masking expression on machine words gives a multiple of the alignment, no smaller and less than one alignment larger |
| `AbiAssign.Seq.AssignIntN` | abi.go:147-172 | reserves n integer registers, all or nothing, marking as pointers those the bit map names; panics for more than eight and for pointers that are no words |
| `AbiAssign.Seq.AssignFloatN` | abi.go:174-189 | reserves n float registers, all or nothing |
| `AbiAssign.Seq.RegAssign` | abi.go:96-145 | the type walk succeeds iff the type may go in registers (`TypePaths.AssignableIff` says which do) and all its parts fit, and then takes exactly its parts in order |
| `AbiAssign.Seq.StackAssign` | abi.go:191-200 | places a value whole in the next aligned slot |
| `AbiAssign.Seq.AddRcvr` | abi.go:65-70 | the receiver is one pointer word in the first register |
| `AbiAssign.Seq.AddArg` | abi.go:74-92 | one value more: registers if possible, else one slot, with a failed attempt leaving no trace; the slot it took, if any |
| `AbiAssign.PlaceAt` | abi.go:147-189 | part k of a value goes to the next register of its class |
| `AbiLayout.ValueSteps` | abi.go:54-61 | the steps looked up for value i are those emitted when it was added |
| `AbiLayout.EmitSound` | abi.go:74-92 | one value uses fresh registers below the counts, or one fresh aligned slot as large as it |
| `AbiLayout.PlanSound` | abi.go:246-269 | over any list of values no two steps share a register or overlap on the stack, and registers stay below the counts |
| `AbiLayout.TakesRegistersIff` | abi.go:85-91 | a value takes registers iff its type may and its whole need is left after the steps before it; `AbiRules.StackedIff` says the same without naming the type walk |
| `AbiRules.StackedIff` | abi.go:85-145 | over any list of values, one of some size is on the stack iff a path inside its type leads to an array of two or more elements, or its integer or float words are more than the steps before it left |
| `AbiRules.StackTaken` | abi.go:74-92 | a value in registers leaves the stack area alone, one of no size aligns it, any other takes the least aligned address and as many bytes as it has |
| `AbiRules.AreaTight` | abi.go:246-269 | the results start, and the area ends, at the least whole word after what is before |
| `AbiLayout.SpillDoesNotStick` | abi.go:85-91 | whatever value went to the stack while an integer register was free, a pointer after it still takes that register |
| `AbiLayout.ScalarPlace` | abi.go:96-145 | a word-sized scalar takes the next register of its class, or the next word of stack |
| `AbiLayout.SlotPlace` | abi.go:191-200 | a slot is aligned for its value, holds it whole and lies between what earlier and later values reserve |
| `AbiLayout.SlotsApart` | abi.go:191-200 | slots of one direction are disjoint |
| `AbiLayout.LayoutSound` | abi.go:246-269 | arguments lie below stackCallArgsSize, results in [retOffset, stackBytes), aligned, never sharing anything within a direction |
| `AbiLayout.NewABILayout` | abi.go:246-313 | builds the layout of any signature: plans, offsets, pointer offsets, disjoint gather regions, register pointer mask |
| `AbiLayout.PtrMask` | abi.go:271-277 | bit r is set iff integer register r carries a pointer |
| `AbiLayout.Gather` | abi.go:295-311 | each argument spread over several registers gets a word-aligned region of its own |
| `PointerWalk.PtrOffsets` | abi.go:354-378 | the recursive walk appends the pointer offsets in order |
| `PointerWalk.PtrListExact` | abi.go:354-378 | the walk lists exactly the pointer words of the value, through nested structs and arrays |
| `Coverage.PartsOrdered` | abi.go:96-145 | the register parts of a value lie in order inside it and do not overlap |
| `Coverage.PartsCover` | abi.go:96-145 | the parts cover every data byte of a value and no padding |
| `Coverage.HeapWordPart` | abi.go:96-145 | every pointer word of a value in registers, an interface's first word apart, is a part marked as pointer |
| `Coverage.FirstPart` | abi.go:96-145 | a sized value in registers has a part, and the first starts where the value does |
| `GcMap.Shape` | abi.go:334-350 | the shape's bit for a word of the stack area is set iff a pointer word of an argument or result starts there; more than 64 words panic |
| `GcMap.NewTrampoline` | tramp.go:25-52 | accepts iff the area fits the window and a generic slot exists or executable memory can be had; the shape chosen tells the truth about every word |
| `GcMap.PtrWordRange` | abi.go:278-293 | argument pointers lie in argument words, result pointers in result words, whole and aligned |
| `GcMap.PtrWordUnique` | abi.go:278-293 | no word of the area is a pointer word of two values |
| `GcMap.OffsExact` | abi.go:278-293 | the two offset lists of a layout are exactly the pointer words |
| `GcMap.BuildStackMaps` | jit.go:248-277 | the emitted bytes hold an args map with the shape's bits and an empty locals map behind it |
| `GcMap.SetMapBits` | jit.go:256-267 | setting bits byte by byte yields exactly the wanted bit map |
| `LittleEndian.HasIff` | jit.go:256-267 | bit i of a mask is the one worth 2^i |
| `GcMap.TrampolineMaps` | abi.go:246-313 | end to end, for every signature accepted: bit w of the emitted args map is set iff byte 8w of the caller's stack area starts a pointer word of exactly one value |
| `GcMap.MapsExact` | jit.go:248-277 | maps of a truthful shape give the collector the types' view of the stack area |
| `JitCache.Jit.Trampoline` | jit.go:337-359 | a cached shape keeps its code; a new one is compiled once and registered; failure to get memory changes nothing |
| `JitCache.Jit.RegisterModule` | jit.go:323-326 | modules are appended and never move |
| `JitCache.FoundByPc` | jit.go:318-326 | a pc inside a trampoline belongs to that shape's module alone, and no two shapes share an address |
| `PcTable.ZigZagRoundTrip` | jit.go:174-175 | zig-zag of any int32, negative ones included, reads back |
| `PcTable.VarintRoundTrip` | jit.go:176-187 | a varint of any number of bytes reads back and leaves what follows |
| `PcTable.EncodePCSP` | jit.go:170-194 | the loops emit the table of the entries |
| `PcTable.KnownTable` | jit.go:170-194 | the bytes of the table for deltas 1, 8 and 208 |
| `PcTable.TableRoundTrip` | jit.go:170-194 | the decoder returns the right entry's delta for every covered pc, consumes every pair and stops at the end marker |
| `PcTable.TableRoundTripIff` | jit.go:165-194 | that holds iff neighbouring deltas differ |
| `PcTable.DecodeFrom` | docs/en/04-pclntab.md:131-139 | from any point of a table, with any decoder quantum, decoding gives the deltas of the remaining entries scaled by it |
| `Amd64Asm.RoundTrip` | jitcode_amd64.go:38-201 | every encodable instruction decodes to itself and its own length, whatever follows, across displacement forms, SIB and REX |
| `Amd64Asm.RoundTripIff` | jitcode_amd64.go:38-201 | an instruction decodes to itself iff its operands are among those the assembler gets right |
| `Amd64Asm.PrefixFree` | jitcode_amd64.go:171-201 | no encoding is a proper prefix of another |
| `Amd64Asm.DecodeAt` | jitcode_amd64.go:171-201 | in a concatenation, decoding at each instruction's offset finds that instruction |
| `Amd64Asm.ModRMIsBits` | jitcode_amd64.go:38-47 | ModRM arithmetic is the bit expression of the source |
| `Amd64Cpu.RunStraight` | jitcode_amd64.go:171-201 | executing the bytes of straight-line code carries out its instructions |
| `Amd64Stub.JitStubCode` | jitcode_amd64.go:213-268 | emits the encoding of the stub of any shape, and its stack-delta table |
| `Amd64Bytes.StubBytes` | jitcode_amd64.go:213-255 | for every shape and dispatch address, the trampoline's bytes as the instruction set reference gives them, clears with their shortest displacement included |
| `Amd64Run.ReachesDispatch` | jitcode_amd64.go:213-251 | from any entry state the bytes reach dispatch with the index in RAX, eight argument registers moved on by one, the ninth and the stack area's address in the outgoing slots, exactly the marked result words zero and the rest of memory kept |
| `Amd64Run.ReturnsToCaller` | jitcode_amd64.go:253 | after a callee that keeps the frame, the caller gets RSP, RBP and control back, all else as dispatch left it |
| `Amd64Run.TableAt` | jitcode_amd64.go:220-266 | at every byte of every instruction the table gives that instruction's stack delta, although clears vary in length |
| `Amd64Run.UnwindExact` | jitcode_amd64.go:220-266 | wherever execution stands before the CALL, and in dispatch's frame, the delta decoded is entry SP minus current SP |
| `Amd64Run.UnwindExactReturning` | jitcode_amd64.go:253-266 | the same for every byte of ADD, POP and RET, after the callee has returned |
| `DispatchLayout.ParamAt` | dispatch_amd64.go:40-42 | whatever the register counts, the layout rules give dispatch's idx and all but the last of its words the integer registers, its floats the float registers, the last word and the stack area's address the two words of stack |
| `DispatchLayout.ResultAt` | dispatch_amd64.go:43-44 | each of dispatch's results is in the register of its number |
| `Amd64Dispatch.DispatchReads` | jitcode_amd64.go:213-251 | from any entry state the bytes reach dispatch with every integer parameter, read where the layout rules put it, being the method's index, the caller's nine registers in order, and the address of the caller's stack area |
| `Amd64Dispatch.FrameFits` | jitcode_amd64.go:14-16 | the trampoline's 208 bytes of frame are exactly dispatch's stack arguments and a spill word for every register it is passed in |
| `Arm64Asm.NoOverlap` | jitcode_arm64.go:85-119 | each emitted word is the plain sum of its fields, none overlapping, and the fields read back |
| `Arm64Asm.RoundTripIff` | jitcode_arm64.go:85-119 | an instruction decodes to itself iff its operands fit their fields |
| `Arm64Stub.Buffer.Put` | jitcode_arm64.go:123-131 | a word goes to the next four bytes of the fixed buffer |
| `Arm64Stub.JitStubCode` | jitcode_arm64.go:122-177 | emits the stub's words, at most 512 bytes for any shape of at most 64 result words, and its table |
| `Arm64Words.StubWords` | jitcode_arm64.go:122-177 | for every shape and dispatch address, the trampoline's words as the instruction set reference gives them |
| `Arm64Words.CodeIsWords` | jitcode_arm64.go:123-131 | the code buffer holds those words in order, low byte first |
| `Arm64Run.RunShift` | jitcode_arm64.go:152-154 | the descending moves shift every register by one, none reading what an earlier one wrote |
| `Arm64Run.RebuildAddress` | jitcode_arm64.go:158-161 | MOVZ and three MOVKs rebuild any 64-bit address |
| `Arm64Run.ReachesDispatch` | jitcode_arm64.go:122-162 | from any entry state the bytes reach dispatch with every argument register moved on, the last one and the area's address as stack parameters, marked result words zero |
| `Arm64Run.ReturnsToCaller` | jitcode_arm64.go:164-168 | the caller gets SP, FP, LR and control back |
| `Arm64Unwind.SpAt` | jitcode_arm64.go:122-162 | k instructions after entry the machine's SP has moved by the delta the table's entry for instruction k gives |
| `Arm64Unwind.UnwindRightIff` | jit.go:183-187 | at every byte before the BLR is executed, from any entry state, the table read in bytes gives entry SP minus current SP, and read in words, as the decoder does, it does iff the instruction is one of the first three or the thirteenth or later |
| `Arm64Unwind.WrongOnceOpened` | jit.go:183-187 | so for every shape it is wrong right after the frame is opened |
| `Arm64Unwind.UnwindRightInDispatch` | jit.go:183-187 | it is right in dispatch's frame, for the BLR and the word returned to |
| `Arm64Unwind.UnwindRightReturning` | jitcode_arm64.go:164-176 | after the callee's return it is right at LDP and ADD and wrong at the RET |
| `Arm64Dispatch.DispatchReads` | jitcode_arm64.go:122-162 | from any entry state dispatch reads the index, the caller's sixteen registers in order and the address of the stack area, each where the layout rules put it |
| `Arm64Dispatch.FrameFits` | jitcode_arm64.go:14-16 | the frame is dispatch's stack arguments, a spill word for every register and the saved LR, rounded up to 16 |
| `Float32.NarrowWiden` | materialize.go:242-247 | a float32 widened to float64 and narrowed again is the same but for signalling NaNs, which come out quiet |
| `Float32.SignallingQuieted` | materialize.go:246 | for instance 0x7F800001 becomes 0x7FC00001 |
| `Float32.WidenKeeps` | materialize.go:280-284 | only the zero float32 equals the low half of its float64 form |
| `FloatValues.WidenSameNumber` | materialize.go:242-247 | float64(x) has the sign and exactly the value of x, for every finite float32, subnormals included, and is infinite iff x is |
| `Values.EmitCovers` | abi.go:74-145 | the steps of a value move every data byte of it |
| `Values.EmitInside` | abi.go:74-145 | every step lies inside the value and is one of its parts |
| `Values.DecodesIff` | materialize.go:85-136 | a value its steps hold materialises to itself iff, being an interface, it is nil or has methods and the runtime's own itab |
| `Values.RoundTripIff` | materialize.go:85-116 | materialising what was scattered along the same steps returns the value iff it is faithful: in registers no func with code apart, signalling float32 or nonzero complex64, and of interfaces only nil and those with methods and the runtime's own itab |
| `Values.ProxyLost` | materialize.go:194-203 | a proxy passed as an interface argument: reading it panics unless the proxy type implements the interface, and gives another interface value if it does |
| `Values.FuncLost` | materialize.go:156-173 | a func in a register is stored as its code pointer, which is another word where code lies apart from the closure |
| `Values.ComplexOneLost` | materialize.go:280-284 | the complex64 1 arrives as 0 |
| `Scatter.SignedBytes` | materialize.go:163-164 | the low bytes of a sign-extended word are the value's own bytes |
| `Scatter.WroteStep` | materialize.go:58-75 | storing at one step keeps what the value's other steps hold |
| `Registers.RegBuf.WriteWord` | materialize.go:140-153 | stores the low bytes of a word; a size no word has panics |
| `Registers.ScalarShape` | materialize.go:156-173 | the scalar writer refuses exactly unsigned kinds, structs and arrays in one register, and else stores the value's image |
| `Registers.RegBuf.ScatterScalar` | materialize.go:156-173 | one integer register gets the scalar, and its mirror iff it is a pointer; or nothing changes and it panics |
| `Registers.RegBuf.ScatterFloat` | materialize.go:242-249 | one float register gets the float, a float32 by way of float64, or the call panics on a struct or array |
| `Registers.RegBuf.ScatterWords` | materialize.go:264-279 | strings and slices land word by word, the data pointer mirrored |
| `Registers.RegBuf.ScatterComplex` | materialize.go:280-286 | both parts are stored as float64 whatever the width |
| `Registers.RegBuf.ScatterParts` | materialize.go:289-297 | any other value in registers lands as slices of its memory; registers with pointers are mirrored, and no mirror of another changes |
| `Registers.RegBuf.ScatterIface` | materialize.go:303-320 | the itab and data words land, and the data word alone is mirrored, in registers as in a slot |
| `Registers.RegBuf.MirrorStackPtrs` | materialize.go:224-230 | every pointer word of a stack-assigned value gets its mirror, and no other word of the area does, inside the slot or out of it |
| `Registers.RegBuf.ScatterSlot` | materialize.go:256-259 | a stack-assigned value is copied whole and mirrored |
| `Registers.RegBuf.ScatterValue` | materialize.go:234-297 | panics iff it is of an unsigned kind, a struct or an array and takes one register; else its steps hold the value's image, a register's mirror is set iff it carries a pointer and a stack word's iff it is a pointer word of the value, and nothing else in registers, mirrors or stack changes, the bytes of an integer register past its step's size included |
| `Results.ValuesApart` | abi.go:246-269 | steps of different values never clash |
| `Results.StoredNext` | materialize.go:128-135 | scattering one result disturbs none stored before |
| `Results.StoreResults` | materialize.go:120-136 | panics iff some result cannot be scattered; else every result, zero where none fits, is in its place, and over all of them a register's mirror changes only where a result's pointer goes and a stack word's only at a pointer word of a result; nil results after the fast path change nothing |
| `Results.ResultArrivesIff` | materialize.go:120-136 | what the caller finds along a result's steps is the value returned iff it is stored plain: on the stack, or in registers no func with code apart, signalling float32 or nonzero complex64 |
| `Results.CallerFinds` | materialize.go:120-136 | along a result's steps the caller finds what the interceptor gave iff it is on the stack, or no func with code apart, no float32 NaN with its quiet bit clear and no nonzero complex64; and zeros where the interceptor gave none that fits |
| `Results.UnsignedRejected` | materialize.go:164-167 | a method returning one uint64 cannot have its result stored |
| `Results.ResultPointersVisible` | materialize.go:207-230 | every pointer word of every stored result, an interface's first word apart, has an equal entry in a mirror, in bounds for every layout within the window |
| `Materialize.InPlace` | materialize.go:102-103 | a value in one register or slot can be read where it lies |
| `Materialize.GatherInto` | materialize.go:108-112 | gathers a value's parts into its region and leaves the rest of the buffer |
| `Materialize.MaterializeIface` | materialize.go:180-205 | an interface is nil iff its first word is; else its data word with the runtime's itab for the concrete type recorded, or a panic where that type does not implement it |
| `Materialize.MaterializeArgs` | materialize.go:85-116 | panics iff some argument cannot be read; else every argument comes out as the frame holds it, those gathered as views of one shared buffer |
| `Materialize.ArgDecodesIff` | materialize.go:85-116 | an argument the caller encoded comes out unchanged iff, being an interface, it is nil or has methods and the runtime's own itab |
| `Aliases.PlaceKept` | materialize.go:120-136 | an argument described in a register or slot that no result stored so far uses still reads as at the start |
| `Aliases.PlaceOverwritten` | materialize.go:120-136 | one in a register that a result stored so far uses reads, as far as that result's part goes, as the part |
| `Aliases.SlotNeverOverwritten` | abi.go:246-269 | no result uses an argument's stack slot |
| `Aliases.AliasArrivesIff` | materialize.go:102-103 | an argument described in place and returned as result k arrives as it was passed, for all arguments, other results and closures, iff no result before k uses its place, or storing panics on some result anyway |
| `Aliases.ArgumentLost` | materialize.go:102-103 | an int argument returned as the third of three ints is stored as the second |
| `Dispatch.StepRefines` | invocation.go:107-195 | where reading changes no argument, one operation on an invocation is one step of the plain machine that keeps an argument list from the start |
| `Dispatch.RunRefines` | invocation.go:107-195 | where reading changes no argument, snapshot, lazy reading and the register fast path cannot be told from the plain machine over any sequence of Proceed, Args and SetArg |
| `Dispatch.RunRefinesIff` | invocation.go:107-195 | and no run can be told apart iff reading changes no argument |
| `Dispatch.UnreadableStaysUnread` | invocation.go:116-125 | with an argument that cannot be read, whatever needs the arguments panics in every run and calls by registers go on |
| `Dispatch.RunKeeps` | invocation.go:107-195 | in every run, for all arguments, the registers that hold the arguments are the ones the call arrived with |
| `Dispatch.InterceptorsInOrder` | invocation.go:134-141 | in every run of an invocation interceptors run in chain order, each at most once, and the target or the zeros are reached only after all of them, however often Proceed is called |
| `Dispatch.TargetReachedIff` | invocation.go:151-195 | in every run, a Proceed past the last interceptor calls the target's code iff there is such code, nothing travels on the stack and nothing before took the arguments; without a target it gives zeros; else it goes through reflection, or panics on an argument that cannot be read |
| `Dispatch.RunTook` | invocation.go:116-125 | in every run the arguments are held as a list iff some event took them, and results lie in the registers iff the target's code was called |
| `Dispatch.CodeGetsTheCall` | invocation.go:166-187 | every call of the target's code, the first or a later one, gets the registers, stack and pointer mirrors the call arrived with, but for the receiver, which is the target in the register and in its mirror |
| `Dispatch.DirectMeansNoStack` | invocation.go:166 | the direct flag implies that the method has no stack area |
| `Dispatch.ReadArgsStay` | materialize.go:102-103 | once arguments are read, no operation writes the registers they are described in |
| `Dispatch.SameArgs` | invocation.go:182-183 | rebinding the receiver's register changes no argument |
| `Invocation.Ctx.Args` | invocation.go:116-125 | reads the arguments on first use, from the snapshot once there is one; a panic there leaves the invocation as it was |
| `Invocation.Ctx.SetArg` | invocation.go:128 | replaces one argument; an index out of range or arguments that cannot be read panic |
| `Invocation.Ctx.Proceed` | invocation.go:134-141 | the next interceptor, or the target |
| `Invocation.Ctx.CallTarget` | invocation.go:151-195 | zeros without a target, the register fast path when nothing was read and nothing is on the stack, else a reflective call |
| `Invocation.Ctx.ByRegisters` | invocation.go:166-187 | snapshots or replays the argument registers, rebinds the receiver and leaves the target's results in place |
| `FastPath.ReplayPasses` | invocation.go:167-183 | the replayed registers pass the original arguments to the target |
| `FastPath.PlainArgsIff` | materialize.go:180-205 | for values of the argument types, reading changes none of them iff every interface among them is nil or has methods and the runtime's own itab |
| `FastPath.FastRefinesSlow` | invocation.go:164-194 | for a target implementing a function and a method without a stack area, after any run of an invocation, replays from the snapshot included: the fast path and the reflective one return what the function gives for the original arguments, and leave the same result registers for exactly the results stored plain |
| `Entry.Arrive` | dispatch_amd64.go:54-87 | the pooled state holds the registers, the pointer registers mirrored, no stale stack mirrors, and the caller's stack arguments |
| `Entry.PrePtrsExact` | dispatch_amd64.go:56-66 | a register is mirrored before anything may allocate iff it carries a pointer |
| `Entry.CopyBack` | dispatch_amd64.go:93-99 | copies back the stack results and touches nothing else of the caller's area |
| `Entry.ArgsArrive` | dispatch_amd64.go:54-87 | the invocation starts with the arguments the caller passed |
| `Entry.ResultsLeave` | dispatch_amd64.go:93-114 | the caller finds the results the invocation ends with |
| `ProxiedCall.Serve` | dispatch_amd64.go:70-99 | dispatch without interceptors: what the invocation starts from, the call made, when it panics, and what is left in the registers, the mirrors and the caller's area |
| `ProxiedCall.ServedIsSeen` | dispatch_amd64.go:93-114 | what it promises of registers and area is what the theorem below assumes of the caller's view |
| `ProxiedCall.ProxyIsTransparent` | dispatch_amd64.go:45-115 | from caller's frame to caller's frame, result i of a proxied call is what the target's function gives for the caller's arguments iff the call went by registers or the result is one stored plain |
| `Amd64Call.ProxiedCallReturns` | jitcode_amd64.go:213-268 | the same with the trampoline's bytes run on both sides of dispatch: from the caller's registers and memory to dispatch's parameters, and from its results back to the caller with its stack and frame pointers |
| `Arm64Call.ProxiedCallReturns` | jitcode_arm64.go:122-177 | the same on arm64 |
| `ChaosRules.Check` | chaos/chaos.go:382-423 | accepts a rule iff its numbers are in range and its actions are one fault each, all but the last delays; the reason given, and the action it names, is true of the rule |
| `ChaosRules.ConflictIff` | chaos/chaos.go:352-378 | the two patterns looked for are exactly the pairs whose call sets overlap without one strictly containing the other |
| `ChaosRules.ValidateSet` | chaos/chaos.go:352-378 | accepts iff every rule is usable and any two cover disjoint calls or one strictly contains the other; an overlap reported is between rules of the set |
| `ChaosPlan.Rebuild` | chaos/chaos.go:268-310 | publishes the plan compiled from the rules, or an empty one when disabled |
| `ChaosPlan.CompileFor` | chaos/chaos.go:268-310 | the nested maps hold, for each condition, the compiled rule that has it |
| `ChaosPlan.MatchIsOwner` | chaos/chaos.go:334-347 | for every interface name and non-empty method the lookup returns the compiled form of the most specific rule covering the call, and nothing iff none covers it |
| `ChaosPlan.OwnerUnique` | chaos/chaos.go:44-47 | at most one rule owns a call |
| `ChaosPlan.OrderIrrelevant` | chaos/chaos.go:334-347 | the lookup does not depend on the order of the rules |
| `ChaosActions.Flatten` | chaos/chaos.go:280-290 | the loop computes the flattened record, latency with int64 wrap-around |
| `ChaosActions.MeaningKeptIff` | chaos/inject.go:123-138 | for every context deadline and method, applying the record equals applying the actions one by one, iff the delays sum to less than 2^63 ns |
| `ChaosActions.TwoHugeDelays` | chaos/chaos.go:282-283 | two delays of 2^62 ns make no delay at all |
| `ChaosLaws.ActionOkIff` | chaos/chaos.go:400-414 | an action is accepted iff it is a delay, an error or a panic and nothing besides |
| `ChaosLaws.OrderOkIff` | chaos/chaos.go:391-420 | of actions that are one fault each, the order accepted, delays before the last, is the one in which some other action in any place would show, on a method with an error result |
| `ChaosLaws.RejectedNeverRuns` | chaos/chaos.go:415-417 | in a list rejected for its order nothing from the action named on can ever run, on a method with an error result, nor after a panic on any |
| `ChaosLaws.AcceptedMeaning` | chaos/chaos.go:268-310 | for every set accepted, each rule's published record has the effect of its actions one by one, for every deadline and method, iff its delays sum to less than 2^63 ns |
| `ChaosLaws.OwnsIff` | chaos/chaos.go:334-347 | ownership by names alone: the owner's names are the call's or open, and any other rule for the call has the owner's names or leaves them open, and leaves open one that the owner does not |
| `ChaosLaws.Intercept` | chaos/inject.go:101-139 | one call from the rules to its effect: with injection off or no rule for it, it is left alone; the rule that owns it faults it iff the clock is in that rule's window, its budget is not spent and the sample is below its rate, and then its actions happen one by one |
| `ChaosBudget.BudgetBound` | chaos/inject.go:113-121 | with T threads calling any methods of any tables the rule covers, in any interleaving, at most M+T-1 calls are faulted |
| `ChaosBudget.SequentialBound` | chaos/inject.go:113-121 | when no two calls overlap, on any number of threads and at any methods, at most M are |
| `ChaosBudget.BudgetTight` | chaos/inject.go:113-121 | for all M and T, and whichever method each thread calls, some interleaving faults exactly M+T-1 |
| `ChaosBudget.OrdinalsInTurn` | chaos/inject.go:116 | in any interleaving the n'th draw at a method's counter is ordinal n, so draws at one counter differ, and the number of calls faulted depends only on the ordinals drawn |
| `ChaosSampler.XorHas` | chaos/inject.go:162 | exclusive or decides each bit by itself |
| `ChaosSampler.MixBijective` | chaos/inject.go:160-168 | the mix is a bijection on 64-bit ordinals, with its inverse |
| `ChaosSampler.Sample` | chaos/inject.go:160-168 | the value drawn is the hash's top 53 bits as a fraction, in [0, 1) |
| `SplitMix.FirstOutput` | chaos/inject.go:160-168 | ordinal 1 hashes to 0xE220A8397B1DCDAF, the first output of splitmix64 seeded with 0 |
| `ChaosSampler.FaultedIff` | chaos/inject.go:116 | a call is faulted iff its hash is below 2^11 * ceil(rate * 2^53) |
| `ChaosSampler.ExactlyFaulted` | chaos/inject.go:154-168 | over the whole period exactly 2^11 * ceil(rate * 2^53) ordinals are faulted |
| `ChaosSampler.RateOneFaultsAll` | chaos/chaos.go:132-134 | rate 1 faults every call |
| `ChaosIntercept.Counters.Intercept` | chaos/inject.go:101-139 | window against the clock, budget, sample and effect of one call: exactly which calls draw, are faulted and are counted, and what a faulted one does |
| `ChaosIntercept.AloneIsRun` | chaos/inject.go:101-121 | a call that runs alone is a run of the shared machine's atomic steps |
| `ChaosInjector.Injector.Set` | chaos/chaos.go:188-197 | replaces and enables a usable rule set; a rejected one leaves everything as it was |
| `ChaosInjector.Injector.Disable` | chaos/chaos.go:202-207 | publishes an empty plan and keeps the rules |
| `ChaosInjector.Injector.Enable` | chaos/chaos.go:210-215 | publishes the kept rules again |
| `ChaosInjector.Binder.Resolve` | chaos/inject.go:76-92 | returns the table of the current plan, rebuilt only when the plan has been replaced; its row for a method is empty iff injection is off or no rule covers that method of the interface, and else is the compiled form of the rule that owns it |
| `ChaosInjector.RowsAreOwners` | chaos/inject.go:76-92 | that, of the table of every plan published from an accepted rule set |
| `ChaosRaces.RunInv` | chaos/inject.go:76-92 | over every interleaving of writers and racing callers, late stores included, each cached table agrees with its own plan and each call uses a table of the plan it loaded |
| `ChaosRaces.CallUsesPlanAtStart` | chaos/chaos.go:199-207 | a call that starts with no writer about is decided by the rules and switch of that moment, whatever happens meanwhile: each method's row is that of the rule that owned it then, and empty iff injection was off or none covered it |
| `ChaosRaces.OffOwnsNothing` | chaos/chaos.go:202-207 | with injection off no rule owns any method |
| `ChaosRaces.OffNeverSamples` | chaos/chaos.go:199-207 | so a call that starts with injection off and no writer about is never sampled, hence never faulted, whatever happens meanwhile |
| `ChaosRaces.WriterLeaves` | chaos/chaos.go:188-215 | in every interleaving, what Set, Disable or Enable leaves once published: the rules and the switch, which calls change in no way until the next writer |
| `ChaosRaces.KillSwitch` | chaos/chaos.go:199-207 | in every interleaving, a call that starts after Disable has returned, with no Set or Enable between, is never sampled, whatever writers do while it runs |
| `ChaosRaces.DrawsInTurnIff` | chaos/inject.go:44-57 | in every run the calls of a method on a plan draw the ordinals 1, 2, 3 and so on iff all of them drew at one table |
| `ChaosRaces.ResolvedOnce` | chaos/inject.go:76-92 | in particular when only one table was built from the plan |
| `ChaosRaces.RacingCallsDrawAlike` | chaos/inject.go:73-92 | two racing first calls of a method some rule owns can each draw ordinal 1, from tables of their own |
| `Mocks.State.Intercept` | mockito/mock.go:100-125 | appends the call and answers from the last stub for its method whose arguments match: its panic, its function's result, or its next group of results, counted; without one a mock gives zeros, a spy runs its target, and no stub changes |
| `Mocks.State.FindStub` | mockito/mock.go:128-136 | the last stub for the method of the call whose arguments match, and none iff there is none |
| `Mocks.MethodsApart` | mockito/mock.go:127-136 | however calls of several methods are mixed, those of one method get the answers they would get alone, from the stubs for that method alone |
| `Mocks.State.Rollback` | mockito/mock.go:140-147 | drops the last recorded call |
| `Mocks.State.Trigger` | mockito/inorder.go:27-37 | the call written inside Verify leaves the log as it was iff it returns; one that panics stays in it, and either way the stub met may have handed out a group |
| `Mocks.PanickingTriggerStays` | mockito/inorder.go:27-37 | verifying a call that meets a ThenPanic stub adds it to the log |
| `Mocks.TriggerUnnoticedIff` | mockito/inorder.go:27-37 | the answers to every later list of calls are unchanged by a call inside Verify iff the stub it meets, if any, has no further group to hand out |
| `Mocks.GroupsInOrder` | mockito/mock.go:159-173 | return groups come in order and the last repeats |
| `InOrder.Cursor.Times` | mockito/inorder.go:48-69 | succeeds iff n calls of the method with arguments that match follow the cursor (none, for n = 0) and moves just past the n'th |
| `InOrder.GreedyLeast` | mockito/inorder.go:48-69 | if any order-preserving embedding exists the greedy scan finds one that ends no later |
| `InOrder.GreedyEmbeds` | mockito/inorder.go:48-69 | greedy success is an embedding ending at the cursor |
| `InOrder.Verify` | mockito/inorder.go:48-69 | a sequence of Times(n), n at least 1, succeeds iff increasing positions of the log hold, one for each call required, a call of its method with arguments that match, equivalently iff the log splits into stretches with enough matches for each requirement in turn; the cursor is the least end of such positions |
| `InOrder.InTurnIff` | mockito/inorder.go:48-69 | the greedy scan succeeds iff the log splits into such stretches |
| `InOrder.OtherCallsIgnored` | mockito/inorder.go:55 | adding or removing calls of methods that no requirement names does not change whether the requirements are met |

## Left out

- reflect itself: types are an inductive datatype with the guarantees the compiler gives, and a value's kind is its type's.
- Runtime internals (`rt.go`, module data offsets, itab forging): the fields of the runtime's types, itabs and module data are assumed to lie where the code's own start-up checks look for them (`rt.go:171-197`); an itab is the interface and the type it records.
- Executable memory: an allocation is fresh disjoint memory or a failure; mapping, MAP_JIT toggling and cache flushes are not modelled.
- The bodies of redial: running a target replaces the integer and float registers and nothing else. No mirror of its results is claimed, since nothing in the code makes one.
- Assembler text: the model starts from instructions, not from the strings tokenised and parsed; numbers parsed as int64 bound the dispatch address of `Amd64Stub.StubOk`.
- The collector, stack growth and the scheduler: which words are marked, and interleavings of atomic steps, are modelled instead.
- Materialize.MaterializeArgs: an argument value is a copy of what its place holds; that places can change under it while results are stored is the subject of `Aliases`.
- Dispatch.ReadArgsStay: ends where the results are stored; `Aliases.PlaceKept` and `Aliases.PlaceOverwritten` go on from there.
- Materialize.MemAt: bytes of a value past its register are padding and read as zero, where the code would read whatever follows.
- Values.Decode: reading a non-nil empty interface counts as a panic; the code takes a word of its type descriptor for a type, and nothing is claimed of what that would be.
- Registers.RegBuf.ScatterIface: the itab a boxed value gets is taken to be the one in its bytes; building it is the runtime's.
- JitCache.Jit.RegisterModule: the chain of modules is a sequence; that each links to the next is not shown.
- Amd64Call.ProxiedCallReturns: dispatch's compiled body is its model `ProxiedCall.Serve`; float registers, which no instruction of a trampoline names, pass through as parameters.
- ChaosIntercept.Counters.Intercept: the clock's reading and the time the call's context has left are parameters.
- ChaosRaces.CallUsesPlanAtStart: one interface of an injector is followed; others share only the plan, which is immutable.
- Budgets across plans: every publication starts new counters, also one by Disable or Enable; a budget is modelled within one plan.
- Decoding rules from specs, durations and timestamps, and the texts of errors.
- Matchers, stub building, polling, goroutine-local keys and verification over several mocks: whether a call meets an expectation is a fixed predicate.

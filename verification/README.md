# A verified model of the i386 code generator

The system is a small compiler. LLVM IR is simplified by three rewriting passes (variable arguments,
constant expressions, getelementptr), translated instruction by instruction to raw i386 bytes in a
code buffer with a data segment beside it, and finally patched in place by two relocation passes,
after which the host calls the bytes. The project models each of these layers and proves that
meaning is preserved across them; the layers of the code generator are connected into one theorem
from a module to the machine's result.

**The code generator.** `Ir` gives the supported LLVM subset a step semantics with an explicit stack
of frames, allocas and program memory. `Machine` gives the emitted x86 subset a semantics over
registers, flags and little-endian byte memory, `Encoding` its bytes (Intel 64 and IA-32
Architectures Software Developer's Manual, Volume 2, sections 2.1.3 and 2.1.5; condition codes from
Volume 1, Appendix B), and `Execution` fetches, decodes and runs them. `Codegen` says which
instructions each IR instruction becomes and where. What these layers share, such as the arithmetic
of words, byte order, opcodes, argument positions, alignment and phi entries, is stated once more on
its own, in literal numbers or by its defining property: the arithmetic in `Words` and `IrOps`,
division, faults and flags in `Machine`, phis, branches, memory and calls of the program's semantics
in `Semantics`, the bytes in `Templates` and `Opcodes`, the calling convention in `Abi`. `Relation`
is the simulation relation: a value narrower than 32 bits shares its 4-byte slot with garbage, so
slot and value agree only modulo 2 to the width; a cast has no slot and is read through the chain of
its operands; members of the boolean class (comparisons, constants, and logic, phis and selects of
members) have a low byte of 0 or 1. `Arithmetic`, `Operands`, `Results`, `Wide`, `MemoryOps` and
`Helpers` prove single instructions correct, `Copies`, `PhiExact` and `Control` phis, branches and
switches, `Calls`, `Transfers` and `Returns` calls, and `Simulation` and `Correctness` every step
and every run.

**What a run may read.** Phi copies are made one after another, also for edges that are not taken,
and aliases are read where they are used. The generated code is therefore right for runs that never
read a name whose storage has been overwritten, never copy phis in an unsafe order and never select
on a condition outside the boolean class. The model states this as a second, *checked* mode of the
same semantics, which forgets overwritten names and stops at the other two: `Agreement` proves that
it only ever stops earlier than LLVM's, and the main theorems hold for every run on which it does
not stop. `Freshness` gives a static condition on a program, a certificate that lists for each
instruction the names that may be stale there, under which it never stops; for programs with a
certificate the theorems hold for every run, and functions without phis and casts, whose selects are
on the boolean class, always have one. For phi copies `PhiExact` proves the exact condition with
concrete failing states, and `MemoryOps` the exact condition for select's eight-bit test with a
concrete select that goes wrong. `Allocas` follows the live buffers over whole runs.

**Emission and relocation.** `Buffers` and `CodeBuffer` are the two buffers with their slot, label,
global and relocation tables, updated in place as in codegen.cc; `Translate` is
translate_instruction, translate_bb and translate_function over them, and `Translation` is
translate. `Emission` and `Relocation` specify what is written first and what the two passes make of
it; `References` proves that everything referred to exists; `Linking` shows that the finished image
is what the simulation assumes; `Decoding` reads it back. Arguments, results and preserved registers
follow the function calling sequence of chapter 3 of the System V ABI, Intel386 supplement, which
`Abi` reads off memory and registers. `Samples` and `Examples` work the theorems out for three
calls, from the functions' text to the registers the host finds.

**Data and passes.** `Layout` is the i386 data layout of test.ll:2 (allocation sizes, alignment,
padded and packed structures), `Constants` is expand_constant, `Globals` is write_global,
`GetElementPtr`, `ConstantExprs` with `ConstantPass`, and `VarArgs` are the passes; `ConstantSteps`
ties constant operations to the instructions of `Ir`.

Machine words are mathematical integers in their range; every wrap-around is written out. Verify the
whole project with `dafny verify dfyconfig.toml`.

Where the code and LLVM's meaning differ, the model follows the code and says exactly when. 64-bit
constants cast to a pointer and back are not truncated (codegen.cc:111-112):
`Constants.ExpandExact`, `Globals.ScalarExact` and `Linking.InitialiserLost`. Constants that trap
are moved from a phi to the end of its incoming block (expand_constantexpr.cc:124-129):
`ConstantPass.PassExact` and `ConstantPass.TrapIsMoved`.

## Model

| member | source | states |
|---|---|---|
| Encoding.DecodeInvertsEncode | codegen.cc:255-442 | Decoding the bytes of any emitted instruction form, at any position of any code, gives back that instruction and its length; which bytes they are is stated by the Opcodes rows. |
| Opcodes.OpBytes | codegen.cc:630-717 | The bytes of the thirteen one-word operations behind their operands' loads, written out at every width: 01 c8 adds, f7 f9 divides signed behind a 99, d3 f8 shifts right arithmetically, and the result is in register 0, for remainders in register 2. |
| Opcodes.ExtendBytes | codegen.cc:402-442 | The bytes that clean eax and ecx, for both signs and every width: shl and sar by 31, and with 1, movsx and movzx. |
| Opcodes.CompareBytes | codegen.cc:766-815 | Each of the ten predicates becomes 39 c1 and its own setCC of dl: 0f 9c c2 for slt, 0f 9e c2 for sle, behind sign extensions exactly for the signed ones. |
| Opcodes.CopyBytes | codegen.cc:824-827 | The eight-byte copy is 8b 08 89 0a 8b 48 04 89 4a 04, through ecx alone. |
| Opcodes.PrologBytes | codegen.cc:1269-1274 | Every function starts 55 89 e5 81 ec with the frame's size behind it. |
| Opcodes.TargetBytes | codegen.cc:459-468 | In the finished image jmp, jne, je and helper calls are e9, 0f 85, 0f 84 and e8 with the distance from the end of the field to the target, modulo 2^32. |
| Decoding.DecodeItems | codegen.cc:255-442 | Decoding a whole emitted list in sequence yields exactly the intended instructions and ends exactly behind them. |
| Decoding.FunctionDecodes | codegen.cc:1210-1285 | After relocation every function of the module decodes, from its first byte to its last, to its intended instruction list. |
| Decoding.LabelOnBoundary | codegen.cc:444-447 | Every block label, hence every jump target, is an instruction boundary reached by decoding the function from its start. |
| Decoding.SelectTarget | codegen.cc:912-923 | The local jump inside select skips exactly the second operand move and lands on the final spill. |
| Ir.Root | codegen.cc:203-225 | Following casts terminates (definitions are ordered before uses) and ends at a value that is not a cast. |
| Relation.RootWf | codegen.cc:257-260 | The root of a cast chain is well formed, at least as wide as the chain's last type, and owns a slot unless it is a constant. |
| Relation.SlotBounds | codegen.cc:1232-1256 | Every result slot lies in the frame below ebp; every argument slot lies above saved ebp and return address. |
| Relation.SlotsDisjoint | codegen.cc:1232-1255 | The slots of two different names never overlap, whatever their widths. |
| Codegen.ArgPosition | codegen.cc:1232-1239 | Argument 0 is at ebp + 8 and each argument 4 bytes behind the one before, or 8 behind a 64-bit one; with one-word arguments argument k is at 8 + 4k. |
| Relation.SlotsAreArgs | codegen.cc:543-553 | Consecutive stack words read as the calling convention says are exactly what the argument slots hold. |
| Operands.MoveExec | codegen.cc:257-292 | Loading half of a value through any chain of casts puts that half of the root's stored bits in the register. |
| Operands.AddrHolds | codegen.cc:300-330 | The address that addr_to_reg produces names eight bytes holding the 64-bit operand, a slot or a pooled constant. |
| Operands.SpillExec | codegen.cc:347-360 | A spill writes the register to the named half of the result's slot and nothing else. |
| Operands.ReadIsRaw | notes.txt:11-15 | A value the program can read is its storage's bits modulo the value's width; above the width anything may stand. |
| Arithmetic.ExtendCorrect | codegen.cc:402-442 | extend_to_i32 replaces a register with any garbage above the width by the zero or sign extension of its low bits, keeping everything else. |
| Arithmetic.AddSubCorrect | codegen.cc:633-642 | add and sub on uncleaned registers are right modulo the width. |
| Arithmetic.MulCorrect | codegen.cc:643-651 | The widening multiplication of uncleaned registers is right modulo the width. |
| Arithmetic.LogicCorrect | codegen.cc:683-697 | and, or, xor on uncleaned registers are right modulo the width, i1 included. |
| Arithmetic.UnsignedDivRun | codegen.cc:652-666 | Cleaned unsigned division never faults on a non-zero divisor and leaves quotient and remainder of the n-bit values. |
| Machine.DivIs | codegen.cc:657-660 | div faults exactly when the divisor is not above the dividend's upper word, and otherwise quotient times divisor plus remainder is edx:eax. |
| Arithmetic.SignedDivRun | codegen.cc:667-682 | Sign-extended division truncates toward zero and faults on no defined input. |
| Words.TruncDivRem | runtime_helpers.c:43-49 | Signed quotient and remainder make up the dividend, the remainder is smaller than the divisor, and a non-zero one has the dividend's sign. |
| Arithmetic.ShiftCount | codegen.cc:698-714 | For a defined count the masked byte in cl is the count although ecx is never cleaned. |
| Arithmetic.ShiftCorrect | codegen.cc:698-714 | All three shifts give LLVM's result modulo the width. |
| Arithmetic.OpCorrect | codegen.cc:630-717 | All thirteen operators at every one-word width agree with LLVM's meaning modulo the width, for any garbage above it. |
| IrOps.BinDefined | codegen.cc:630-717 | An operation is undefined exactly on a zero divisor, the least number over -1, and a shift by the width or more. |
| IrOps.DivideMeaning | codegen.cc:652-682 | The n-bit quotients and remainders by their defining inequalities and congruences. |
| IrOps.ShiftMeaning | codegen.cc:698-714 | The shifts as multiplication and flooring division by a power of two, the arithmetic one of the signed number. |
| IrOps.LogicMeaning | codegen.cc:683-697 | Every bit of and, or and xor is that of the operands' bits. |
| IrOps.ExtMeaning | codegen.cc:969-993 | An extension keeps the number, read signed or unsigned. |
| Arithmetic.LogicKeepsBool | codegen.cc:683-697 | Logic on words whose low byte is 0 or 1 yields such a word. |
| Arithmetic.FlagsDecide | codegen.cc:770-815 | The flags of a 32-bit subtraction, also when it overflows, decide each of the ten predicates through its condition code. |
| Arithmetic.ExtendKeepsOrder | codegen.cc:766-769 | Extending both operands to 32 bits preserves every predicate's truth, signed and unsigned. |
| Arithmetic.CompareCorrect | codegen.cc:766-815 | extend-both, cmp, setCC leave exactly the comparison's truth in the low byte of edx, whatever garbage the operands carry. |
| Arithmetic.HelperIsIr | runtime_helpers.c:23-73 | Each 64-bit arithmetic helper, including C's undefined cases, is LLVM's i64 operation. |
| Arithmetic.HelperTestIsIr | runtime_helpers.c:75-113 | Each 64-bit comparison helper returns 1 or 0 as LLVM's predicate on i64 holds or not. |
| Arithmetic.HelperConvention | codegen.cc:588-628 | A helper takes the addresses of result and operands from the words at esp, in this order, stores LLVM's 64-bit result there and changes nothing else above its arguments and no register but eax, ecx and edx. |
| Arithmetic.CompareConvention | codegen.cc:729-764 | A comparison helper takes the operands' addresses from the words at esp and answers 1 or 0 in eax. |
| Results.BinRun | codegen.cc:630-717 | From related states the code of a one-word operation delivers LLVM's result to its slot and touches no other live storage. |
| Results.ICmpRun | codegen.cc:766-815 | The same for comparisons; the result slot's low byte is exactly 0 or 1. |
| Results.ExtRun | codegen.cc:969-993 | The same for zero and sign extension to at most 32 bits, from i1 on. |
| Wide.ExtWideRun | codegen.cc:969-991 | An extension to i64 writes two words that reassemble to the extended 64-bit value. |
| Wide.CopyRun | codegen.cc:824-827 | The four-instruction copy moves eight bytes between disjoint places, changes no other byte, and keeps ebx, esi, edi, ebp and esp. |
| Wide.LoadWideRun | codegen.cc:821-827 | A 64-bit load delivers the eight program bytes to the result's slot. |
| MemoryOps.LoadRun | codegen.cc:828-833 | A sized load delivers the program's bytes modulo the width, whatever the upper register bits become. |
| MemoryOps.StoreRun | codegen.cc:846-851 | A sized store writes exactly the value's low bytes to program memory and changes nothing else. |
| Semantics.StoreThenLoad | codegen.cc:816-852 | Bytes of globals and of live allocas can be stored to; the load gives back what was stored and no other byte changes. |
| Helpers.StoreWideRun | codegen.cc:839-845 | A 64-bit store copies slot or pooled constant to program memory, eight bytes, nothing else. |
| Helpers.BinWideRun | codegen.cc:588-628 | A 64-bit operation through the pointer-passing helper stores LLVM's result in the result's own slot and overwrites no other live storage. |
| Helpers.ICmpWideRun | codegen.cc:729-764 | A 64-bit comparison through its helper delivers exactly 0 or 1. |
| MemoryOps.SelectRun | codegen.cc:907-923 | For a condition of the boolean class, select delivers the operand LLVM chooses although it tests eight bits. |
| MemoryOps.SelectExact | codegen.cc:907-923 | For arbitrary condition bits select picks the operand bit 0 asks for if and only if the low byte is zero or odd, or both operands agree. |
| MemoryOps.SelectWrong | codegen.cc:907-923 | A select on an i8 argument truncated to i1: for the argument 2 LLVM picks the second operand and the code the first. |
| Frames.AllocasDisjoint | codegen.cc:1210-1285 | In every reachable stack no byte belongs to the allocas of two calls; for the buffers of one call see Allocas.AllocasApart. |
| Frames.PrivateApart | codegen.cc:1241-1256 | Slots, saved registers, return addresses and incoming arguments of every active call overlap no alloca, no global and no pooled constant. |
| Frames.StackSame | codegen.cc:1214-1256 | Memory changes outside the private bytes keep the relation of every active frame. |
| Copies.CopyOne | codegen.cc:521-530 | One phi's copy, 32 or 64 bits, also from the phi itself, puts the source's bits in the phi's slot and changes no other byte. |
| Ir.IncomingIs | codegen.cc:521 | A phi's value on an edge is that of the first entry that names the edge's block, and there is none exactly when no entry names it. |
| Ir.PhisAre | codegen.cc:515-520 | The phis copied on an edge are all phis from the block's start up to its first other instruction, and no more. |
| Semantics.EdgeMeans | codegen.cc:511-532 | In the program's semantics an edge gives each phi the value its entry had before, all at once, and changes no other name. |
| Copies.CopiesRun | codegen.cc:511-532 | Any number of copies changes only the phis' slots, and if no source resolves to an earlier changing phi it is the simultaneous assignment. |
| Copies.SelfKept | codegen.cc:515-531 | A phi that receives itself keeps its bits, whatever the other copies of the edge do. |
| PhiExact.CopiesExact | codegen.cc:511-532 | Sequential copying is the simultaneous phi assignment from every state if and only if no source resolves through casts to an earlier phi of the list that is being changed. |
| PhiExact.CopiesFail | codegen.cc:515-531 | Whenever that condition fails there is a concrete state from which the copies go wrong, as in a phi swap. |
| PhiExact.UntakenExact | codegen.cc:929-936 | The copies of an edge that is not taken leave its phis unchanged from every state if and only if each phi's source on that edge is the phi itself. |
| PhiExact.UntakenFails | codegen.cc:954-963 | Otherwise there is a concrete state in which a phi of the block not entered is overwritten. |
| Control.JunkCopies | codegen.cc:929-930 | Copies for an edge not taken keep the relation once the names stored in the phis they overwrite are forgotten; a phi that receives itself keeps its name. |
| Control.TakenCopies | codegen.cc:511-532 | Copies for the edge taken establish the relation for all its phis at once. |
| Control.GotoRun | codegen.cc:534-541 | An unconditional branch reaches its block with that block's phis holding the edge's values. |
| Control.BranchRun | codegen.cc:928-936 | A conditional branch, testing bit 0 after the first successor's copies, reaches the block LLVM chooses with the right phis. |
| Control.CasesRun | codegen.cc:951-964 | For any number of cases the condition in eax survives every copy, and the first matching case or the default is reached with its phis right. |
| Control.SwitchRun | codegen.cc:941-964 | The same for the whole switch, from a condition with garbage above its width. |
| Semantics.SwitchMeans | codegen.cc:941-964 | A switch goes to the block of the first case with the condition's value, and to the default exactly if there is none. |
| Calls.OutCovers | codegen.cc:1214-1230 | The outgoing area is at least as large as the arguments of each call in the function. |
| Calls.OutIsLeast | codegen.cc:1214-1230 | That area is the largest one needed, and three words if none needs more. |
| Helpers.HelperRoom | codegen.cc:590-593 | In every related state the three words at esp that a helper's arguments take lie below the frame's allocas and inside the stack. |
| Calls.PassAll | codegen.cc:1012-1027 | After argument passing every argument is held at esp plus the sizes of the earlier ones and nothing outside the area has changed. |
| Semantics.CallMeans | codegen.cc:1009-1030 | A call starts the callee with the arguments' values, and fails only for want of stack. |
| Calls.ArgsHeldAt | codegen.cc:1020-1027 | The k-th passed argument lies behind the words of the earlier ones, one each or two for 64 bits, where ArgPosition puts the callee's slot. |
| Transfers.CallSim | codegen.cc:1009-1030 | A call step, direct or through a pointer, recursive or not, is matched up to the callee's first instruction with the callee's frame related and the caller's suspended intact. |
| Returns.LeaveRet | codegen.cc:899-906 | leave and ret restore ebp and esp and jump to the return address. |
| Returns.ReturnSim | codegen.cc:885-906 | A return delivers the result in eax or edx:eax to the caller's slot, releases the callee's allocas and resumes the caller with every other name intact. |
| Returns.ExitSim | codegen.cc:885-906 | A return from the outermost call hands result, memory, ebp, esp, ebx, esi and edi back to the host. |
| Simulation.AllocaSim | codegen.cc:1037-1054 | An alloca step is matched, its result is esp plus the outgoing area, and until then no byte of the buffer belonged to a global, an alloca, a slot, an argument or a pooled constant. |
| Allocas.AllocasApart | codegen.cc:1037-1054 | After any number of steps, with allocas in loops and nested or recursive calls, all live buffers are pairwise disjoint, apart from every active call's outgoing area, and above esp plus the running function's; every byte of a live alloca is in one of them. |
| Simulation.SilentSim | codegen.cc:965-968 | Phis emit nothing at their own position and keep the relation; so do casts, which are read through their operand. |
| Simulation.BranchSim | codegen.cc:924-964 | Every branch, switch and jump step is matched by the machine. |
| Simulation.StepSim | codegen.cc:565-1065 | Every step of every well-formed program that does not read an overwritten name is matched by a machine run that restores the whole relation. |
| Agreement.StepAgrees | codegen.cc:929-936 | The semantics that forgets overwritten names only stops earlier than LLVM's: while it runs both do the same. |
| Freshness.StepFresh | codegen.cc:511-532 | In a program with a static certificate every step LLVM's semantics can make, the checked semantics can make too. |
| Freshness.LoopIsFresh | codegen.cc:928-936 | A loop whose phi receives itself on the back edge and is returned after the loop has a certificate in which nothing is ever stale. |
| Freshness.DirectIsFresh | codegen.cc:511-541 | A function without phis and casts, whose selects are on the boolean class, always has a certificate. |
| Correctness.RunSim | codegen.cc:565-1065 | Every run, of any length and call depth, is matched by a machine run ending in a related state. |
| Correctness.EntrySim | codegen.cc:1232-1274 | A call from the host, with its arguments in consecutive stack words as the calling convention has them, establishes the relation once the prolog has run. |
| Correctness.CompiledProgram | codegen.cc:1210-1285 | If LLVM's run of a function ends without reading an overwritten name, the emitted bytes return to the host as the calling convention demands: at the return address, registers 3, 5, 6 and 7 as at the call, the result in register 0 or 2 and 0, and the program's memory in place. |
| Correctness.RunAgrees | codegen.cc:565-1065 | A run of the checked semantics is a run of LLVM's, through the same blocks with the same memory and result. |
| Correctness.RunFresh | codegen.cc:565-1065 | In such a program every run of LLVM's semantics is a run of the checked one: the converse of RunAgrees. |
| Correctness.CertifiedProgram | codegen.cc:1210-1285 | For a program with a certificate the same for every run that ends, with no condition on the run. |
| Buffers.DataBuffer.PutAllocSpace | codegen.cc:170-175 | Appends zero bytes and returns where; the buffer is full exactly when put_alloc_space's assertion fails. |
| Buffers.DataBuffer.PutBytes | codegen.cc:177-179 | Appends exactly the given bytes. |
| Buffers.DataBuffer.PutUint32 | codegen.cc:181-183 | Appends the number's four little-endian bytes. |
| CodeBuffer.CodeBuf.MovePartToReg | codegen.cc:257-292 | Adds exactly the move the placement of code counts with, for a slot, a number or a relocated global. |
| CodeBuffer.CodeBuf.AddrToReg | codegen.cc:300-330 | Adds the address load and, for a constant, eight bytes to the data segment. |
| CodeBuffer.CodeBuf.SpillPart | codegen.cc:347-353 | Adds the store to the result's slot. |
| CodeBuffer.CodeBuf.ExtendToI32 | codegen.cc:402-442 | Adds the extension sequence for the width, and nothing for 32 bits. |
| CodeBuffer.CodeBuf.PutDirectCall | codegen.cc:362-366 | Adds a call whose displacement reaches the helper from where it stands. |
| CodeBuffer.CodeBuf.MakeLabel | codegen.cc:444-447 | Records the current address for a block that had no label. |
| CodeBuffer.CodeBuf.FixLocalJump | codegen.cc:915-923 | Patches the placeholder of select's jump with the distance to the current position. |
| CodeBuffer.CodeBuf.ApplyJumpRelocs | codegen.cc:459-468 | Patches every recorded jump field, in order, from the label table. |
| CodeBuffer.CodeBuf.ApplyGlobalRelocs | codegen.cc:470-479 | Adds to every recorded field the address of its global. |
| Translate.HandlePhiNodes | codegen.cc:511-532 | The loop over the target's phis adds exactly the copies for this edge; which phis and which values these are, PhisAre and IncomingIs say. |
| Translate.TranslateInstruction | codegen.cc:565-1065 | For every supported instruction the bytes, relocations and pooled constants added are exactly the instruction's items. |
| Translate.CalleesArgsSize | codegen.cc:1214-1229 | The loop over calls computes the largest argument area, at least three words. |
| Translate.AssignArguments | codegen.cc:1232-1239 | The argument loop gives argument k the offset 8 plus the words of the earlier arguments, one each or two for 64 bits, and touches no other function's slots. |
| Translate.AssignResults | codegen.cc:1241-1255 | The second loop gives each result that is not a cast its slot and totals the frame. |
| Translate.TranslateBb | codegen.cc:1067-1077 | A block's label and all of its instructions are added where the placement says. |
| Translate.TranslateFunction | codegen.cc:1210-1293 | Prolog, all blocks and the function's address: the function's part of the image is exactly its items. |
| Layout.FieldPlaced | test.ll:2 | A field of an unpacked struct starts at the least multiple of its alignment at or behind the previous field's end, a packed one exactly there. |
| Layout.AggregateSize | test.ll:2 | An unpacked struct's size is the least multiple of its alignment that holds its fields, a packed one's the sum, an array's the product. |
| Layout.MaxAlignIs | test.ll:2 | A struct's alignment is the largest of its fields' and a multiple of each. |
| Layout.OffsetAligned | test.ll:2 | Every object reached through arrays and unpacked structs lies at a multiple of its alignment. |
| Layout.PaddedStruct | test.ll:209-210 | {i8, i32, i8} has its fields at 0, 4 and 8 and takes 12 bytes. |
| Layout.OffsetInside | expand_getelementptr.cc:56-79 | Every in-bounds path stays, with the whole object it names, inside its type's allocation size. |
| Layout.GepIsIndexing | expand_getelementptr.cc:56-79 | A getelementptr's first index steps over whole objects, as if they were elements of an array. |
| Constants.ExpandLowWord | codegen.cc:73-133 | Through any nesting of getelementptr and casts, expand_constant's global plus offset is the constant's value modulo 2^32. |
| Constants.FieldOffset | test.ll:216 | The last field's address in a struct at null expands to 8. |
| Constants.FieldAddresses | codegen.cc:99-110 | A field two structs behind a global and one struct before it: distance 28 and -8 from the global. |
| Constants.ExpandIsSum | codegen.cc:99-114 | Whatever casts intervene, the result is the root global and the 64-bit sum of the root number and all getelementptr distances. |
| Constants.ExpandExact | codegen.cc:108-114 | A 64-bit constant without a global is expanded to LLVM's value if and only if no 32-bit type occurs in it or its number plus its getelementptr distances, modulo 2^64, stays below 2^32. |
| Constants.TruncationLost | codegen.cc:111-112 | The concrete 64-bit constant, cast to a pointer and back, whose upper bits wrongly survive. |
| Globals.WriteGlobal | codegen.cc:1079-1139 | Appends exactly the initialiser's image, as many bytes as its type's allocation size, and records its relocations. |
| Globals.ScalarExact | codegen.cc:1116-1137 | The number laid down for a scalar is LLVM's value modulo its width if and only if the scalar is not a 64-bit constant that fails ExpandExact's condition. |
| Globals.ImageAt | codegen.cc:1079-1139 | For every in-bounds path the bytes at the layout's offset are the image of exactly the object the path names. |
| Globals.StructImage | codegen_test.cc:325-336 | The twelve bytes of an initialised {i8, i32, i8}, padding included. |
| Globals.PaddingIsZero | codegen.cc:1105-1114 | Every byte of an image that belongs to no scalar is zero. |
| Relocation.SitesBelow | codegen.cc:449-452 | All jump fields of a list lie inside its code and are pairwise apart. |
| Relocation.ItemsJumped | codegen.cc:459-468 | The jump pass turns each field, once, into target minus following address modulo 2^32 and leaves every other byte alone. |
| Relocation.FixesInside | codegen.cc:454-457 | All global fields of a list lie inside its code and are pairwise apart. |
| Relocation.ItemsFixed | codegen.cc:470-479 | The global pass turns each field, once, into addend plus address modulo 2^32 and leaves every other byte alone. |
| Relocation.InitFixed | codegen.cc:1125-1133 | The same for the pointer fields of any nested initialiser in the data segment. |
| References.FnItemsKnown | codegen.cc:463-474 | Every block and global a function's code refers to exists in the module, and every instruction it contains has an encoding. |
| Translation.SitesFound | codegen.cc:463-475 | Every lookup of a label or a global made by the two passes succeeds. |
| Translation.RelocationIsPlacing | codegen.cc:1340-1341 | Both passes together turn the emitted bytes of the whole module into the resolved image. |
| Translation.TranslateModule | codegen.cc:1299-1341 | Translation succeeds if and only if code and data fit their buffers, and then the image is completely relocated. |
| Linking.ImageIsLinked | codegen.cc:1299-1341 | The image translation leaves behind satisfies everything the simulation assumes about code, labels, addresses and data. |
| Linking.PoolLoaded | codegen.cc:310-318 | Every pooled 64-bit constant is in memory at the address the code uses. |
| Linking.VariableReads | codegen.cc:1308-1319 | Reading a scalar of a global variable at its getelementptr address in the loaded image gives LLVM's value, relocated pointers included, if and only if the initialiser there is representable: always, except for 64-bit constants cut off on the way. |
| Linking.InitialiserLost | codegen.cc:111-114 | A variable initialised with 2^32 + 1 cast to a pointer and back reads as 2^32 + 1; LLVM's value is 1. |
| Linking.TranslatedProgramRuns | codegen.cc:1299-1341 | From module to result: translated bytes, called by the host with its arguments in consecutive stack words, return LLVM's result and memory for every run that ends without reading an overwritten name, with ebx, esi, edi, ebp and esp as the calling convention demands. |
| Linking.CertifiedModuleRuns | codegen.cc:1299-1341 | From module to result for a module with a certificate: every run that ends, with no condition on the run. |
| Linking.DirectModuleRuns | codegen.cc:1299-1341 | No certificate is needed for a module without phis and casts. |
| Linking.HostsExist | codegen.cc:1299-1341 | For any addresses of buffers, helpers and stack that keep apart the image has surroundings to run in, and a host's call there is one the theorems speak of. |
| Examples.DifferenceRuns | codegen_test.cc:276-285 | Three arguments, the second of 64 bits: eax is the word at esp + 4 minus the word at esp + 16 of the call, whatever they are. |
| Examples.CallerRuns | codegen_test.cc:276-295 | A call with a 64-bit constant, an alloca, a store and a load of it, a switch, a branch, a select, a widening and a 64-bit product: the bytes return (2^32 + 5) * 10 in edx:eax. |
| Examples.LoopRuns | codegen.cc:511-532 | A loop with a phi, left at once: the bytes return the phi's entry value. |
| GetElementPtr.LowerGep | expand_getelementptr.cc:47-85 | The loop over indices emits exactly the lowered instructions and names the last one as the replacement. |
| GetElementPtr.LoweredCorrect | expand_getelementptr.cc:53-83 | For any nesting and any i32 indices, negative ones included, the lowered code computes the typed address modulo 2^32 and changes no older name. |
| GetElementPtr.ComputeIsStep | codegen.cc:630-642 | The meaning used for the lowered code is the step semantics that the code generator preserves. |
| GetElementPtr.GepDistance | expand_getelementptr.cc:56-79 | For constant indices the lowered distance is the offset of the layout. |
| GetElementPtr.VariableIndex | expand_getelementptr.cc:69-79 | An array index that is not a constant counts as a signed number times the element's size. |
| GetElementPtr.LoweredAgreesWithConstant | codegen.cc:99-114 | Lowering a getelementptr on a constant pointer computes the same address that expand_constant accumulates for the constant expression. |
| VarArgs.ExpandBody | expand_varargs.cc:72-89 | The rewriting loop replaces each va_start, va_arg, va_copy and va_end by its expansion and keeps everything else. |
| VarArgs.PackedStep | expand_varargs.cc:111-113 | The packed struct has no gaps, so stepping by allocation size walks it exactly. |
| VarArgs.ArgSim | expand_varargs.cc:94-120 | va_arg yields the next argument of its list, advances that list alone and reads inside the buffer. |
| VarArgs.CopySim | expand_varargs.cc:216-228 | va_copy gives the destination the source's position; both lists are independent afterwards. |
| VarArgs.ReadsInOrder | expand_varargs.cc:94-120 | Reading a list from its k-th position on yields the k-th and all later arguments in order and moves no other list. |
| VarArgs.RunSim | expand_varargs.cc:196-242 | Any interleaving of va_start, va_arg, va_copy, va_end and ordinary instructions on any number of lists yields the same values and program memory when the rewritten body's instructions run. |
| VarArgs.ExpandCall | expand_varargs.cc:122-193 | The call's extra arguments become stores into a packed buffer that is passed as one more argument; with no extra argument nothing changes. |
| VarArgs.CallerFillsBuffer | expand_varargs.cc:166-176 | The caller's stores leave every argument at its place in the buffer and write nowhere else. |
| VarArgs.RoundTrip | expand_varargs.cc:122-242 | A whole call with variable arguments: every run of the callee's rewritten body reads back, in order and on each list, what the caller packed. |
| VarArgs.EmptyCall | expand_varargs.cc:127-130 | A call without variable arguments is left alone and binds nothing to the new parameter; whatever that holds, every run of the callee has the same names and program memory. |
| ConstantPass.ExpandConstantExpr | expand_constantexpr.cc:42-115 | Expansion, operands first, terminates on nesting depth and produces the specified instructions. |
| ConstantExprs.ExpandCorrect | expand_constantexpr.cc:42-115 | For a constant that has a value the instructions compute it without effects and write unused names only. |
| ConstantExprs.ExpandTraps | expand_constantexpr.cc:42-115 | For a constant that traps the instructions get stuck, in every environment. |
| ConstantSteps.PureIsStep | expand_constantexpr.cc:42-106 | Evaluating a constant's operation is what the instruction made of it does in the code generator's semantics, traps included. |
| ConstantExprs.IncomingFromIs | expand_constantexpr.cc:124-129 | A phi's operand for a block is that of the first entry that names it. |
| ConstantExprs.PhisMean | expand_constantexpr.cc:124-129 | On entry all phis take the values their operands had before, and no other name changes. |
| ConstantExprs.ExpandPlain | expand_constantexpr.cc:44-48 | No instruction made by an expansion has a constant expression as an operand. |
| ConstantExprs.RunAfter | expand_constantexpr.cc:117-134 | After one replacement every run, also one that gets stuck, is block by block the same; only trapping constants of phis move, to the end of their incoming block. |
| ConstantPass.Replace | expand_constantexpr.cc:120-131 | The operand is replaced and the instructions go before the user, or to the end of the incoming block of a phi. |
| ConstantPass.RunOnFunction | expand_constantexpr.cc:136-148 | No constant expression is left as an operand; every run of the result is the run of the function given, stopped at the end of blocks for which a phi names a trapping constant; a change is reported exactly when there was one to expand, and otherwise nothing changes. |
| ConstantPass.PassExact | expand_constantexpr.cc:117-148 | The pass preserves every run that never gets stuck if and only if none of them reaches the end of a block for which some phi names a trapping constant. |
| ConstantPass.OwnEdgesOnly | expand_constantexpr.cc:124-129 | All such runs are preserved if every edge out of each of those blocks reads such a constant. |
| ConstantPass.OnlySuccessorTraps | expand_constantexpr.cc:124-129 | In particular if the phi's block is the only successor of the block that receives the instructions. |
| ConstantPass.VisitSticks | expand_constantexpr.cc:124-129 | There a run that reaches the end of such a block is stuck at the next block anyway. |
| ConstantPass.TrapIsMoved | expand_constantexpr.cc:124-129 | A phi constant that divides by a missing weak global's address, on an edge never taken: a run that ended well is stuck after the pass. |

## Left out

- Correctness.CompiledProgram: quantifies over runs that the checked semantics completes; Correctness.CertifiedProgram needs a certificate instead, and how to compute one, or that SSA dominance together with dead phis on untaken edges yields one, is not part of this model.
- Linking.TranslatedProgramRuns: the addresses of the two buffers, of the stack and of the helpers are parameters; the code is fetched from the finished image and is not writable by the program.
- Helpers.BinWideRun: a helper call is one step that may leave arbitrary values in eax, ecx and edx and in the stack below the caller's outgoing area; the helper's own machine code is not modelled.
- MemoryOps.LoadRun: i1 loads and stores are not covered, put_sized_opcode asserts them away.
- MemoryOps.SelectRun: conditions outside the boolean class, such as i1 arguments, call results and truncations, are covered by SelectExact only, since the code is wrong for some of them; 64-bit selects fail move_to_reg's assertion.
- Constants.ExpandExact: constant casts to or from integers narrower than 32 bits are not part of the constant syntax.
- GetElementPtr.LowerGep: lowers one getelementptr at a time; the scan over a block for the next one is not modelled.
- VarArgs.RunSim: works on straight instructions with numbered names and arbitrary execution order instead of LLVM's linked blocks, and is not chained to the code generator's IR; the walk over all functions of a module is left out.
- VarArgs.ExpandCall: gives the buffer's alloca a name; that it stands at the head of the entry block, and the cast of the callee to its new type, are not modelled.
- ConstantPass.RunOnFunction: works on an IR of its own with phis, blocks and terminators in which loads, stores and calls are one kind of effect, and is not chained to the code generator's IR.
- Floating point, vectors, first-class aggregates and every path that ends in unhandled_case.
- Atomic read-modify-write, memory intrinsics, thread-local storage and the weak-symbol special cases.
- Functions without a body, trace logging, code dumping, mmap, and run_program.cc.
- The order in which translate copies its table of globals to its caller's map (codegen.cc:1345-1350).
- Exclusive-or and or of register numbers into opcode bytes are written as sums, since the bit fields do not overlap.
- What is undefined in LLVM: zero divisors, minimum over -1, oversized shifts, uninitialised reads, stack overflow.
- Calls to external C functions with narrow arguments, whose assumptions about upper bits are not in this code.

# Models of the Ark bytecode tools

This project models the parts of the Ark runtime core that rewrite a program and have to keep what
it means: two passes of the bytecode optimizer, the assembler and the reader that undoes it, the
dumper's handling of labels, the lexer and parser of string literals, the state machine that
gathers annotations, the literal array of a module, and the layout of the dispatch table. Each is
written in the form the source has (classes whose fields the methods change, loops with
invariants, functions where the source computes), and what the source promises is proved for all
inputs. `dafny verify dfyconfig.toml` checks everything.

| files | what they model |
|---|---|
| BytecodeIr, RegEncoding, RegSpills, RegEncoder | `bytecode_optimizer/reg_encoder.cpp`: renumbering registers, reserving temps, inserting moves |
| AccGraph, AccAlloc, AccMachine, AccExample | `bytecode_optimizer/reg_acc_alloc.cpp`: leaving out loads and stores of the accumulator |
| LineProgram, VariableEvents, LocalRanges, LocalTies, DebugRoundTrip | line, column and variable information: `assembler/assembly-emitter.cpp` against `abc2program/abc_code_processor.cpp` |
| Sums, Pandasm, Labels, TryTables, CodeReader, TryRoundTrip | try tables and jumps through the same two files |
| LabelDump | `abc2program/program_dump.cpp`: removing instructions that only carry a label |
| Lexer, StringLiterals | `assembler/lexer.cpp` and the string literals of `assembler/assembly-parser.cpp` |
| Annotations | `assembler/meta.h`, `assembler/meta.cpp` |
| ModuleArray | `abc2program/abc_module_array_processor.cpp` |
| OpcodeAssigner, DispatchTable, DispatchLayout, DispatchExact | `isa/isapi.rb` |

## How to read the main results

**Register encoder.** Registers are numbers up to a symbolic maximum `w`; the largest is the invalid
register, the one below it the accumulator and also the size of the frame, and arithmetic is modulo
`w + 1`. An instruction is a destination, sources and a kind (spill-fill, range, 4-bit, other), and a
machine executes code block by block, recording what every instruction read. A `Placement` says
where each used register of the original code lies afterwards. `RegEncoderPass.PassIsCorrect` says
when the pass succeeds, that it reserves the least number of temps that is enough, and that its code
`Encodes` the original; `RegSpills.Simulation` says that every run of code that encodes another tracks the
run of the other, moves included; `RegSpills.CodeWellEncoded` says that every operand can be encoded.
The moves of a 4-bit instruction are kept in an unordered map, so `Encodes` holds of every code in which they come
in some order, and `RegSpills.MovesReordered` is why that makes no difference.
`RegEncoderPass.PassPreservesRuns` puts them together.

**Accumulator allocation.** The control flow graph has explicit positions, and `AccAfter` gives the
accumulator after any path under the emission rules of `DoLda` and `DoSta`. `AccGraph.AccumulatorHoldsInput` is about every
path to an instruction whose load was left out; `AccAllocPass.RegAccAlloc.RunImpl` says that the pass only
leaves out such loads, and exactly which: `Stays` is when a destination is put in the accumulator, `Remains` when
it is not taken out again (by a check of an instruction or a save state that the value does not reach undisturbed),
`Crowded` when another operand of a user, a constant, makes it load again although its value was left in the
accumulator. All three are conditions on the graph and the order of its blocks. The invariant behind it,
`Exact`, describes the state after any part of the pass; `DecidedIsExact` and `CheckedIsExact` are its two steps.
`AccMachine` runs the emitted code, loads and stores included, on a machine with registers whose initial contents are
arbitrary: `AccMachine.PreservesIff` says that it computes what the graph means on every path exactly if no value is lost, and
`AccMachine.Allocate` puts this together with the pass.

**Round trips.** `DebugRoundTrip.EmitAndRead` runs the emitter, replays its program, and runs the
reader on the result. `TryRoundTrip.ReadAndAssemble` reads a function and builds its try table again.

**Dispatch table.** `DispatchExact.CompleteIff` says when the table has every handler where the interpreter looks
for it; `DispatchExact.DeclaredIff` says the same of the declared instructions and prefixes, from which the table is made
by the two assigners and any result of `sort_by`.

## Where the code and what is expected of it differ

- `Inst::IsAccWrite` answers yes for every constant (compiler/optimizer/ir/inst.cpp:496-502), so clearing the
  ACC_WRITE flag of a constant in the accumulator pass has no effect on later scans; the model follows the code.
- The product in `EmitSpecialOpcode` is taken in 32 bits: an increment of more than 286331153 bytes can be
  written as an opcode that says something else. `LineProgram.SpecialOpcodeExact` gives the exact condition and
  `LineProgram.SpecialOpcodeWraps` an input that fails.
- The second half of the accumulator pass asks every user of a constant that it finds disturbed to load again,
  whichever operand the constant is; a user whose own accumulator operand was left in the accumulator then loads
  a register that nobody stored to. `AccAllocPass.LostIffCrowded` and `AccAllocPass.ValueLostIff` give the exact condition,
  `AccExample.ExampleLosesAValue` and `AccExample.RunExample` a graph of four instructions on which it happens, and
  `AccAllocPass.ConstantsAtAccIsSafe` a simple condition under which it cannot.
- Where one variable ends and another of the same register starts, `std::sort` may list the start first;
  the end of the first variable is then lost. For one order, `LocalRanges.TableRightIff` says exactly when the table is right,
  variables that overlap and INVALID instructions included; `LocalRanges.RightIffEndsFirst` is what it comes to
  without those. For all orders, `LocalTies.AlwaysRightIff` gives the exact condition on the variables, overlaps and INVALID
  instructions included again (`LocalTies.SafeIffNoTouch` without them), and `LocalTies.TouchingExampleFails` an input that fails. Of two variables of one register that overlap, the older one
  is right only if it lasts to the end of the program: `LocalTies.OverlappedIsRightIff`.
- An end at offset 0 is taken for no end at all, so that a variable over INVALID instructions before the first code lasts
  to the end of the program: `LocalTies.LabelExampleFails`.
- A variable without length is written as two: both of its pairs meet both conditions in `EmitLocalVariable`.
  `VariableEvents.EachVariableOnce` says what is written, `VariableEvents.TableSize` how many variables are read back.
- The reader adds a dummy instruction after the code only for a catch block that ends there. A try or a
  jump that goes to the end of the code without such a catch block makes it use an instruction that does
  not exist. `CodeReader.StaysInsideIff` gives the exact condition, `CodeReader.TryEndOutside` an input that fails.
- `LexPreprocess` looks for comments with its own idea of literals: a quote behind a backslash does not count, also where the
  backslash is itself escaped. `LexerModel.CommentsRightIff` gives the exact condition, `LexerModel.BackslashHidesComment` a line that fails.
- Assembling a try table groups its catch blocks by range and drops a try without any. It is the identity
  exactly on the tables that `TryRoundTrip.Canonical` describes; `TryRoundTrip.ReassembleDoubled` is one that comes back merged.
- In the dumper a label that is made for an instruction can be the name that another one kept from before;
  both then end up with the same label. `LabelDump.PandasmProgramDumper.DumpFunctionIns4EcmaScript` gives the exact condition
  and the label they share, `LabelDump.DumpClashExample` an input that fails.
- A component type that comes before the type of an annotation element is not reported as an error: the type is read
  although it is not set, and an exception leaves the assembler. `Annotations.ThrowsIffTypeMissing` gives the exact condition
  on the attributes, `Annotations.ComponentTypeTooSoon` an input that fails; `docs/assembly_format.md` lists the type as
  something that must be defined first.
- The dispatch table is built from lists, not by opcode. A gap between the given opcodes of a prefix that no item without
  an opcode fills, or a gap between given prefixes, puts handlers behind it in the wrong place.
  `DispatchExact.DeclaredIff` gives the exact condition on what is declared, `DispatchExact.GapExampleFails` an input that fails,
  and `DispatchExact.FilledGapIsRight` one whose gap is filled.

## Model

| member | source | states |
|---|---|---|
| BytecodeIr.MovesInParallel | bytecode_optimizer/codegen.cpp:149-177 | moves whose targets are distinct and are read by none of them do, one by one, what they do at once |
| BytecodeIr.MovesInAnyOrder | bytecode_optimizer/reg_encoder.cpp:320-334 | moves whose targets are distinct and are read by none of them can be made in any order |
| RegEncoding.RenumberMovesDown | bytecode_optimizer/reg_encoder.cpp:149-203 | renumbering by a negative delta modulo the register width places the code as if registers from the minimum on moved down |
| RegEncoding.RenumberMovesUp | bytecode_optimizer/reg_encoder.cpp:97-114 | renumbering for reserved temps places the code as if every register moved up |
| RegEncoding.NeededIsDemand | bytecode_optimizer/reg_encoder.cpp:421-465 | the computed number of temps is the largest number of operands any 4-bit instruction has that cannot be encoded |
| RegEncoding.DemandGrows | bytecode_optimizer/reg_encoder.cpp:97-114 | more reserved temps never lower the demand, which is why the number grows in each round |
| RegSpills.SpilledIsEncodable | bytecode_optimizer/reg_encoder.cpp:342-419 | after its moves an instruction's sources are below 16, or consecutive inside the range window |
| RegSpills.MovesReordered | bytecode_optimizer/reg_encoder.cpp:320-334 | the spill map of an instruction may be walked in any order: its moves leave the same registers |
| RegSpills.SimulateInst | bytecode_optimizer/reg_encoder.cpp:342-419 | an instruction with its moves, in whatever order the map gave them, reads the same values, writes the same value and keeps every used register at its place |
| RegSpills.SimulateBlock | bytecode_optimizer/reg_encoder.cpp:285-299 | so does a block with all its moves |
| RegSpills.Simulation | bytecode_optimizer/reg_encoder.cpp:81-131 | every run of the rewritten code, of any length and with any order of each instruction's moves, tracks the original run |
| RegSpills.CodeWellEncoded | bytecode_optimizer/reg_encoder.cpp:285-299 | in rewritten code every instruction can be encoded and every register lies in the frame |
| RegEncoderPass.CalculateNumNeededRangeTemps | bytecode_optimizer/reg_encoder.cpp:60-79 | the window is as large as the largest range instruction needs and no larger |
| RegEncoderPass.CountLocalsAndTemps | bytecode_optimizer/reg_encoder.cpp:220-234 | locals and temps are counted as the documented layout has them |
| RegEncoderPass.BasePlacementIsSafe | bytecode_optimizer/reg_encoder.cpp:205-283 | the new layout is injective on used registers, fixes locals, keeps the order of temps and arguments, and leaves the window and the reserved temps to nobody |
| RegEncoderPass.ShiftMaskDown | bytecode_optimizer/reg_encoder.cpp:275-278 | the mask shifted left in place is the image of the used registers |
| RegEncoderPass.ShiftMaskUp | bytecode_optimizer/reg_encoder.cpp:120-124 | the mask shifted right in place, with the reserved temps marked, is the exact image of the used registers |
| RegEncoderPass.RegEncoder.RenumberRegs | bytecode_optimizer/reg_encoder.cpp:170-203 | every operand of every instruction is renumbered once |
| RegEncoderPass.RegEncoder.CalculateNumNeededTemps | bytecode_optimizer/reg_encoder.cpp:301-318 | the field holds the demand of the code as it is numbered now |
| RegEncoderPass.RegEncoder.InsertSpills | bytecode_optimizer/reg_encoder.cpp:285-299 | the code is the original with the moves of every instruction before it, those of a 4-bit instruction in any order |
| RegEncoderPass.RegEncoder.RenumberArgRegs | bytecode_optimizer/reg_encoder.cpp:205-283 | code and mask follow the new layout, or the frame has no room |
| RegEncoderPass.RegEncoder.ReserveTemps | bytecode_optimizer/reg_encoder.cpp:97-114 | the loop ends, with the least number of temps that meets its own demand, or because there is no room |
| RegEncoderPass.ReserveIsLeast | bytecode_optimizer/reg_encoder.cpp:97-114 | the loop's result is the least fixpoint that fits the frame; it fails only if there is none |
| RegEncoderPass.RegEncoder.RunImpl | bytecode_optimizer/reg_encoder.cpp:81-131 | what the whole pass leaves: code, mask, number of temps, start of the window, number of locals; and when it fails |
| RegEncoderPass.PassIsCorrect | bytecode_optimizer/reg_encoder.cpp:81-131 | the pass succeeds if and only if some number of temps has room, takes the least such number, and whatever code it may leave encodes the original |
| RegEncoderPass.PassPreservesRuns | bytecode_optimizer/reg_encoder.cpp:81-131 | after a successful pass every run of any code it may leave tracks the original run, and every instruction can be encoded inside the frame |
| AccGraph.AccPlaceIs | bytecode_optimizer/common.cpp:24-32 | the operand that the pass looks at is the first one, or for an intrinsic the last before its save state, which is where the machine takes it from |
| AccGraph.ChainIsSuffix | bytecode_optimizer/reg_acc_alloc.cpp:26-72 | every path to the end of a chain runs through the whole chain |
| AccGraph.DefinitionReachesUse | bytecode_optimizer/reg_acc_alloc.cpp:26-72 | in a graph where inputs dominate their uses there is a path from input to use, which bounds the scan |
| AccGraph.PathEndsSilently | bytecode_optimizer/reg_acc_alloc.cpp:26-72 | on every path the stretch from the last execution of the input on is exactly the scanned chain |
| AccGraph.AccumulatorHoldsInput | bytecode_optimizer/reg_acc_alloc.cpp:105-138 | whenever an instruction without its load is reached, on any path, the accumulator holds its input's latest value |
| AccAllocPass.IsAccWriteBetween | bytecode_optimizer/reg_acc_alloc.cpp:26-72 | the scan ends, and answers no exactly when a chain without accumulator writes leads from the one to the other |
| AccAllocPass.CalmIsSilent | bytecode_optimizer/codegen.cpp:24-36 | on such a chain nothing that is emitted changes the accumulator before the reader that is meant |
| AccAllocPass.CanReadIsReady | bytecode_optimizer/reg_acc_alloc.cpp:105-138 | whom the pass lets read the accumulator, at whatever time it asks, depends on the graph alone |
| AccAllocPass.RegAccAlloc.CanUserReadAcc | bytecode_optimizer/reg_acc_alloc.cpp:105-138 | the answer is exactly the stated condition |
| AccAllocPass.DecidedIsExact | bytecode_optimizer/reg_acc_alloc.cpp:228-261 | deciding one more destination keeps the exact description of all destinations and loads, whatever part of the pass was done before |
| AccAllocPass.CheckedIsExact | bytecode_optimizer/reg_acc_alloc.cpp:263-285 | so does checking one more operand |
| AccAllocPass.LostIffCrowded | bytecode_optimizer/reg_acc_alloc.cpp:250-285 | no value that lives in the accumulator alone is read from a register if and only if no user of one has a constant operand that makes it load again |
| AccAllocPass.ValueLostIff | bytecode_optimizer/reg_acc_alloc.cpp:250-285 | the same for one value, as a condition on the graph and the order of the blocks |
| AccAllocPass.ConstantsAtAccIsSafe | bytecode_optimizer/reg_acc_alloc.cpp:250-285 | nothing is lost where constants are operands of the accumulator only |
| AccExample.ExampleLosesAValue | bytecode_optimizer/reg_acc_alloc.cpp:263-285 | in a graph of four instructions the store of a value is left out and its load is not |
| AccExample.RunExample | bytecode_optimizer/reg_acc_alloc.cpp:196-292 | the pass itself does that to the graph, and the code then computes something else than the graph means |
| AccExample.ReadOnTheWay | bytecode_optimizer/reg_acc_alloc.cpp:263-285 | a reader of a value on the way to a save state does not disturb it |
| AccExample.RunIntrinsic | bytecode_optimizer/reg_acc_alloc.cpp:196-292 | an intrinsic whose accumulator operand is overwritten by its other one keeps its load, and the other one its store |
| AccAllocPass.RegAccAlloc.RunImpl | bytecode_optimizer/reg_acc_alloc.cpp:196-292 | every missing load is justified; a destination is in the accumulator if and only if all its users could take it from there and no later check, by an instruction or a save state, found it disturbed; a load is missing if and only if its operand was offered and no constant among the operands asked for it again; and no needed value is lost if and only if no user of a value in the accumulator is so crowded |
| AccMachine.RunsRightIff | bytecode_optimizer/codegen.cpp:24-36 | on a machine that executes the loads and stores, every reader takes the latest value of each operand, by every path, whatever is computed and whatever the registers held, if and only if no value is lost |
| AccMachine.PreservesIff | bytecode_optimizer/codegen.cpp:24-36 | the emitted code computes the values that the graph means, on every path, if and only if no value is lost |
| AccMachine.Allocate | bytecode_optimizer/reg_acc_alloc.cpp:196-292 | after the pass that is so if and only if no user of a value in the accumulator is crowded by a constant |
| LineProgram.SpecialOpcodeExact | libpandafile/file_items.cpp:1530-1543 | an opcode says the increments it was made from if and only if the product did not wrap |
| LineProgram.SpecialOpcodeWraps | libpandafile/file_items.cpp:1530-1543 | an increment that is read back as another |
| LineProgram.SpecialIff | libpandafile/file_items.cpp:1530-1543 | there is a special opcode, and which, exactly for line increments from -4 to 10 whose sum with fifteen times the offset fits in a byte |
| LineProgram.WrittenExactly | libpandafile/file_items.cpp:1530-1543 | what is written for a pair of increments says just these if and only if there is no special opcode for them or the product did not wrap |
| LineProgram.Builder.EmitNumber | assembler/assembly-emitter.cpp:1631-1646 | exactly one table entry is made, at the offset and with the line that are written, for increments of any size |
| LineProgram.Builder.EmitLineNumber | assembler/assembly-emitter.cpp:1648-1657 | an entry is made exactly when the line changes, for increments of any size |
| LineProgram.Builder.EmitColumnNumber | assembler/assembly-emitter.cpp:1659-1668 | likewise for columns |
| LineProgram.Builder.EmitLocalVariable | assembler/assembly-emitter.cpp:1596-1619 | a start, an end, or for a variable without length both are recorded, at the offset of the instruction |
| LineProgram.BuildLineNumberProgram | assembler/assembly-emitter.cpp:1687-1737 | replaying the program gives every recorded line and column at its instruction, and what each pair of the sorted list stands for in its order; with debug info exactly the variables whose register is below the number of registers start and end, at their offsets; it ends where the last of these is, whatever the tie order |
| VariableEvents.EachVariableOnce | assembler/assembly-emitter.cpp:1596-1619 | each variable that is no parameter starts once and ends once, at its offsets, and one without length twice |
| VariableEvents.TableSize | assembler/assembly-emitter.cpp:1596-1619 | replaying gives one entry for each variable and another for each without length |
| VariableEvents.StartingIsAll | assembler/assembly-emitter.cpp:1670-1685 | listed by start, under any tie order, are all variables with a register below the number of registers, each once |
| LocalRanges.ReplayLocals | libpandafile/debug_info_extractor.cpp:92-123 | the variable table depends on the starts and ends alone |
| LocalRanges.PlayedEntry | libpandafile/debug_info_extractor.cpp:92-123 | after any part of the sorted list the end that a variable has is the last one of its register before another started in it |
| LocalRanges.TableRightIff | libpandafile/debug_info_extractor.cpp:92-175 | the table is right if and only if that end is each variable's own, or there is none and it ends with the program; overlaps and INVALID instructions included |
| LocalRanges.EndsFirstIsRight | assembler/assembly-emitter.cpp:1670-1685 | if ends are listed before starts they touch, every variable has its whole range |
| LocalRanges.TouchingIsWrong | assembler/assembly-emitter.cpp:1670-1685 | if not, some variable has another end |
| LocalRanges.RightIffEndsFirst | libpandafile/debug_info_extractor.cpp:92-175 | for variables that do not overlap the table is right if and only if ends are listed first |
| LocalRanges.NoTouchIsSafe | assembler/assembly-emitter.cpp:1670-1685 | variables of one register that do not touch are safe under every tie order |
| LocalTies.AlwaysRightIff | assembler/assembly-emitter.cpp:1670-1685 | every result of the sort gives a right table if and only if each end a variable can get, or having none, is at the offset of its own; overlaps, INVALID instructions and the program's own end included |
| LocalTies.SafeIffNoTouch | assembler/assembly-emitter.cpp:1670-1685 | for variables that do not overlap, and without INVALID instructions, that is: if and only if no two of one register touch |
| LocalTies.TouchingExampleFails | assembler/assembly-emitter.cpp:1670-1685 | two variables for which some order loses an end |
| LocalTies.LabelExampleFails | libpandafile/debug_info_extractor.cpp:168-175 | a variable over leading INVALID instructions is given another end |
| LocalTies.OverlappedIsRightIff | libpandafile/debug_info_extractor.cpp:109-123 | a variable during which another of its register starts is right if and only if nothing of the register ends in between and it lasts to the end of the program |
| CodeReader.SkipToNextEntryIfNeeded | abc2program/abc_code_processor.cpp:285-299 | the cursor stops at the entry in force at the instruction's offset |
| CodeReader.AbcCodeProcessor.FillLines | abc2program/abc_code_processor.cpp:253-272 | every instruction gets the line in force at its offset, and nothing else changes |
| CodeReader.AbcCodeProcessor.FillColumns | abc2program/abc_code_processor.cpp:274-282 | likewise for columns, where the first entry may come later |
| CodeReader.AbcCodeProcessor.FillInsWithoutLabels | abc2program/abc_code_processor.cpp:55-90 | one instruction for each encoded one, the two maps inverse to each other, all jumps listed |
| CodeReader.AbcCodeProcessor.NeedToAddDummyEndIns | abc2program/abc_code_processor.cpp:92-106 | exactly when a catch block ends with the code |
| CodeReader.AbcCodeProcessor.GetInstIdxByInstPc | abc2program/abc_code_processor.cpp:120-131 | the instruction that begins at the offset, or one past the last |
| CodeReader.AbcCodeProcessor.AddJumpLabel4InsAtIndex | abc2program/abc_code_processor.cpp:148-158 | the jump names the label of the instruction at its offset plus its distance, negative ones included, and that instruction carries it |
| CodeReader.AbcCodeProcessor.FillCatchBlocks | abc2program/abc_code_processor.cpp:160-190 | one catch block for each entry, in order, with the labels of the four instructions, which carry them |
| CodeReader.AbcCodeProcessor.FillLocalVariableTable | abc2program/abc_code_processor.cpp:234-251 | each variable's offsets are read as a range of instructions |
| CodeReader.AbcCodeProcessor.FillProgramData | abc2program/abc_code_processor.cpp:32-38 | all of this together for every well-formed function |
| CodeReader.StaysInsideIff | abc2program/abc_code_processor.cpp:92-131 | every offset that is looked up finds an instruction that exists if and only if nothing goes to the end of the code or a catch block ends there |
| CodeReader.WellFormedLooksInside | abc2program/abc_code_processor.cpp:120-131 | the functions on which all lookups find an instruction are the well-formed ones |
| CodeReader.TryEndOutside | abc2program/abc_code_processor.cpp:92-131 | a function for which it does not |
| Labels.LabelIs | abc2program/common/abc_file_utils.cpp:63-68 | a label is label@ and the index in decimal, without leading zeros |
| Labels.LabelInjective | abc2program/common/abc_file_utils.cpp:63-68 | different instructions have different labels |
| TryTables.MakeOrderAndOffsets | assembler/assembly-emitter.cpp:1739-1779 | each label's offset, each range's catch blocks in order, ranges in the order of their first catch block |
| TryTables.BuildTryBlocks | assembler/assembly-emitter.cpp:1781-1824 | one try block for each range, with all its catch blocks |
| TryRoundTrip.TryTableRoundTrip | assembler/assembly-emitter.cpp:1739-1824 | assembling what was read gives the table regrouped by range: same starts, lengths, handlers, sizes and order |
| TryRoundTrip.CanonicalIsRegrouped | assembler/assembly-emitter.cpp:1739-1779 | regrouping changes nothing in a table of distinct ranges that all have a catch block |
| TryRoundTrip.RegroupedIsCanonical | assembler/assembly-emitter.cpp:1739-1779 | every regrouped table is one of those |
| TryRoundTrip.ReadAndAssemble | abc2program/abc_code_processor.cpp:160-198 | reading and assembling gives back the same try table if and only if it is canonical |
| TryRoundTrip.ReassembleDoubled | assembler/assembly-emitter.cpp:1739-1779 | two try blocks of one range come back as one |
| DebugRoundTrip.LinesReadBack | abc2program/abc_code_processor.cpp:253-283 | every recorded line and column comes back to its own instruction, INVALID ones being skipped |
| DebugRoundTrip.LocalsReadBack | abc2program/abc_code_processor.cpp:234-251 | the variables come back exactly, in the order they start and without the INVALID instructions, if and only if each has its own end in the table; where nothing is INVALID they are the original ones |
| DebugRoundTrip.EmitAndRead | assembler/assembly-emitter.cpp:1687-1737 | for the emitter and the reader run one after the other: every line and column comes back; every variable comes back once if and only if all have a length; and then exactly, if and only if each has its own end, as under every tie order where the variables are clear; without INVALID instructions that means all original variables with a register below the number of registers, with their start and length, by start |
| LabelDump.KeptIsUnique | abc2program/program_dump.cpp:408-424 | no two instructions that remain keep the same label |
| LabelDump.TargetIsKept | abc2program/program_dump.cpp:408-424 | a label is replaced by the one that the next valid instruction keeps |
| LabelDump.PandasmProgramDumper.GetInvalidOpLabelMap | abc2program/program_dump.cpp:396-424 | each INVALID instruction's label is mapped to the label of the valid one that follows, which has got one |
| LabelDump.PandasmProgramDumper.UpdateLabels4DumpIns | abc2program/program_dump.cpp:446-479 | labels and jumps are replaced as the map says, nothing else |
| LabelDump.PandasmProgramDumper.GetFinalDumpIns | abc2program/program_dump.cpp:366-378 | the valid instructions remain, in order |
| LabelDump.PandasmProgramDumper.GetFinallyLabelMap | abc2program/program_dump.cpp:481-500 | kept labels are mapped to indices, instructions without one are labelled with theirs |
| LabelDump.PandasmProgramDumper.DumpFunctionIns4EcmaScript | abc2program/program_dump.cpp:311-320 | every jump names the first valid instruction at or after its old destination; each remaining instruction is labelled with its index if and only if no made label clashes with a kept one, and two that clash share that label |
| LabelDump.ClashExampleFails | abc2program/program_dump.cpp:481-500 | code with such a clash |
| LabelDump.DumpClashExample | abc2program/program_dump.cpp:311-320 | the dumper gives both remaining instructions of that code the label of index 1 |
| LexerModel.Lexer.LexString | assembler/lexer.cpp:225-259 | the text up to the first quote outside of an escape, or there is none before the end |
| LexerModel.Lexer.LexTokens | assembler/lexer.cpp:275-330 | it ends; tokens are ordered, disjoint, not empty, inside the line, of the right form, names go on as far as they can, exactly the keywords and operations have that kind, and only white space lies outside of them |
| LexerModel.Lexer.AnalyzeLine | assembler/lexer.cpp:386-393 | the same for every line |
| LexerModel.CharactersAre | assembler/lexer.cpp:23-44 | the eleven delimiters and the six white space characters |
| LexerModel.Lexer.LexPreprocess | assembler/lexer.cpp:349-375 | the end is that of the text before the first comment marker that is not taken to be inside of a literal |
| LexerModel.CommentsRightIff | assembler/lexer.cpp:349-375 | it knows all along the line where literals are if and only if every quote behind a backslash is escaped |
| LexerModel.CommentIsOutside | assembler/lexer.cpp:349-375 | then the marker is the first one outside of literals |
| LexerModel.BackslashHidesComment | assembler/lexer.cpp:349-375 | a line whose comment is not found |
| StringLiterals.ParseOctalEscapeSequence | assembler/assembly-parser.cpp:1445-1463 | as many octal digits as there are, at most three, and their value in a byte |
| StringLiterals.ParseHexEscapeSequence | assembler/assembly-parser.cpp:1465-1487 | exactly two hex digits, never reading past the token |
| StringLiterals.ParseEscapeSequence | assembler/assembly-parser.cpp:1489-1530 | one escape is read, and the parser is then where the lexer is outside of an escape |
| StringLiterals.StaysAligned | assembler/assembly-parser.cpp:1489-1530 | lexer and parser stay aligned although they skip different numbers of characters |
| StringLiterals.ParseStringLiteral | assembler/assembly-parser.cpp:1532-1565 | an error, or the value, having stopped exactly at the closing quote |
| StringLiterals.RenderRoundTrip | assembler/assembly-parser.cpp:1489-1565 | any list of characters and escapes, written down, is one literal to the lexer and is read as what it means |
| StringLiterals.ValueRoundTrip | assembler/assembly-parser.cpp:1489-1565 | every value of bytes, each character written as itself, as the letter C has for it, or as its code in hexadecimal or octal digits, is read back |
| StringLiterals.EscapesAre | assembler/assembly-parser.cpp:1489-1530 | the letters that can follow a backslash, and the digits |
| StringLiterals.OctalEscapeIs | assembler/assembly-parser.cpp:1445-1463 | three octal digits give their number in a byte |
| StringLiterals.ReadIffRendered | assembler/assembly-parser.cpp:1489-1565 | a literal can be read if and only if it is such a list written down |
| StringLiterals.ReadLine | assembler/assembly-parser.cpp:1532-1565 | the tokens cover every line up to a comment or an unterminated literal, and each string token is an error or its value, the parser having stopped at its closing quote |
| Annotations.StepKeeps | assembler/meta.cpp:239-439 | every attribute keeps the invariant (an open element lies in an open annotation, only arrays have a component type), a refused one changes nothing, and an exception comes only from a component type before the type |
| Annotations.After | assembler/meta.cpp:239-439 | the invariant holds after every run |
| Annotations.TypeFirstNeverThrows | assembler/meta.cpp:328-351 | no run in which each element's type precedes its component type ends in an exception |
| Annotations.ThrowsIffTypeMissing | assembler/meta.cpp:328-351 | after any accepted attributes the next one ends in an exception if and only if it is a component type and no type came since the last element name |
| Annotations.ComponentTypeTooSoon | assembler/meta.cpp:328-351 | attributes that end so |
| Annotations.AnnotationElementBuilder.AddValue | assembler/meta.cpp:216-237 | its assertions hold where it is called; the value is appended, or refused |
| Annotations.AnnotationMetadata.ResetAnnotationBuilder | assembler/meta.h:435-450 | the open element and annotation are closed; the first annotation of an id stays |
| Annotations.AnnotationMetadata.StoreValue | assembler/meta.cpp:383-426 | the builders take the step that the attribute stands for |
| Annotations.AnnotationMetadata.ValidateData | assembler/meta.cpp:428-439 | what is open is closed, unless an element is incomplete |
| Annotations.AnnotationRoundTrip | assembler/meta.cpp:239-439 | the attributes of a list of annotations are accepted if and only if its values can be created, and rebuild exactly that list and its ids |
| Annotations.StoreAnnotations | assembler/meta.cpp:149-439 | the attributes of a list of annotations are accepted if and only if every text is accepted by its type or is the id of an annotation before it; then every annotation is stored with its name, its elements in order, and each value with its declared type and text, or as the annotation first written under that id |
| Annotations.MeantIsBuilt | assembler/meta.cpp:149-237 | the same for what a list of annotations means |
| ModuleArray.FillEntry | abc2program/abc_module_array_processor.cpp:90-169 | the literals of one record, and the count of its kind |
| ModuleArray.FillEntrySize | abc2program/abc_module_array_processor.cpp:172-191 | each count is inserted directly before the entries of its kind |
| ModuleArray.EntriesByKind | libpandafile/module_data_accessor-inl.h:25-64 | in tag order the entries of a kind stand together |
| ModuleArray.LayoutReads | abc2program/abc_module_array_processor.cpp:27-71 | a reader that follows the counts recovers the requests and every record in order, but for the module index, which is the one below 65536 that differs by a multiple of 65536 |
| ModuleArray.FillProgramData | abc2program/abc_module_array_processor.cpp:27-71 | the array has that layout and is read back so, exactly if every module index is below 65536 |
| OpcodeAssignment.AssignOpcodes | isa/isapi.rb:542-556 | every item gets its own opcode or the free one the rule chooses, unique within its prefix if the given ones are |
| OpcodeAssignment.Initialize | isa/isapi.rb:624-642 | items are served in order, and it fails only on an item for which no opcode is left |
| OpcodeAssignment.AssignedUnique | isa/isapi.rb:458-486 | no two items of a prefix get the same opcode, and those chosen are below 256 |
| DispatchLayout.InDeclaredOrder | isa/isapi.rb:542-556 | of two items of a prefix without an opcode the one declared first gets the lower opcode, of two prefixes the higher one |
| OpcodeAssignment.DenseIff | isa/isapi.rb:458-486 | after any number of items the opcodes of a prefix are the first ones, as many as it has items, if and only if no given one is higher: the lowest free opcode fills the gaps |
| OpcodeAssignment.FillsTheTop | isa/isapi.rb:488-495 | prefixes without an opcode fill the highest places, as long as no given opcode lies there |
| DispatchLayout.InsnsAreDense | isa/isapi.rb:542-548 | over what is declared, assigned and sorted in any way: the opcodes of a prefix are dense if and only if no given one is as high as the number of its items |
| DispatchTables.SortKeeps | isa/isapi.rb:415-424 | the stable sort keeps the order of the instructions of one prefix |
| DispatchTables.GapSizes | isa/isapi.rb:426-433 | the two intervals of invalid handlers are just as large as needed |
| DispatchTables.FirstLevel | isa/isapi.rb:415-424 | every opcode below 256 finds the handler of its instruction or prefix, or the invalid one |
| DispatchTables.SecondLevel | isa/isapi.rb:435-455 | secondary opcode x of a prefix is found at the prefix's offset plus x |
| DispatchLayout.PrefixesAreBlocks | isa/isapi.rb:550-556 | prefixes, assigned and sorted, form a block from start on and a block that ends at 255 if and only if the given opcodes are one interval from start on with room for the others |
| DispatchLayout.TableOfDeclarations | isa/isapi.rb:415-455 | from declared items whose gaps are filled, through both assigners and any sort, every instruction, prefix and invalid opcode is found in its place on both levels |
| DispatchExact.CompleteIff | isa/isapi.rb:415-455 | the table has every handler in its place if and only if the opcodes of each prefix are the first ones and the prefixes form two blocks |
| DispatchExact.DeclaredIff | isa/isapi.rb:415-556 | the same from declarations on: if and only if every gap between given opcodes is filled by items without one and the given prefixes are one interval behind the instructions without a prefix |
| DispatchExact.GapExampleFails | isa/isapi.rb:415-433 | a gap between two given opcodes that nothing fills misplaces a handler |
| DispatchExact.FilledGapIsRight | isa/isapi.rb:458-486 | the same gap, filled by an instruction without an opcode, meets the condition |

## Left out

- File access, item containers, accessors over the bytes of an abc file, command line tools and logging.
- RegEncoder: the path for dynamic instructions with more than four inputs that are no range instructions; `VisitIntrinsic` (bytecode_optimizer/reg_encoder.cpp:488-497) never takes it. Register types are not modelled; every move copies a value.
- RegEncoderPass.RegEncoder.RunImpl: assumes the layout that bytecode_optimizer/reg_encoder.h:24-69 documents, and that the number of arguments fits a register.
- RegAccAlloc: marking of Phi instructions (any set of marked ones is allowed), call and commutative users, and Phi operands, which need facts about the compiler's graph that are not part of this model. CatchPhi instructions are not modelled either, although the second half of `RunImpl` (bytecode_optimizer/reg_acc_alloc.cpp:263-285) looks at the first input of one.
- AccAllocPass.IsAccWriteBetween: a Phi as the destination, for which the scan also passes blocks with several predecessors; only the marking of Phi instructions asks for that.
- LineProgram.BuildLineNumberProgram: the byte encoding of the operations and the constant pool; lines from 2147483648 on, which the emitter truncates; functions of more than 286331153 bytes of code, for which `SpecialOpcodeExact` and `WrittenExactly` say what goes wrong. Type signatures of variables are not modelled, only their names.
- LocalRanges.TableRightIff: variables without length, of which `EachVariableOnce` and `TableSize` say what becomes.
- LocalRanges.EndsFirstIsRight: overlapping variables and INVALID instructions, for which `TableRightIff` is the statement; so for the next two.
- LocalRanges.TouchingIsWrong: the same.
- LocalRanges.RightIffEndsFirst: the same.
- LocalTies.SafeIffNoTouch: overlapping variables and INVALID instructions, for which `AlwaysRightIff` is the statement.
- LocalTies.OverlappedIsRightIff: INVALID instructions, for which `TableRightIff` is the statement.
- CodeReader: conversion of single instructions and the names of exception classes, which are carried through as text. The offsets that the assembler writes for jumps come from the bytecode emitter, which is not part of this model.
- CodeReader.AbcCodeProcessor.AddLabel4InsAtIndex: an index outside of the instructions is a precondition; `StaysInsideIff` says when it cannot occur.
- LabelDump.PandasmProgramDumper.DumpFunctionIns4EcmaScript: a label without a valid instruction behind it (see the next line).
- LabelDump.PandasmProgramDumper.GetNearestValidIns: the search upwards for a label at the end of a function without a valid instruction behind it; its loop condition on an unsigned counter always holds. The rewriting of catch labels is not modelled.
- Annotations.AnnotationMetadata.StoreValue: conversion of numbers is a parameter (`accepts`), and the general attribute tables of Metadata, which the state machine does not read, are not modelled.
- ModuleArray.FillProgramData: counts are numbers without a width; more than 4294967295 literals are not considered.
- AccMachine.RunsRightIff: graphs with phis, which are moves on edges; calls and commutative instructions as readers.
- AccMachine.PreservesIff: graphs with phis, calls or commutative instructions.
- OpcodeAssignment.Initialize: `OpcodeAssigner#prefix` keys items without a prefix by the string `non_prefixed`, so that a prefix of that name would share their opcodes; in the model it does not.
- VariableEvents.StartingIsAll: variables without length, which are listed twice.
- DispatchTables.FirstLevel: prefixes whose opcodes do not form the two blocks, for which `CompleteIff` says that the table is wrong; operand parsing, formats and all other parts of isa/isapi.rb.
- Type descriptors, NaN boxing, tag names, getters and the defect scan library: they would only add easy members.

# BEFA in Dafny

BEFA reads an executable through BFD, sweeps its functions instruction by instruction, cuts them
into basic blocks, parses operand texts into expression trees and lowers compares, tests and
conditional jumps to an LLVM-like IR. This project models those five parts and proves what they keep.

- **Functions and blocks** (`OrderedSet`, `BasicBlocks`, `Disassembler`, `FunctionBlocks`,
  `FunctionRanges`, `Runs`, `WholeRun`, `Contributions`, `RunExamples`). A decoder is any function from an
  address to a size, a text and a matched jump target; the sentinels -1 (no jump) and -2 (unknown target) are the values the matcher returns. Addresses are
  naturals below 2^64 and wrap where the source does unsigned arithmetic; a size is cut to a C `int`
  as in `max_offset`. The main results are exact: which leaders open a block, when the
  cut is the textbook partition, when a function opens nothing, when ranges are disjoint, when a whole
  run fails, and when the addresses and block ids it emits ascend. `Contributions` says what a run sends without
  the functions that compute it: flag bits, sizes, the decoder of each symbol's section, leaders and blocks.
- **Symbols and sections** (`Symbols`, `SymbolRegistry`, `ExecutableFile`). The file object is a class
  with the two lazily filled buffers and the `sections_sorted` flag. Its invariant holds over any
  interleaving of its calls. The symbol table is specified by what it contains, proved unique, and
  conserves the raw symbols as a multiset.
- **Lowering** (`SymbolTable`, `Operands`, `Ir`, `Mapper`, `Lowering`, `Simulation`, `Programs`). The IR has an interpreter
  whose order and bitwise operators are parameters. The emitted stream is shown to simulate a flag
  machine for every run, and the flags to decide by the order of the compared values for every strict
  total order. The source side reads operands as they are written, with numerals standing for their
  numbers, and does not share the emitter's address lookup; `Operands` says exactly when that lookup keeps
  the value of an operand. `Programs` spells out mnemonics, operands and flag registers. The unsigned and the signed instance are the conditions of `ja`/`jbe` and `jg`/`jle` in
  Appendix B of Volume 1 of the Intel 64 and IA-32 Software Developer's Manual.
- **Operands** (`Patterns`, `Texts`, `Nodes`, `Decoder`, `Grammar`, `Samples`). Each regular expression is a function whose
  contract says which texts match and what the groups are. The parser reads `+` and `-` tighter than `*`; that grammar
  is proved from both sides, against flattening and against conventional precedence. The
  register table is a parameter; where a theorem needs it, the keys contain no operator, bracket or parenthesis.
- **Print buffer** (`PrintBuffer`). The callback's retry loop over a growing buffer, with `vsnprintf`
  as in section 7.21.6.12 of ISO/IEC 9899:2011.

`Wrappers` holds the address type. Raw symbols, raw sections, decoded
instructions, register tables and rendered texts are inputs.

## Where the code and its comments differ

The code is followed.

- `src/assembly/executable_file.cpp:101` speaks of sorting the sections in descending order; the
  code there sorts the symbols in ascending order.
- `src/assembly/disassembler.cpp:119` speaks of erasing -1 from the leaders; nothing is erased, and -1
  can only get there as a fall-through.
- `src/assembly/decoder.cpp:422-425` lists multiplication before addition as the precedence; because it
  is split first, it binds less tightly (the tests at `tests/decoder.cpp:80-100` expect that).
- `include/befa/llvm/instruction.hpp:422` and `:432` describe both searches as searches by address; one goes by
  a part of the name, and `Simulation.FlagMistaken` shows what that can find.

## Properties that fail, and exactly when they hold

| property | holds exactly when | input on which it fails |
|---|---|---|
| the partition is the textbook one, the first function opens a block | `FunctionBlocks.InstructionPlaced`, `FunctionBlocks.BackwardJumpOpensNothing`, `WholeRun.RunFailsExactly` | `RunExamples.BackwardJumpFails` |
| size ranges are disjoint, emitted addresses and block ids ascend | `FunctionRanges.RangesDisjointExactly`, `WholeRun.RunAscendsExactly`, `WholeRun.BlocksAscendExactly` | `RunExamples.AliasSweptTwice` |
| resolving addresses keeps an operand | `Operands.ResolutionKeepsExactly`, `Operands.NumeralsKeepExactly` | `Operands.AllOnesMisread` |
| parsing keeps the text | `Decoder.FlattenParse` | `Grammar.SegmentLost` |
| precedence is the conventional one | `Grammar.ConventionalPrecedence` | `Grammar.ScaledAddress` |
| a name is found again by `get_or_create` | `SymbolTable.GetOrCreateTwice` | `SymbolTable.SecondCallFails` |
| flags after `test` are the processor's | `Simulation.JumpAfterTest` | `Simulation.JumpAfterTestDeparts` |
| a sorted section buffer stays sorted | `SymbolRegistry.StaysDescendingExactly` | not known to be reachable: `src/assembly/executable_file.cpp:310-323` lists the four pseudo-sections and every section of the file |
| the compare group is right on every store | `Simulation.CompareGroupExact` | a property of the IR only: no x86 instruction has zf as an operand |

## Model

| member | source | states |
|---|---|---|
| BasicBlocks.OpensLongestSubsequence | src/assembly/disassembler.cpp:119-130 | Whatever the instruction starts and leaders are (no order assumed), the one-pointer pass opens the longest prefix of the leaders that occurs in that order among the starts. |
| BasicBlocks.OpensLongestPrefix | src/assembly/disassembler.cpp:119-130 | For ascending starts and leaders: every opened leader is an instruction start, and the first leader that is not opened is none. A leader inside an instruction stops all later blocks. |
| BasicBlocks.HighLeadersIgnored | src/assembly/disassembler.cpp:119-130 | Leaders above every instruction start do not change where the pointer stands after any instruction. |
| BasicBlocks.PlacedExactly | src/assembly/disassembler.cpp:119-140 | An instruction lies in the block of the greatest leader not above it if and only if every leader up to that instruction is an instruction start. |
| BasicBlocks.PartitionExact | src/assembly/disassembler.cpp:119-140 | So all instructions do if and only if every leader up to the last instruction is an instruction start. |
| BasicBlocks.BlockBegins | src/assembly/disassembler.cpp:122-130 | A block begins at an instruction if and only if the instruction stands on a leader and every leader up to it is an instruction start. |
| Disassembler.LeadersElements | src/assembly/disassembler.cpp:96-110 | The leader set holds the function's address and, for each recognised jump, its target and its fall-through, and nothing else. |
| Disassembler.LeadersSpelled | src/assembly/disassembler.cpp:107-109 | The same with the sentinel written out: every matched target but 2^64-1 counts, that of an unknown target included, and the fall-through is address plus size modulo 2^64. |
| Disassembler.SweepIsWalk | src/assembly/disassembler.cpp:89-118 | The sweep is the walk from the function's address: each instruction with the address and text decoded there, starting below the size when the low 32 bits of the size are below 2^31 - nothing at all when they are not - and ending only at the size or where decoding fails. |
| Disassembler.WalksUnique | src/assembly/disassembler.cpp:89-118 | The decoder and the size leave no choice about a walk. |
| Disassembler.SymbolDataLoader.Collect | src/assembly/disassembler.cpp:89-118 | The first loop gathers exactly the linear sweep from the symbol's address (ended by a size that is not positive or by the 32-bit `max_offset`) and its leader set. |
| Disassembler.SymbolDataLoader.Partition | src/assembly/disassembler.cpp:119-140 | The second loop appends one block per opened leader and every instruction with the last block existing at that time; it fails, before passing anything on, exactly when the first instruction finds no block. |
| Disassembler.SymbolDataLoader.Fetch | src/assembly/disassembler.cpp:68-142 | Both loops together, over the whole listing: all old blocks and instructions stay, what is added is fixed by the decoder and the size, and what is sent is the walk over the given size with the given decoder. |
| FunctionBlocks.SweepTiles | src/assembly/disassembler.cpp:89-118 | Swept instructions stand at consecutive offsets below `max_offset`, from the function's address and modulo 2^64, with no gap between them. |
| FunctionBlocks.FittingTiles | src/assembly/disassembler.cpp:89-118 | In a range that does not wrap they tile its addresses. |
| FunctionBlocks.AscendsUnlessWrapped | src/assembly/disassembler.cpp:98-118 | The addresses of one sweep ascend strictly if and only if its last instruction does not lie beyond the address space. |
| FunctionBlocks.SweepCovers | src/assembly/disassembler.cpp:89-118 | The sweep records what was decoded and ends only at `max_offset` or where decoding fails, wrapping or not. |
| FunctionBlocks.LeadersFromTargets | src/assembly/disassembler.cpp:106-110 | Fall-throughs inside the function are never in the way: leaders up to any bound are instruction starts if and only if recognised targets are, and the end of a last jump does not wrap to a place up to it that is none. |
| FunctionBlocks.InstructionPlaced | src/assembly/disassembler.cpp:96-140 | An instruction of a function is in its textbook block (greatest leader not above it) if and only if no recognised jump leads, up to that instruction, to a place that is not an instruction start. |
| FunctionBlocks.FunctionPartition | src/assembly/disassembler.cpp:96-140 | So the whole function is cut as in the textbook if and only if this holds up to its last instruction. |
| FunctionBlocks.JumpEndsBlock | src/assembly/disassembler.cpp:107-130 | A new block begins behind a recognised jump if and only if the jumps of the function fit in this sense up to the next instruction. |
| FunctionBlocks.TargetBeginsBlock | src/assembly/disassembler.cpp:107-130 | An instruction that a jump of the function targets is the first of a block if and only if the jumps fit up to it. |
| FunctionBlocks.EveryTargetBeginsBlock | src/assembly/disassembler.cpp:107-130 | When all jumps fit, every recognised target inside the function is the first instruction of a block. |
| FunctionBlocks.EmittedBlocks | src/assembly/disassembler.cpp:122-140 | What subscribers receive: an instruction up to which the jumps fit comes with its address and text, in the block of this function whose id is the greatest leader not above it, a new one behind a recognised jump. |
| FunctionBlocks.BackwardJumpOpensNothing | src/assembly/disassembler.cpp:119-134 | A function opens no block at all if and only if one of its jumps leads to a place before it; it then fails if and only if no earlier function left a block. |
| FunctionBlocks.HighTargetsIgnored | src/assembly/disassembler.cpp:46-54 | Changing recognised targets above the last instruction, the sentinel of an unknown target among them, leaves the partition unchanged. |
| FunctionRanges.ClosestFunction | src/assembly/disassembler.cpp:166-172 | The search stops at the first symbol that is a function by its own flags and lies behind the swept one. |
| FunctionRanges.SizeReaches | include/befa/assembly/symbol.hpp:66-73 | A size reaches to the next function, or to the end of the section when there is none, is positive and does not wrap modulo 2^64. |
| FunctionRanges.SizesTelescope | src/assembly/disassembler.cpp:166-177 | When all own-flagged functions lie in one section, their sizes add up to the section's end minus the first function's address. |
| FunctionRanges.RangesDisjointExactly | src/assembly/disassembler.cpp:160-177 | When an own-flagged function follows, the size range of a symbol ends before a later symbol if and only if such a function stands between them or is the later one; when none follows, if and only if its section ends first. |
| WholeRun.StepOrdered | src/assembly/disassembler.cpp:156-198 | The instructions and blocks one symbol adds ascend and stay between its address and its last instruction, unless its sweep wraps. |
| WholeRun.RunAscendsExactly | src/assembly/disassembler.cpp:152-199 | The addresses emitted by a run that does not fail ascend strictly if and only if no sweep runs over the top of the address space and none decodes an instruction at or behind a later symbol that is a function only through an alias and has an instruction of its own. |
| WholeRun.RunFailsExactly | src/assembly/disassembler.cpp:131-134 | A run fails if and only if no block came before and the first function with an instruction jumps to a place before its own address; it has emitted nothing then. |
| WholeRun.RunOrdered | src/assembly/disassembler.cpp:152-199 | When sweeps are apart (none wraps, none overruns a later function): from any table index and any blocks before the remaining functions, emitted addresses and block ids ascend strictly. |
| WholeRun.WholeRunOrdered | src/assembly/disassembler.cpp:152-199 | From an empty block buffer, when sweeps are apart: addresses and block ids ascend; unless the run fails the addresses are those of all sweeps in a row, each tiling its span. |
| WholeRun.CleanApart | src/assembly/disassembler.cpp:160-177 | Sweeps are apart whatever is decoded when swept symbols are functions by their own flags and ranges do not wrap. |
| WholeRun.SectionedRunOrdered | src/assembly/disassembler.cpp:152-199 | So they are, and the whole run is in order, for functions by their own flags that are followed by another or lie in their sections. |
| WholeRun.WholeRunParents | src/assembly/disassembler.cpp:122-140 | When sweeps are apart, which is when the emitted addresses ascend, and wherever jumps lead: every instruction's parent is the block with the greatest id not above it among all blocks of the listing. |
| WholeRun.TargetsFitSucceeds | src/assembly/disassembler.cpp:131-134 | A run in which no sweep wraps and recognised targets are instruction starts does not fail. |
| WholeRun.BlocksAscendExactly | src/assembly/disassembler.cpp:119-130 | The block ids of a run from nothing that does not fail ascend strictly if and only if no symbol opens a block at or behind the first block of a later symbol that is a function only through an alias, or whose sweep runs over the top of the address space. |
| Contributions.FlaggedExactly | include/befa/assembly/symbol.hpp:79-86 | A symbol is swept if and only if bit 3 is in its own flags or an alias's. |
| Contributions.SizeExactly | src/assembly/disassembler.cpp:166-177 | A size reaches to the next symbol that has bit 3 in its own flags, or is the section's size less the symbol's offset in it, modulo 2^64. |
| Contributions.StepAdds | src/assembly/disassembler.cpp:156-198 | What one symbol adds, in terms of its flags, its size and the decoder of its own section: the walk, blocks that are its own, and in an ascending walk the least leaders until one is no instruction, each instruction with the greatest new block not above it or else the last earlier one. |
| Contributions.RunExplained | src/assembly/disassembler.cpp:152-199 | A run over a sorted table that does not fail is what its symbols add in this sense, one after the other. |
| Contributions.RunFailsSo | src/assembly/disassembler.cpp:131-134 | It fails if and only if no block came before and the first flagged symbol that finds an instruction has a leader before its own address. |
| RunExamples.BackwardJumpFails | src/assembly/disassembler.cpp:119-134 | A table of one function whose jump leads before it: no textbook block, and the run fails. |
| RunExamples.AliasSweptTwice | src/assembly/disassembler.cpp:160-177 | A table built from three raw symbols, one a function only as an alias, and two instructions of four bytes: ranges overlap and the run emits one address twice. |
| RunExamples.OverlapWithoutHarm | src/assembly/disassembler.cpp:160-177 | The same overlapping ranges with a decoder that stops early: the emitted addresses ascend. |
| Symbols.Symbol.AddAlias | include/befa/assembly/symbol.hpp:106-108 | The alias goes to the end; origin, parent and earlier aliases stay. |
| Symbols.Symbol.HasFlags | include/befa/assembly/symbol.hpp:79-86 | True if and only if one of the asked bits is among the flags of the symbol or of one of its aliases. |
| SymbolRegistry.BuildComplete | src/assembly/executable_file.cpp:65-99 | After any number of raw symbols the table has one record per address seen, holding all raw symbols of that address in file order with the first as origin and its section as parent. |
| SymbolRegistry.SortedBuildIsTable | src/assembly/executable_file.cpp:65-107 | Sorting the built records gives the symbol table of the raw symbols. |
| SymbolRegistry.TableConserves | src/assembly/executable_file.cpp:65-107 | Origins and aliases of a table are, as a multiset, exactly the raw symbols. |
| SymbolRegistry.TableUnique | src/assembly/executable_file.cpp:63-113 | The raw symbols determine the table: any two tables of them are equal. |
| SymbolRegistry.OriginFirst | src/assembly/executable_file.cpp:65-98 | A record's origin is the first raw symbol of its address, its section the origin's, its aliases the later symbols of that address in file order. |
| SymbolRegistry.OpensExactly | src/assembly/executable_file.cpp:68-74 | A raw symbol gets a record of its own if and only if no earlier one has its address. |
| SymbolRegistry.BuildParents | src/assembly/executable_file.cpp:76-95 | Every record's section is in the section buffer, whatever the buffer held before. |
| SymbolRegistry.SectionsKept | src/assembly/executable_file.cpp:76-95 | Building the table drops no section and adds none when all symbols' sections are there. |
| SymbolRegistry.SectionsWithBrought | src/assembly/executable_file.cpp:76-95 | Building the table keeps the buffer as a prefix and adds only missing sections of symbols that are the first of their address. |
| SymbolRegistry.StaysDescendingExactly | src/assembly/executable_file.cpp:76-95 | A sorted buffer with a section at address 0 stays sorted through a later table build if and only if every section the build adds lies at address 0. |
| SymbolRegistry.SectionsFetched | src/assembly/executable_file.cpp:155-163 | Fetching keeps the buffer as a prefix and afterwards holds every fetched section. |
| ExecutableFile.SortSymbols | src/assembly/executable_file.cpp:101-107 | The result ascends strictly by address and has the same symbol objects. |
| ExecutableFile.SortSections | src/assembly/executable_file.cpp:165-174 | The result descends by address and is a permutation; the order among equal addresses is left open. |
| ExecutableFile.ExecutableFile.AddRawSymbol | src/assembly/executable_file.cpp:65-98 | One raw symbol changes the table as specified (a new record, or an alias of the record at its address) and the section buffer only for a new record. |
| ExecutableFile.ExecutableFile.CreateTable | src/assembly/executable_file.cpp:64-108 | From an empty buffer: the symbol table of the raw symbols, all parents buffered, sections as specified, none twice. |
| ExecutableFile.ExecutableFile.GetSymbolTable | src/assembly/executable_file.cpp:63-113 | The buffer is the file's symbol table, all invariants hold, and a call on a built table changes nothing. |
| ExecutableFile.ExecutableFile.RefreshSections | src/assembly/executable_file.cpp:153-176 | No section is lost or doubled; the first call sorts all buffered and fetched sections, a later call changes nothing. |
| ExecutableFile.ExecutableFile.GetSections | src/assembly/executable_file.cpp:153-180 | The same on the whole object: with `GetSymbolTable` in any order, sections stay unique, every symbol's parent stays buffered, and the sorted buffer stays sorted if all symbols' sections are listed by the file. |
| ExecutableFile.FunctionIndexExact | src/assembly/executable_file.cpp:182-203 | Over a sorted table the map of functions has as many entries as symbols and each symbol's function under its address: none is lost to a key collision. |
| ExecutableFile.ExecutableFile.GenerateTable | src/assembly/executable_file.cpp:182-203 | The returned map holds exactly one entry per symbol of the table. |
| ExecutableFile.ExecutableFile.SizeOf | src/assembly/disassembler.cpp:166-177 | The searching loop computes the specified size of a symbol. |
| ExecutableFile.ExecutableFile.SweepAll | src/assembly/disassembler.cpp:155-198 | The loop over the table performs the specified run; an assertion that fails ends it. |
| ExecutableFile.ExecutableFile.RunDisassembler | src/assembly/disassembler.cpp:152-199 | Builds the table if need be and appends to the listing exactly the run over the file's symbol table, which is accounted for symbol by symbol with the decoder of each one's own section. Into an empty listing it fails if and only if the first function with an instruction jumps before itself; otherwise addresses ascend if and only if the sweeps are apart, and then block ids ascend too and every parent is the greatest block not above its instruction. |
| Mapper.InstructionMapper.RegisterFactory | src/llvm/decompiler.cpp:143-145 | The factory is shown instructions after all earlier ones. |
| Mapper.Without | src/llvm/decompiler.cpp:147-154 | Removing by identity takes out every registration of that object and no other, and keeps how often the others are registered. |
| Mapper.WithoutAppend | src/llvm/decompiler.cpp:147-154 | Removal distributes over concatenation, so the others keep their order. |
| Mapper.WithoutOne | src/llvm/decompiler.cpp:147-154 | A single factory stays unless it is the removed object. |
| Mapper.NoneThrows | src/llvm/decompiler.cpp:129-132 | Factories that do not throw send one group after the other. |
| Mapper.FirstThrows | src/llvm/decompiler.cpp:129-132 | A factory that throws still sends what it sent before, and no later factory is asked. |
| Mapper.InstructionMapper.RemoveFactory | src/llvm/decompiler.cpp:147-154 | The compaction loop leaves exactly the other factories. |
| Mapper.InstructionMapper.Accumulate | src/llvm/decompiler.cpp:129-132 | One instruction adds the reactions of all factories in registration order, up to the first that throws. |
| Mapper.InstructionMapper.ReduceInstr | src/llvm/decompiler.cpp:118-141 | A stream adds the in-order concatenation of its instructions' groups, up to the first reaction that throws. |
| Mapper.LowerAppend | src/llvm/decompiler.cpp:122-134 | Feeding two streams one after the other emits the first one's groups and then the second one's. |
| Mapper.EmitAllPermutation | src/llvm/decompiler.cpp:129-132 | Factories whose reactions exclude each other emit the same for an instruction in every order of registration. |
| Mapper.RegistrationOrderIrrelevant | src/llvm/decompiler.cpp:118-145 | The same for whole streams. |
| Simulation.FactoriesExclusive | src/llvm/decompiler.cpp:526-693 | The compare and the jump factory never both react to an instruction. |
| Simulation.UnfinishedFamiliesEmitNothing | src/llvm/decompiler.cpp:668-680 | The GE, LT, EQ and NE families emit nothing. |
| Simulation.CompareEmissionLocals | src/llvm/decompiler.cpp:526-594 | A compare or test group reads no temporary before it is written; `cmp` writes exactly zf and cf, `test` at most its temporary and zf, sf, pf. |
| Simulation.JumpEmissionLocals | src/llvm/decompiler.cpp:627-692 | A jump group reads no temporary before it is written and writes no flag register. |
| Simulation.FlagFound | src/llvm/decompiler.cpp:165-178 | A table that holds a flag register, and nothing else whose name contains the flag's, yields that register. |
| Simulation.FlagMistaken | src/llvm/decompiler.cpp:165-178 | The search goes by a part of the name: a first symbol whose name contains the flag's is taken for the flag. |
| Simulation.FlagRegistersResolve | src/assembly/decoder.cpp:86-90 | The flag registers are different symbols, none of them a constant the factories compare with. |
| Simulation.CompareGroupRun | src/llvm/decompiler.cpp:546-552 | Running the compare group leaves operand equality in zf and the order of the operands in cf. |
| Simulation.TestGroupRun | src/llvm/decompiler.cpp:578-593 | Running the test group sets zf from the conjunction of the operands, sf and pf from the machine's operators on it, and leaves cf. |
| Simulation.JumpGroupRun | src/llvm/decompiler.cpp:627-692 | Running a jump group keeps the flags and branches on CF = 0 and ZF = 0 (greater family) or CF = 1 or ZF = 1 (less-or-equal family). |
| Simulation.StepSimulation | src/llvm/decompiler.cpp:526-692 | The group of any instruction simulates one step of the flag machine. |
| Simulation.IrSimulatesFlags | src/llvm/decompiler.cpp:526-692 | For every run, tests included, the emitted IR makes the branch decisions of the flag machine in order and ends in related states. |
| Simulation.IrFollowsFlags | src/llvm/decompiler.cpp:526-692 | The decisions agree from any store when the run starts with a compare. |
| Simulation.FlagsDecideByOrder | include/befa/llvm/cmp.hpp:17-29 | For any strict total order read as `lt`, flag decisions are decisions by the order of the last compared values. |
| Simulation.LoweringSimulates | src/llvm/decompiler.cpp:526-693 | Main theorem: for every run of compares and jumps starting with a compare, a greater jump is taken iff the second operand is below the first and a less-or-equal jump iff it is not, for any strict total order and from any store. |
| Simulation.EmitMeaning | src/llvm/decompiler.cpp:128-133 | What both registered factories together send for an instruction is the group of its meaning. |
| Simulation.LowerRuns | src/llvm/decompiler.cpp:122-134 | The flat created stream runs like its groups one after the other. |
| Simulation.MapperSimulates | src/llvm/decompiler.cpp:118-141 | The theorem against the program as written, tests included: operands are read without the symbol table and evaluated, registers and memory may change between instructions, and the emitted IR decides every jump as the flag machine does, and by the order of the last compared values in a program without tests, if resolution keeps the operands. Only tests need sf and pf. |
| Simulation.CreatedStreamSimulates | src/llvm/decompiler.cpp:118-145 | The same for the flat created stream, whichever factory was registered first. |
| Simulation.RegisteredFactoriesSimulate | src/llvm/decompiler.cpp:118-145 | The same for the source's two factories over any symbol table that holds zf and cf, and sf and pf if there are tests, and nothing else named like them. |
| Programs.JumpsDecide | src/llvm/decompiler.cpp:58-82 | `cmp a,b` and then `ja`, `jg`, `jnbe` or `jnle` branches once, taken if and only if `b` is worth less than `a`; with `jbe`, `jle`, `jna` or `jng` if and only if it is not. |
| Programs.TestsDecide | src/llvm/decompiler.cpp:526-693 | With a `test c,d` in between the decision is by the compare's order and the tested conjunction together. |
| Programs.CompareSetsFlags | src/llvm/decompiler.cpp:538-552 | After `cmp a,b` the register zf holds equality and cf whether the first operand is below the second. |
| Programs.TestSetsFlags | src/llvm/decompiler.cpp:569-593 | After `test a,b` the registers zf, sf and pf come from the conjunction and cf is kept. |
| Programs.JumpSpelled | src/llvm/decompiler.cpp:620-692 | The instructions of a conditional jump, with the constants and the names of the temporaries. |
| Programs.CompareSpelled | src/llvm/decompiler.cpp:526-553 | The instructions of a compare. |
| Programs.TestSpelled | src/llvm/decompiler.cpp:556-594 | The instructions of a test, with the name of its temporary. |
| Programs.MissingFlagThrows | src/llvm/decompiler.cpp:539-544 | A compare or test for which a flag is not found throws before it sends anything. |
| Programs.MissingTargetThrows | src/llvm/decompiler.cpp:682-692 | A conditional jump without a target sends its condition and throws. |
| Programs.OthersEmitNothing | src/llvm/decompiler.cpp:526-693 | All other mnemonics emit nothing. |
| Ir.ComparisonsFit | include/befa/llvm/cmp.hpp:17-24 | Under a strict total order exactly one of LT, EQ and GT holds, and LE, GE and NE follow from them. |
| Ir.ExecuteWrites | include/befa/llvm/instruction.hpp:227-256 | An instruction writes exactly what it defines. |
| Ir.ExecuteReads | include/befa/llvm/instruction.hpp:265-300 | What it writes and where it branches depends only on the symbols it uses. |
| Simulation.RegistersFaithful | src/llvm/decompiler.cpp:526-594 | Compares and tests of registers meet the hypotheses of the theorem, whatever the registers hold. |
| Simulation.ProcessorOrders | include/befa/llvm/cmp.hpp:17-29 | The unsigned and the two's-complement order both qualify. |
| Simulation.JumpAfterTest | src/llvm/decompiler.cpp:556-594 | A jump right after `test` decides as on a processor that clears cf if and only if cf was clear or the operands have no common bit. |
| Simulation.JumpAfterTestDeparts | src/llvm/decompiler.cpp:556-594 | `cmp eax,ebx`, `test ebx,ebx`, `ja` with 0 and 1 in the registers: not taken, but taken when `test` clears cf. |
| Simulation.CompareGroupExact | src/llvm/decompiler.cpp:546-552 | The compare group, as IR, is right on every store if and only if zf is no operand or both operands are one symbol. |
| SymbolTable.FindAddressLeastKey | src/llvm/decompiler.cpp:180-191 | The search by address finds, among symbols of one address, the one with the least key. |
| SymbolTable.LessSpelled | src/llvm/decompiler.cpp:173-176 | The key order is the lexicographic one: a proper prefix is less, else the first difference decides. |
| SymbolTable.ContainsSpelled | src/llvm/decompiler.cpp:171 | A name contains a text if and only if it is some front, the text and some back. |
| SymbolTable.FindNameFirst | src/llvm/decompiler.cpp:165-178 | The search by name finds the first symbol whose name contains the text, and none only if there is none. |
| SymbolTable.ByteKeysCollide | src/llvm/decompiler.cpp:217-222 | Two symbols get one key if and only if the low bytes of their addresses agree. |
| SymbolTable.GetFound | include/befa/llvm/instruction.hpp:480-482 | A name that is there is answered with its symbol and the table stays. |
| SymbolTable.IndexAgreesWithScan | src/llvm/decompiler.cpp:180-212 | For every address, present or absent, the address map and the search give the same symbol. |
| SymbolTable.SymTable.FindSymbolByAddress | src/llvm/decompiler.cpp:180-191 | The flag-driven loop returns the first symbol with the address. |
| SymbolTable.SymTable.FindSymbolByName | src/llvm/decompiler.cpp:165-178 | The flag-driven loop returns the first symbol whose name contains the text. |
| SymbolTable.SymTable.ToMap | src/llvm/decompiler.cpp:203-212 | The map built by insertion agrees with the search on every address. |
| SymbolTable.InsertOrdered | src/llvm/decompiler.cpp:223-226 | Insertion under a new key keeps the key order. |
| SymbolTable.SymTable.AddSymbol | src/llvm/decompiler.cpp:214-228 | The symbol goes under the low byte of its address as a one-character key; a taken key fails and changes nothing. |
| SymbolTable.GetOrCreateTwice | include/befa/llvm/instruction.hpp:472-484 | Asking twice for a missing name answers the second time if and only if the name is the created symbol's byte key; otherwise the insertion assertion fails. |
| SymbolTable.SecondCallFails | src/llvm/decompiler.cpp:434-440 | The call factory's own request for `Temporary` fails the second time. |
| Operands.ResolutionKeepsExactly | src/assembly/decoder.cpp:396-404 | Resolving known addresses keeps the value of an operand in every interpretation if and only if each leaf is left alone, replaced by itself, or a numeral replaced by what stands for the same number. |
| Operands.ResolutionKeeps | src/assembly/decoder.cpp:396-404 | Then its value is kept in every interpretation, of whatever kind its values are. |
| Operands.NumeralsKeepExactly | src/llvm/decompiler.cpp:203-212 | Under the index of a table of registers, functions and plain symbols, an operand whose registers are not spelled like known addresses keeps its machine value if and only if no numeral in it has the address of a symbol that is no function. |
| Operands.KeptByNumerals | src/llvm/decompiler.cpp:203-212 | That condition on numerals is the leaf condition of the lowering theorem. |
| Operands.TableIndexed | src/llvm/decompiler.cpp:203-212 | The index of such a table holds every symbol at its own address. |
| Operands.TopNumeralMisread | include/befa/assembly/instruction_parser.hpp:351-354 | Registers keep the default address 2^64-1, so with one in the table every numeral from that value up is read as the symbol with the least key, and the operand changes its value. |
| Operands.AllOnesMisread | include/befa/assembly/instruction_parser.hpp:351-354 | In particular `ffffffffffffffff` is, with or without its `0x`. |
| Patterns.MatchAddress | src/assembly/decoder.cpp:21-22 | Matches exactly hexadecimal digits with an optional `0x`; the group is what follows prefix and leading zeros. |
| Texts.CharacterClasses | src/assembly/decoder.cpp:15-22 | The digits and word characters of the expressions. |
| Texts.HexNumberText | src/assembly/decoder.cpp:18-22 | Numbers are exactly the texts of at least one hexadecimal digit, with or without `0x`. |
| Texts.DigitValues | src/assembly/decoder.cpp:383-390 | A digit has its place in the row of digits as value, in either case. |
| Texts.HexValueStep | src/assembly/decoder.cpp:383-390 | Values are positional in base 16. |
| Texts.ValueSaturates | src/assembly/decoder.cpp:383-390 | A value of more than 64 bits is read as the largest one. |
| Texts.SegmentText | src/assembly/decoder.cpp:15-16 | A segment is a word and a colon, or missing. |
| Patterns.MatchSplit | src/assembly/decoder.cpp:9-13 | Splits at the last operator with text on both sides, and fails only if there is none or the text has a newline. |
| Patterns.DereferenceMatches | src/assembly/decoder.cpp:15-16 | Matches exactly the texts `SIZE PTR segment[inner]`, and the groups rebuild the text. |
| Patterns.DereferenceUnique | src/assembly/decoder.cpp:15-16 | The groups are determined by the text: any way to read it as a dereference is the one matched. |
| Decoder.HandleExpression | src/assembly/decoder.cpp:392-449 | Terminates on every text and never yields the null pointer. |
| Decoder.CreateDereference | src/assembly/decoder.cpp:329-359 | Yields a node if and only if the size keyword is known. |
| Decoder.CreateOperation | src/assembly/decoder.cpp:361-370 | Never reaches the null fallback. |
| Decoder.ParseByShape | src/assembly/decoder.cpp:392-449 | Which branch reads a text, in the order function, register, number, dereference, `*`, additive. |
| Decoder.FlattenLosesSegments | src/assembly/decoder.cpp:392-449 | Flattening the parsed tree loses exactly the segment prefixes: lengths add up, and without any the text comes back. |
| Decoder.FlattenParse | src/assembly/decoder.cpp:392-449 | The text comes back if and only if no dereference in it, at any depth, names a segment. |
| Decoder.FlattenParseNoColon | src/assembly/decoder.cpp:392-449 | In particular every text without a colon comes back. |
| Grammar.SegmentLost | src/assembly/decoder.cpp:15-16 | `DWORD PTR fs:[eax]` is read as `DWORD PTR [eax]`. |
| Decoder.ResolveCommutes | src/assembly/decoder.cpp:396-404 | Parsing with a function map equals parsing with the empty map and then replacing every leaf whose text is a known address. |
| Decoder.AddressValue | src/assembly/decoder.cpp:383-404 | The looked-up address does not depend on the `0x` prefix or leading zeros. |
| Decoder.EverySpellingResolves | src/assembly/decoder.cpp:383-404 | A known function is found under every hexadecimal text, with or without `0x` and leading zeros and in digits of either case, whose value is its address. |
| Grammar.ParseIsTightAdditive | src/assembly/decoder.cpp:422-445 | For every text the parse tree is left-associative with `+`, `-` binding tighter than `*`. |
| Grammar.LeavesRead | src/assembly/decoder.cpp:406-420 | An atom is read as a register if the table has its text, else as an immediate if it is a number, else as a symbol. |
| Grammar.OperatorsRead | src/assembly/decoder.cpp:9-13 | Two atoms with `*`, `+` or `-` between them are read as that operation on what they are read as. |
| Grammar.OffsetAddress | src/assembly/decoder.cpp:422-445 | `SIZE PTR [base-offset]` is read as the load from the difference. |
| Grammar.LineBreakReads | src/assembly/decoder.cpp:9-16 | A text with a line break is matched by no expression and read as a symbol, unless it is a register's key. |
| Grammar.ParseInvertsFlatten | src/assembly/decoder.cpp:422-445 | A tree of operators over atoms, in any number of dereferences, is the parse of its own text if and only if it is grouped that way. |
| Grammar.GroupingsAgree | src/assembly/decoder.cpp:422-445 | A conventionally grouped tree is also grouped that way if and only if it does not mix `*` with `+` or `-`. |
| Grammar.ConventionalPrecedence | src/assembly/decoder.cpp:422-445 | A conventionally grouped tree is the parse of its text if and only if it does not mix the two kinds of operator. |
| Grammar.ScaledAddress | tests/decoder.cpp:80-100 | `SIZE PTR [base*scale+offset]` prints with the offset added to the scale first, for every size, register and pair of numbers. |
| Samples.LeafNames | include/befa/assembly/instruction_parser.hpp:659-661 | Registers print as size keyword and key, functions with `@` in front, other leaves as their text. |
| Samples.OperationNames | src/assembly/decoder.cpp:290-302 | Operations print both operands in parentheses. |
| Samples.DereferenceNames | include/befa/assembly/instruction_parser.hpp:614-621 | Dereferences print the size keyword, a star and the operand. |
| Samples.KeywordReads | src/assembly/decoder.cpp:329-359 | Each of the five size keywords is read as its size. |
| Samples.ScaledSample | tests/decoder.cpp:80-100 | The tree of `DWORD PTR [eax*0x8+0x666]`. |
| Samples.FunctionSample | tests/decoder.cpp:126-140 | A call target with the address of a known function, with or without `0x`, prints as that function. |
| Nodes.NameBalanced | include/befa/assembly/instruction_parser.hpp:614-621 | Names of trees with parenthesis-free leaves have balanced parentheses, no prefix closing more than it opened. |
| Nodes.MatchingParen | src/assembly/decoder.cpp:296-300 | The text determines where a leading parenthesis is closed, hence the left operand of a printed operation. |
| Nodes.PrinterInjective | src/assembly/decoder.cpp:290-302 | Two printable trees have the same name if and only if they are equal up to the kind of their leaves. |
| Nodes.NamelessOperandCollides | src/assembly/decoder.cpp:296-298 | Without the hypothesis names collide: a nameless left operand prints as a unary operation. |
| Grammar.ParsePrintable | src/assembly/decoder.cpp:392-449 | Parsing a parenthesis-free text gives a tree that meets the hypothesis of injectivity. |
| Grammar.NamesIdentifyOperands | src/assembly/decoder.cpp:290-302 | Parenthesis-free operand texts without a segment print to the same name only if they are the same text. |
| PrintBuffer.AttemptPrints | src/assembly/disassembler.cpp:217-224 | An attempt with room for the terminator writes the whole text behind the position and leaves NUL after it. |
| PrintBuffer.FakeFile.Reset | src/assembly/disassembler.cpp:203-206 | Empties the buffer and the text. |
| PrintBuffer.FakeFile.Ffprintf | src/assembly/disassembler.cpp:208-233 | The text grows by the rendered piece, every byte behind it is NUL with at least one present, the new buffer size is exact, and one attempt suffices iff the piece is shorter than its format, else two. |
| PrintBuffer.FakeFile.PrintAll | src/assembly/disassembler.cpp:201-233 | After any sequence of calls the text is the concatenation of the pieces, followed by NUL. |

## Left out

- BFD, libopcodes and file handling: raw symbols, sections and the decoder are inputs; section contents are not loaded.
- RxCpp subjects, subscriptions and laziness: streams are finite sequences, an exception ends a stream.
- The tokenising expression and the pattern of `match_jump`: tokens and matched targets are inputs.
- The byte view of an instruction (`src/assembly/disassembler.cpp:113`): nothing is claimed about instruction bytes.
- The `call` factory and text output of IR (`toString`): they would add easy members.
- Branches of the GE, LT, EQ and NE families: the source emits nothing for them.
- The meaning of MSB and BitwiseXNOR: parameters of the machine.
- Signed and unsigned conditions share one `lt`, as the enumeration makes them equal; a theorem is about the chosen order.
- Interpretation of operands: `+`, `-`, `*` and memory reads mean the same before and after resolution; what they compute is left open.
- Aliasing between registers of different width (`al` in `eax`): operand values are free at every instruction instead.
- Signed overflow of `offset` and of the size returned by the decoder near 2 GiB, which is undefined in C++.
- PrintBuffer.FakeFile.Ffprintf: covers texts and formats shorter than the largest `int` and a `vsnprintf` that does not return an error, on which the source would not stop.
- Lowering.EmitCompare: a `cmp` or `test` with fewer than two arguments reads past a vector in the source; it is taken to throw.
- SymbolTable.SymTable.AddSymbol: the symbol's default address -1 is kept as an ordinary address with low byte 255.
- WholeRun.WholeRunParents: is about runs whose emitted addresses ascend; where one sweep overruns another function the blocks of the two may interleave (`RunExamples.AliasSweptTwice`).
- SymbolRegistry.StaysDescendingExactly: is about buffers that hold a section at address 0, where the format's pseudo-sections lie; no file is known to reach its failing side.
- Identity of section objects: a section is the value of its raw section, two objects of one raw section are not told apart.
- Lifetimes of weak pointers, moves and copies, visitors, traits, assertion and backtrace machinery.

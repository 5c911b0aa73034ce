# ikanOS model

A Dafny model of the ikanOS kernel and user tools in `ikanOSv5-1-Bootloader-Base`, with proofs about the model.

* **Toolchain.** The C compiler (`cc.cpp`), the two-pass x86 assembler with its ELF writer (`al.cpp`), the
  disassembler (`sysDisassemble`) and the number routines they share. The end result, `Build.BuildMain`, goes from
  the characters of a C source to the bytes of an executable whose run computes the source's values, and comes to
  its end exactly when the source does.
* **File system.** The sector cache, the usage bitmaps, directory blocks as record chains, moving files, path
  resolution over the blocks, and what creating, deleting and moving does to all paths (`fs.cpp`).
* **Object table.** Inserting entries, write locks and named pipes (`file.cpp`, `syscalls.cpp`).
* **Arithmetic.** The Internet checksum with the packet headers that carry it (`net.cpp`) and the Unix-time
  conversions (`libc-main.cpp`).

Code that changes buffers, tables or fields step by step is a method over arrays or a class, proved against a
function; the properties are lemmas about those functions. 32-bit words are `Words.Word`, and wrap-around is always
written out. `Compiler.Compiler` parses with the syntax tree as a ghost parameter: its contracts say that reading
the tokens of a tree appends the text of the tree's code.

Module order of the toolchain: `SourceLanguage` and `CodeGenerator` (meaning and intended code), `AsmMachine`,
`CompilerCorrectness`, `ProgramCorrectness`, `Divergence` (the code keeps the meaning), `LabelUniqueness`,
`ProgramLabels` (a program's labels), `CallCorrectness` (the code around a callee), `AssemblyText`, `Encoding`,
`Passes`, `Addresses`, `Assembler` (text to bytes), `Disassembler`, `EncodeDecode`, `DisassemblyText`, `BranchText`
(bytes to text), `ByteMachine`, `Toolchain`, `ByteDivergence` (running the bytes), `ElfImage`, `LoadedImage`,
`ImageAddresses`, `ProgramImage` (the file), `Lexer`, `Grammar`, `SourceText`, `ProgramSource` (reading written
programs), `ExprRecord`, `TextBuffer`, `EmittedText`, `Compiler` (the compiler's own loops and buffers), `Build`. Of
the file system: `SectorCache`, `BlockBitmap`, `DirectoryBlock`, `PathWalk`, `PathUpdates`.

## Where the code departs from its intent

Each of these is stated with the exact condition under which the code does what it is for.

* An expression's code is collected in 200 bytes and cut there: `EmittedText.CodeKeptIff`, `EmittedText.OnesKeptIff`
  (a sum of 17 ones is cut).
* Without string data the text is shifted over itself: `Build.SplicedIff`.
* `if` and `while` both number `end_N`, and a function may have the name of such a label:
  `LabelUniqueness.BlockLabelsUniqueIff`, `ProgramLabels.ProgramLabelsUniqueIff`.
* The compiler emits `_start`, the assembler looks for `start`: `ImageAddresses.EntryIff`.
* Some operand forms are sized differently from what is emitted: `Encoding.SizeExactIff`, `Passes.PassesAgreeIff`.
* A block number divisible by 8 is freed in the wrong byte: `BlockBitmap.FreeUndoesIff`.
* The predictor of the next block and the count of used blocks know nine byte values only. The predictor is right
  when the first byte that is not full has one of them, wrong on a full bitmap: `BlockBitmap.PredictionIff`. The
  count is right when every byte has one of them: `BlockBitmap.TotalUsedIff`. After three allocations and
  `freeBlock(2)` both are wrong: `BlockBitmap.HoleMisleads`.
* Deletion removes the first record with the name's inode, which may be another name, and clearing the block's first
  record loses all others: `DirectoryBlock.DeleteExactIff`, `DirectoryBlock.DeleteUndoesCreateIff`. Deleting `..` in
  the root empties it: `DirectoryBlock.RootLosesAll`, `PathUpdates.RootPathsLost`.
* `moveFile` and `createFile` do not look for the name in the target: `DirectoryBlock.MoveConservesIff`,
  `DirectoryBlock.MoveWithinIff`, `DirectoryBlock.CreateFindsIff`, `DirectoryBlock.InsertKeepsIff`. A directory moved
  below itself is reached no more: `PathUpdates.MovedPathIff`, `PathUpdates.PathBelow`.
* The cache's time stamp wraps: `SectorCache.StampOrderedIff`, `SectorCache.WrapEvictsNewest`. A write around the
  cache does not empty it: `SectorCache.UncachedWriteIff`.
* Writing to a pipe through an entry that opened it, and closing its first entry: `Pipes.MailboxStepIff`,
  `Pipes.MailboxRunIff`, `Pipes.WritingThroughOpenerLoses`.
* The object table's last entry is never used: `ObjectTable.PanicsIff`.
* The leap-year rule and the epoch: `UnixTime.RoundTripIff`, `UnixTime.RoundTripValue`.
* `hostToNetworkLong` swaps the low half wrongly: `Checksum.AddressOrderIff`.

## Model

| member | source | states |
|---|---|---|
| `Build.BuildMain` | ikanOSv5-1-Bootloader-Base/cc.cpp:1393-1432 | for every source text of a loop program with a string that fits the buffers, compiler, assembler and image writer leave exactly the image of the program, whose entry is `main`, whose loaded bytes end exactly when the source ends, and then hold the source's values |
| `Build.CompileMain` | ikanOSv5-1-Bootloader-Base/cc.cpp:1393-1432 | compiling such a source yields exactly the assembly text of its tree |
| `Build.MainWritten` | ikanOSv5-1-Bootloader-Base/cc.cpp:1393-1432 | every layout of a written loop program that fits the buffers, with any blanks and comments, is such a source; its plain C text is one, so there always is one |
| `Build.AssembleFile` | ikanOSv5-1-Bootloader-Base/al.cpp:1239-1266 | for every text the output is the image of both passes' sections, with the entry of label `start` or 0 and the flags word that tells whether a library function is called; nothing is written only if the first code byte is 0x7F |
| `Build.NeverMalformed` | ikanOSv5-1-Bootloader-Base/al.cpp:1066-1180 | a compiled program's code never starts with the byte that makes the image writer give up |
| `Build.SplicedIff` | ikanOSv5-1-Bootloader-Base/cc.cpp:1409-1431 | shifting the text and writing the headers leaves the intended file if and only if there is string data |
| `Toolchain.CompiledBytesRun` | ikanOSv5-1-Bootloader-Base/cc.cpp:461-978 | read back, assembled and run byte by byte from any machine state, a program whose source ends comes to `ret` with esp and ebp restored and every variable's slot holding the source value |
| `ByteDivergence.BytesEndIff` | ikanOSv5-1-Bootloader-Base/cc.cpp:913-978 | those bytes come to a `ret` if and only if the source program ends |
| `ByteDivergence.ByteRunMatched` | ikanOSv5-1-Bootloader-Base/al.cpp:626-1052 | whatever any number of byte steps reaches, the emitted instructions reach with the same registers and memory |
| `ByteMachine.RunSimulated` | ikanOSv5-1-Bootloader-Base/al.cpp:626-1052 | any number of instruction steps is matched by byte steps: same registers and memory, at the instruction's address |
| `ByteMachine.StepSimulated` | ikanOSv5-1-Bootloader-Base/al.cpp:681-1050 | one instruction is zero or one fetched, decoded and executed instruction |
| `Toolchain.MainAssembles` | ikanOSv5-1-Bootloader-Base/al.cpp:561-1052 | a compiled program's lines are all size-exact, its names resolve and it fits the sections |
| `Toolchain.MainRead` | ikanOSv5-1-Bootloader-Base/al.cpp:294-424 | the assembler reads a compiled program's text as the compiler's lines |
| `AssemblySource.ProgramRead` | ikanOSv5-1-Bootloader-Base/al.cpp:294-424 | the same for every list of string declarations and readable instructions |
| `EmittedCode.EmittedExact` | ikanOSv5-1-Bootloader-Base/cc.cpp:883-907 | every instruction line the compiler can emit is size-exact once its target resolves |
| `EmittedCode.BlockGood` | ikanOSv5-1-Bootloader-Base/cc.cpp:461-978 | a loop program's code has readable operands only, and defines every branch target |
| `ProgramCorrectness.MainRuns` | ikanOSv5-1-Bootloader-Base/cc.cpp:1242-1284 | the emitted instructions of `main`, with loops or with conditionals, run from any state to the final `ret` with the pointers restored and every slot holding the source value |
| `Divergence.EndsIff` | ikanOSv5-1-Bootloader-Base/cc.cpp:913-978 | they reach the final `ret` if and only if the source ends |
| `CompilerCorrectness.BlockRuns` | ikanOSv5-1-Bootloader-Base/cc.cpp:1178-1184 | a block's instructions, wherever they stand among unique labels, lead to their end with every variable's slot holding the value after the block |
| `CompilerCorrectness.StmtRuns` | ikanOSv5-1-Bootloader-Base/cc.cpp:1120-1167 | the same for one statement |
| `CompilerCorrectness.LoopRuns` | ikanOSv5-1-Bootloader-Base/cc.cpp:913-978 | a laid-out loop runs as often as its source loop, by induction over the iterations |
| `CompilerCorrectness.IfRuns` | ikanOSv5-1-Bootloader-Base/cc.cpp:830-908 | a laid-out conditional runs the block that the source picks |
| `CompilerCorrectness.ExprRuns` | ikanOSv5-1-Bootloader-Base/cc.cpp:365-456 | an expression's instructions leave its 32-bit value where the compiler says, and keep all slots |
| `CallCorrectness.ExternalCall` | ikanOSv5-1-Bootloader-Base/cc.cpp:983-1065 | from any state of a frame, the call is reached with the i-th stack word holding the i-th argument's value; if the callee returns with both pointers and the caller's memory kept, the code behind it restores esp, eax, ecx, edx and leaves every variable as it was |
| `CallCorrectness.CallReaches` | ikanOSv5-1-Bootloader-Base/cc.cpp:983-1065 | the same by steps of the instruction machine, wherever a call without string arguments stands |
| `CallCorrectness.ArgsPushed` | ikanOSv5-1-Bootloader-Base/cc.cpp:1022-1041 | the code of the arguments pushes their values, string variables as addresses, the first on top, and keeps all memory above |
| `CompilerCorrectness.StoreSlot` | ikanOSv5-1-Bootloader-Base/cc.cpp:571-596 | storing into a variable's slot changes that variable and no other |
| `CompilerCorrectness.OffsetStable` | ikanOSv5-1-Bootloader-Base/cc.cpp:149-162 | the offset first given to a name is its offset in every later table |
| `CompilerCorrectness.SlotsApart` | ikanOSv5-1-Bootloader-Base/cc.cpp:111-126 | slots of different symbols do not overlap, also across the 32-bit boundary |
| `ProgramCorrectness.PrologueRuns` | ikanOSv5-1-Bootloader-Base/cc.cpp:1255-1278 | the prologue sets up a frame in which every symbol has its slot |
| `ProgramCorrectness.EpilogueRuns` | ikanOSv5-1-Bootloader-Base/cc.cpp:1279-1283 | the epilogue restores ebp and esp and changes no memory |
| `LabelUniqueness.BlockLabelsUniqueIff` | ikanOSv5-1-Bootloader-Base/cc.cpp:872-882 | from equal counters, a block's labels are distinct if and only if it does not mix `if` and `while` |
| `ProgramLabels.ProgramLabelsUniqueIff` | ikanOSv5-1-Bootloader-Base/cc.cpp:872-882 | a program's labels are distinct if and only if it does not have both `if` and `while`, in any functions, its functions' labels differ, and none of them is a label the compiler numbers |
| `ProgramLabels.ProgramEmitted` | ikanOSv5-1-Bootloader-Base/cc.cpp:1289-1307 | the emitted text of a program is the text of the code those labels stand in |
| `ProgramLabels.CallFound` | ikanOSv5-1-Bootloader-Base/cc.cpp:994-1000 | with distinct labels a call of one of the program's functions goes to that function's code |
| `Compiler.Compiler.CompileSource` | ikanOSv5-1-Bootloader-Base/cc.cpp:1393-1432 | parsing the tokens of any program that fits leaves the spliced text and data in the buffer, followed by a terminator when there is data |
| `Compiler.Compiler.ParseProgram` | ikanOSv5-1-Bootloader-Base/cc.cpp:1289-1307 | the output grows by the text of every function in order |
| `Compiler.Compiler.CollectDefinedFunctions` | ikanOSv5-1-Bootloader-Base/cc.cpp:1312-1389 | the pre-pass collects the functions' names in order and puts the scanner back |
| `Compiler.Compiler.ParseFunction` | ikanOSv5-1-Bootloader-Base/cc.cpp:1188-1284 | the output grows by the label, the prologue placed before the body, the body, the epilogue and `ret` |
| `Compiler.Compiler.ParseStatementList` | ikanOSv5-1-Bootloader-Base/cc.cpp:1178-1184 | the output grows by the code of the block, and the scanner stands behind it |
| `Compiler.Compiler.ParseStatement` | ikanOSv5-1-Bootloader-Base/cc.cpp:1120-1167 | dispatch by token and by the next visible character reaches the right parser |
| `Compiler.Compiler.ParseWhile` | ikanOSv5-1-Bootloader-Base/cc.cpp:913-978 | head, body and tail of a loop with the next loop number |
| `Compiler.Compiler.ParseIf` | ikanOSv5-1-Bootloader-Base/cc.cpp:830-908 | head, both blocks and labels of a conditional with the next number |
| `Compiler.Compiler.ParseCall` | ikanOSv5-1-Bootloader-Base/cc.cpp:983-1065 | a plain call for a defined function; otherwise saved registers, arguments pushed last first, the call, the stack cleaned, registers restored |
| `Compiler.Compiler.ParseIntDeclaration` | ikanOSv5-1-Bootloader-Base/cc.cpp:461-598 | stores the initial value if there is one, then adds the symbol (a second time after an initial value) |
| `Compiler.Compiler.ParseStringDeclaration` | ikanOSv5-1-Bootloader-Base/cc.cpp:497-514 | adds the data symbol and its `db` line |
| `Compiler.Compiler.ParseAssignment` | ikanOSv5-1-Bootloader-Base/cc.cpp:603-698 | the expression's code, the load into eax and the store into the slot |
| `Compiler.Compiler.ParseExpressionInfo` | ikanOSv5-1-Bootloader-Base/cc.cpp:365-456 | the operand, and as much of the chain's code as the record keeps, for every length inside the record |
| `Compiler.Compiler.GetSymbolOffset` | ikanOSv5-1-Bootloader-Base/cc.cpp:149-162 | the offset of the first symbol of that name; an unknown name is added |
| `Compiler.Compiler.GetNextToken` | ikanOSv5-1-Bootloader-Base/cc.cpp:212-340 | moves to the next expected token and changes nothing else |
| `ExprRecord.FinishRecord` | ikanOSv5-1-Bootloader-Base/cc.cpp:39-45 | after the chain the record's code reads as the whole text, or as its first 200 characters, whatever the text's length |
| `ExprRecord.AppendToCode` | ikanOSv5-1-Bootloader-Base/cc.cpp:89-92 | appends at the terminator, also beyond the field's end |
| `EmittedText.CodeKeptIff` | ikanOSv5-1-Bootloader-Base/cc.cpp:430-456 | the code of an expression is kept whole if and only if it has at most 200 characters |
| `EmittedText.ChainLength` | ikanOSv5-1-Bootloader-Base/cc.cpp:430-452 | the length of a chain's code: eleven characters and the operand for every line |
| `EmittedText.OnesKeptIff` | ikanOSv5-1-Bootloader-Base/cc.cpp:430-456 | a sum of ones is kept whole if and only if it has at most 16 terms |
| `Lexer.LexLoop` | ikanOSv5-1-Bootloader-Base/cc.cpp:212-340 | the token and position after blanks and comments, for every text and position |
| `Lexer.PeekTells` | ikanOSv5-1-Bootloader-Base/cc.cpp:179-184 | the next visible character is `=` or `(` if and only if the next token is, when no comment stands before it |
| `SourceText.LayoutRead` | ikanOSv5-1-Bootloader-Base/cc.cpp:212-340 | any tokens written with any blanks and comments between them, words kept apart, are read as those tokens |
| `ProgramSource.ProgramRead` | ikanOSv5-1-Bootloader-Base/cc.cpp:212-340 | every layout of a program's tokens is read as the program, whatever its names, numbers and strings |
| `ProgramSource.ProgramTextRead` | ikanOSv5-1-Bootloader-Base/cc.cpp:212-340 | the C text of a program, keywords and punctuation spelled out, is read as the program's tokens |
| `StatementTokens.BodySkipped` | ikanOSv5-1-Bootloader-Base/cc.cpp:1335-1345 | counting braces from a function's `{` ends exactly behind its `}` |
| `TextBuffer.BackPatch` | ikanOSv5-1-Bootloader-Base/cc.cpp:1205-1234 | the buffer becomes prefix, prologue and unchanged body for every body length; no terminator lands on the body |
| `TextBuffer.ShiftRight` | ikanOSv5-1-Bootloader-Base/cc.cpp:1213-1217 | the overlapping shift moves every character and leaves the rest |
| `TextBuffer.StringCopy` | ikanOSv5-1-Bootloader-Base/libc-main.cpp:84-100 | the text and its terminator replace what stood there, and nothing else changes |
| `LibcMemory.CopyBytes` | ikanOSv5-1-Bootloader-Base/libc-main.cpp:120-131 | the bytes replace what stood there, and nothing else changes |
| `LibcText.Itoa` | ikanOSv5-1-Bootloader-Base/libc-main.cpp:190-229 | digits extracted and reversed are the canonical signed numeral |
| `LibcText.ItoaHex` | ikanOSv5-1-Bootloader-Base/libc-main.cpp:236-264 | the canonical upper-case hexadecimal numeral |
| `LibcText.ReverseInPlace` | ikanOSv5-1-Bootloader-Base/libc-main.cpp:137-157 | swapping from both ends reverses the buffer |
| `LibcText.ParseImmediateValue` | ikanOSv5-1-Bootloader-Base/al.cpp:135-179 | the digit loop computes the wrapped value of sign, prefix and digits |
| `LibcText.ItoaReadBack` | ikanOSv5-1-Bootloader-Base/al.cpp:135-179 | the assembler reads back what `itoa` wrote, for every word and whatever non-digit follows |
| `LibcText.HexReadBack` | ikanOSv5-1-Bootloader-Base/al.cpp:135-179 | the same for what `itoaHex` wrote, with either sign |
| `LibcText.ImmediateAnyCase` | ikanOSv5-1-Bootloader-Base/al.cpp:135-179 | immediates that differ in letter case only have the same value |
| `Assembler.Assembler.Assemble` | ikanOSv5-1-Bootloader-Base/al.cpp:561-1052 | the label table and the section bytes are the functions `Pass1` and `Pass2` of the text's lines, and the external flag is set exactly when a line calls a library function |
| `Assembler.Assembler.FirstPass` | ikanOSv5-1-Bootloader-Base/al.cpp:561-618 | the line loop computes labels and offsets line by line |
| `Assembler.Assembler.SecondPass` | ikanOSv5-1-Bootloader-Base/al.cpp:626-1052 | the line loop emits every line's bytes, and notes external calls |
| `Assembler.Assembler.FindLabelIndex` | ikanOSv5-1-Bootloader-Base/al.cpp:55-65 | the first label of that name, or -1 |
| `Assembler.Assembler.EmitByte` | ikanOSv5-1-Bootloader-Base/al.cpp:187-199 | appends to the current section while it has room |
| `Assembler.Assembler.EmitMemory` | ikanOSv5-1-Bootloader-Base/al.cpp:235-269 | the ModR/M byte and the displacement of a memory operand |
| `Assembler.Assembler.EmitMov` | ikanOSv5-1-Bootloader-Base/al.cpp:681-757 | the bytes of every `mov` form, label addresses included |
| `Assembler.Assembler.EmitAddSub` | ikanOSv5-1-Bootloader-Base/al.cpp:759-889 | the bytes of every `add` and `sub` form |
| `Assembler.Assembler.EmitCompare` | ikanOSv5-1-Bootloader-Base/al.cpp:891-941 | the bytes of every `cmp` form |
| `Assembler.Assembler.EmitCall` | ikanOSv5-1-Bootloader-Base/al.cpp:986-1015 | register, label and library calls |
| `Assembler.EmitTwice` | ikanOSv5-1-Bootloader-Base/al.cpp:187-212 | emitting piece by piece equals emitting the whole, also when the section fills up |
| `AssemblyText.ParseLineLoop` | ikanOSv5-1-Bootloader-Base/al.cpp:294-396 | label, instruction and arguments of a line, with the buffers' limits |
| `AssemblyText.GetNextLineLoop` | ikanOSv5-1-Bootloader-Base/al.cpp:406-424 | the next line, cut to its buffer, and the position behind it |
| `AssemblyText.LinesOfRendered` | ikanOSv5-1-Bootloader-Base/al.cpp:294-424 | a text made of lines is read as the fields of each of them, in order |
| `AssemblyText.LabelledLine` | ikanOSv5-1-Bootloader-Base/al.cpp:294-396 | a label in front of an instruction on the same line adds the label and changes nothing else |
| `AssemblyText.CommentRead` | ikanOSv5-1-Bootloader-Base/al.cpp:573-579 | a comment line of any length counts as a line without fields, and reading goes on behind it |
| `Encoding.SizeExactIff` | ikanOSv5-1-Bootloader-Base/al.cpp:435-553 | pass 1's size of a line is the number of bytes pass 2 emits if and only if the line has one of the listed forms |
| `Passes.PassesAgreeIff` | ikanOSv5-1-Bootloader-Base/al.cpp:561-1052 | with room in both sections, offsets and emitted bytes agree after every line if and only if every line is size-exact |
| `EncodeDecode.DecodeEncoded` | ikanOSv5-1-Bootloader-Base/syscalls.cpp:1768-2104 | the bytes of every form both sides know decode to the instruction the text denotes, and consume pass 1's size |
| `Addresses.LabelEntry` | ikanOSv5-1-Bootloader-Base/al.cpp:580-589 | a label's table entry is the section and offset of the first line that defines it |
| `Addresses.BranchLands` | ikanOSv5-1-Bootloader-Base/al.cpp:943-1002 | decoded where it stands, every jump and call leads to the address of its label's line, forward or backward |
| `BranchText.BranchLine` | ikanOSv5-1-Bootloader-Base/al.cpp:943-1002 | a line of `jmp`, `jne`, `jle`, `jge` or `call`, in any letter case, and a label becomes that opcode, and decodes to a branch to the label that is taken on exactly the comparisons its word names |
| `BranchText.EmittedBranch` | ikanOSv5-1-Bootloader-Base/cc.cpp:883-907 | the text of an emitted jump or call assembles to a branch with the meaning the compiler gives it |
| `Addresses.WholeBufferDecodes` | ikanOSv5-1-Bootloader-Base/syscalls.cpp:1768-2104 | the whole code section decodes to the program's instructions in order |
| `DisassemblyText.Disassemble` | ikanOSv5-1-Bootloader-Base/syscalls.cpp:1734-2124 | the row loop prints address, bytes and text of consecutive instructions |
| `DisassemblyText.TextReassembles` | ikanOSv5-1-Bootloader-Base/syscalls.cpp:1768-2104 | the printed text of every known form except branches assembles to the bytes it was printed from |
| `BranchText.BranchPrinted` | ikanOSv5-1-Bootloader-Base/syscalls.cpp:1768-2104 | for any bytes of a branch the printed word names the comparisons on which it is taken, and the printed number is where it leads |
| `BranchText.BranchRow` | ikanOSv5-1-Bootloader-Base/syscalls.cpp:1768-2104 | the row printed for a program's branch is its word and the code address of its label's line |
| `ElfImage.WriteElf` | ikanOSv5-1-Bootloader-Base/al.cpp:1066-1180 | the buffer holds exactly header page, padded code and padded data; it gives up if and only if the code starts with 0x7F |
| `LoadedImage.HeadersRead` | ikanOSv5-1-Bootloader-Base/al.cpp:1066-1180 | entry, flags and the three program headers read back from the image |
| `LoadedImage.ImageNumbers` | ikanOSv5-1-Bootloader-Base/al.cpp:1066-1180 | magic number, class, type, machine, entry, library flag and the three segments with their permissions, as numbers |
| `LoadedImage.SegmentsApart` | ikanOSv5-1-Bootloader-Base/al.cpp:1099-1179 | segments are disjoint in memory and file, and congruent modulo the page size |
| `LoadedImage.SectionsLoaded` | ikanOSv5-1-Bootloader-Base/al.cpp:1099-1179 | loading by the headers puts every code and data byte at its address |
| `ImageAddresses.LabelLoaded` | ikanOSv5-1-Bootloader-Base/al.cpp:705-722 | the value of `mov reg, label` is the address at which the label's byte is loaded, in either section |
| `ImageAddresses.StringLoaded` | ikanOSv5-1-Bootloader-Base/al.cpp:665-679 | at a string's label the loaded program holds its characters and terminator |
| `ImageAddresses.LibraryCallLands` | ikanOSv5-1-Bootloader-Base/al.cpp:1003-1014 | a library call, decoded where it stands, reaches the jump-table address |
| `ImageAddresses.EntryIff` | ikanOSv5-1-Bootloader-Base/al.cpp:1242-1243 | the entry is `_start` if and only if no code stands between `_start` and the label `start`, or the first byte if there is no `start` |
| `ProgramImage.ImageStartsMain` | ikanOSv5-1-Bootloader-Base/al.cpp:1242-1243 | a compiled `main` is the entry, and all of its code is loaded from there |
| `ProgramImage.StringsLoaded` | ikanOSv5-1-Bootloader-Base/cc.cpp:497-514 | every string variable's operand is the address of its text in the loaded program |
| `SectorCache.DiskCache.ReadSector` | ikanOSv5-1-Bootloader-Base/fs.cpp:18-95 | always the disk's bytes, also after the counter wraps; hits and misses grow by one; before that the held sectors change like a recency list |
| `SectorCache.DiskCache.WriteSector` | ikanOSv5-1-Bootloader-Base/fs.cpp:107-121 | the disk changes in that sector only, and the cache is empty |
| `SectorCache.DiskCache.ReadBlock` | ikanOSv5-1-Bootloader-Base/fs.cpp:123-134 | the block's bytes on the disk, with four more hits and misses |
| `SectorCache.DiskCache.WriteBlock` | ikanOSv5-1-Bootloader-Base/fs.cpp:136-147 | the disk with the block's four sectors written |
| `SectorCache.DiskCache.Perform` | ikanOSv5-1-Bootloader-Base/fs.cpp:18-121 | over any run every read returns the disk's bytes, and without a wrap the lines hold exactly the most recent distinct sectors read since the last write |
| `SectorCache.ReadRefines` | ikanOSv5-1-Bootloader-Base/fs.cpp:37-92 | stamping a hit or a victim is one step of a list kept in order of use |
| `SectorCache.StampOrderedIff` | ikanOSv5-1-Bootloader-Base/fs.cpp:37-92 | the stamps stay in order of use if and only if the counter does not wrap or no other line is in use |
| `SectorCache.HoldsMostRecent` | ikanOSv5-1-Bootloader-Base/fs.cpp:37-92 | after any run the list holds exactly the at most n most recent distinct sectors |
| `SectorCache.VictimIsOldest` | ikanOSv5-1-Bootloader-Base/fs.cpp:60-80 | a full cache evicts the least recently used sector |
| `SectorCache.WrapEvictsNewest` | ikanOSv5-1-Bootloader-Base/fs.cpp:60-80 | a state after a wrap in which the newest line is the victim |
| `SectorCache.BlockReadBack` | ikanOSv5-1-Bootloader-Base/fs.cpp:123-147 | a written block reads back, and blocks on other sectors are unchanged |
| `SectorCache.OtherBlockIff` | ikanOSv5-1-Bootloader-Base/fs.cpp:123-147 | writing a block leaves another alone on every disk if and only if their numbers differ modulo 2^30 |
| `SectorCache.BlockBytes` | ikanOSv5-1-Bootloader-Base/fs.cpp:123-134 | byte k of block b is byte k + 2048 b behind sector 0x200 |
| `SectorCache.UncachedWriteIff` | ikanOSv5-1-Bootloader-Base/fs.cpp:107-120 | a write around the cache keeps it transparent if and only if the sector is not held or does not change |
| `BlockBitmap.Allocate` | ikanOSv5-1-Bootloader-Base/fs.cpp:149-178 | sets the first clear bit and returns its number, or 0 if and only if all are set |
| `BlockBitmap.AllocationsDistinct` | ikanOSv5-1-Bootloader-Base/fs.cpp:149-178 | k allocations return k increasing numbers of clear bits, or as many as there are, and set exactly those bits |
| `BlockBitmap.AllocateOnBits` | ikanOSv5-1-Bootloader-Base/fs.cpp:323-352 | one allocation on bytes is one step of that run |
| `BlockBitmap.Free` | ikanOSv5-1-Bootloader-Base/fs.cpp:235-259 | subtracts the bit that the number's remainder names, in byte number / 8 |
| `BlockBitmap.FreeUndoesIff` | ikanOSv5-1-Bootloader-Base/fs.cpp:235-259 | freeing what was just allocated restores the bitmap if and only if the number is not a multiple of 8 |
| `BlockBitmap.NextAvailable` | ikanOSv5-1-Bootloader-Base/fs.cpp:180-207 | for every bitmap the loop returns one more than full bytes and the first other listed byte add up to |
| `BlockBitmap.TotalUsed` | ikanOSv5-1-Bootloader-Base/fs.cpp:209-233 | for every bitmap the loop returns the sum over the listed bytes |
| `BlockBitmap.TotalUsedIff` | ikanOSv5-1-Bootloader-Base/fs.cpp:209-233 | the total is the number of set bits if and only if every byte is a listed one, and otherwise less |
| `BlockBitmap.PredictionIff` | ikanOSv5-1-Bootloader-Base/fs.cpp:180-207 | for every bitmap the predicted number is the one allocated if and only if a byte is not full, and the first such byte is a listed one or the bytes behind it happen to add up to its lowest clear bit |
| `BlockBitmap.PrefixScanned` | ikanOSv5-1-Bootloader-Base/fs.cpp:180-233 | on a contiguous bitmap prediction and total are both the number of used blocks |
| `BlockBitmap.HoleMisleads` | ikanOSv5-1-Bootloader-Base/fs.cpp:180-259 | a bitmap after allocations and a `freeBlock` on which prediction and total are wrong |
| `DirectoryBlock.Directory.Lookup` | ikanOSv5-1-Bootloader-Base/fs.cpp:643-678 | the byte scan finds what the list of records says |
| `DirectoryBlock.Directory.Create` | ikanOSv5-1-Bootloader-Base/fs.cpp:431-500 | the last record is split if there is room for the name's low length byte, else nothing changes; the block's bytes in both cases, with inodes that may repeat as in the root |
| `DirectoryBlock.Directory.Insert` | ikanOSv5-1-Bootloader-Base/fs.cpp:768-808 | the same insertion as `moveFile` makes it |
| `DirectoryBlock.Directory.Delete` | ikanOSv5-1-Bootloader-Base/fs.cpp:383-429 | an unknown name changes nothing; otherwise the first record with the name's inode goes: the block's first is cleared, any other is merged into the one before it |
| `DirectoryBlock.LookupIsFind` | ikanOSv5-1-Bootloader-Base/fs.cpp:654-677 | scanning the bytes of any records that tile the block equals searching the list |
| `DirectoryBlock.RecordFields` | ikanOSv5-1-Bootloader-Base/fs.h:142-148 | a record on the disk: inode, length, name length, type and name at their offsets |
| `DirectoryBlock.CreateRefines` | ikanOSv5-1-Bootloader-Base/fs.cpp:447-499 | creating a new name adds exactly its key, and the records still tile the block, aligned, with distinct names |
| `DirectoryBlock.InsertKeepsIff` | ikanOSv5-1-Bootloader-Base/fs.cpp:447-499 | an insertion keeps the block well formed if and only if the inode is not 0 and the name is new |
| `DirectoryBlock.CreateFindsIff` | ikanOSv5-1-Bootloader-Base/fs.cpp:431-500 | a created file is found under its name if and only if the name fits the length byte and was not used for another inode |
| `DirectoryBlock.DeleteRefines` | ikanOSv5-1-Bootloader-Base/fs.cpp:399-428 | merging a record removes exactly its name, and the records still tile the block, aligned |
| `DirectoryBlock.DeleteExactIff` | ikanOSv5-1-Bootloader-Base/fs.cpp:388-407 | deletion removes the named entry and nothing else if and only if no earlier entry has its inode, and it is not the first of several |
| `DirectoryBlock.DeleteUndoesCreateIff` | ikanOSv5-1-Bootloader-Base/fs.cpp:383-500 | deleting what was just created restores the record chain if and only if neither the name nor the inode was in the directory before |
| `DirectoryBlock.RootLosesAll` | ikanOSv5-1-Bootloader-Base/fs.cpp:388-407 | in a root whose `.` and `..` share inode 2, deleting `..` leaves no name to be found |
| `DirectoryBlock.Move` | ikanOSv5-1-Bootloader-Base/fs.cpp:725-814 | when a file moves, and both blocks afterwards, for every position of the entry |
| `DirectoryBlock.MoveConservesIff` | ikanOSv5-1-Bootloader-Base/fs.cpp:725-814 | the name finds the same inode and type in the destination, nothing in the source, and all other names what they found before, if and only if the destination does not use the name for something else, no earlier entry of the source has the inode, and the entry is not the first of several |
| `DirectoryBlock.MoveConserves` | ikanOSv5-1-Bootloader-Base/fs.cpp:725-814 | into a directory where the name is new, both blocks stay well formed and no key is lost or duplicated |
| `DirectoryBlock.MoveWithin` | ikanOSv5-1-Bootloader-Base/fs.cpp:725-814 | source and destination the same: the block after inserting the entry again and deleting the first with its inode |
| `DirectoryBlock.MoveWithinIff` | ikanOSv5-1-Bootloader-Base/fs.cpp:725-814 | a move within one directory leaves what every name finds if and only if no earlier entry has the inode, and the entry is not the first |
| `PathWalk.GetInodeFromPath` | ikanOSv5-1-Bootloader-Base/fs.cpp:849-915 | the character loop computes the fold, over the components, of scans of the directories' blocks |
| `PathWalk.WalkIff` | ikanOSv5-1-Bootloader-Base/fs.cpp:849-915 | the result is 0 if and only if some component is missing, too long, or followed by another and no directory; else it is the plain descent |
| `PathWalk.ResolveIff` | ikanOSv5-1-Bootloader-Base/fs.cpp:849-915 | a path leads nowhere if and only if it is not absolute or a component stops the walk from inode 2; else it is the plain descent |
| `PathWalk.SplitJoin` | ikanOSv5-1-Bootloader-Base/fs.cpp:849-915 | the components of two paths joined by a slash are theirs in order |
| `PathWalk.SplitPieces` | ikanOSv5-1-Bootloader-Base/fs.cpp:861-880 | the components contain no slash, and joined by slashes they are the path |
| `PathWalk.ResolveWithin` | ikanOSv5-1-Bootloader-Base/fs.cpp:849-915 | a path below a directory leads where its rest leads from that directory, or nowhere if there is no such directory |
| `PathWalk.ResolveSlash` | ikanOSv5-1-Bootloader-Base/fs.cpp:869-880 | a slash after a directory's path changes nothing |
| `PathUpdates.CreatedPathIff` | ikanOSv5-1-Bootloader-Base/fs.cpp:431-500 | a file created in a path's directory is reached by its path if and only if the name fits the length byte and was not in use for another inode; all other paths that led somewhere still do |
| `PathUpdates.DeletedPaths` | ikanOSv5-1-Bootloader-Base/fs.cpp:383-429 | after an exact deletion every path through the entry leads nowhere, and every other path where it led before |
| `PathUpdates.RootPathsLost` | ikanOSv5-1-Bootloader-Base/fs.cpp:388-407 | after deleting `..` in the root only the root itself is reached |
| `PathUpdates.MovedPathIff` | ikanOSv5-1-Bootloader-Base/fs.cpp:725-814 | a moved file is reached by its new path if and only if the destination's path does not pass through the moved entry; paths through the old entry lead nowhere, and all others that led somewhere still do |
| `PathUpdates.PathBelow` | ikanOSv5-1-Bootloader-Base/fs.cpp:725-814 | every path at or below the moved entry passes through it |
| `ObjectTable.GlobalObjectTable.Insert` | ikanOSv5-1-Bootloader-Base/file.cpp:45-93 | fills the first free slot or panics; a live entry is never overwritten |
| `ObjectTable.PanicsIff` | ikanOSv5-1-Bootloader-Base/file.cpp:45-70 | inserting panics if and only if all entries but the last are in use |
| `ObjectTable.GlobalObjectTable.FileAvailable` | ikanOSv5-1-Bootloader-Base/file.cpp:137-158 | true if and only if no entry of the inode is locked |
| `ObjectTable.GlobalObjectTable.LockFile` | ikanOSv5-1-Bootloader-Base/file.cpp:160-202 | succeeds if and only if the file is available and the process has it open |
| `ObjectTable.GlobalObjectTable.CloseAllFiles` | ikanOSv5-1-Bootloader-Base/file.cpp:116-135 | frees exactly the entries of the process |
| `ObjectTable.CloseFrees` | ikanOSv5-1-Bootloader-Base/file.cpp:116-135 | no entry of the process is left, no other has changed, and a file is available again if and only if no other process has it locked |
| `ObjectTable.RunKeepsOneWriter` | ikanOSv5-1-Bootloader-Base/syscalls.cpp:135-146 | over every run of opening, locking, creating pipes and closing, at most one entry of an inode is locked |
| `Pipes.MailboxRun` | ikanOSv5-1-Bootloader-Base/syscalls.cpp:182-213 | over every proper run of creating, opening, writing, reading and closing, the messages read are a prefix of those written, with at most one in flight |
| `Pipes.MailboxStepIff` | ikanOSv5-1-Bootloader-Base/syscalls.cpp:2794-2836 | a step keeps the pipe a one-slot mailbox if and only if writes go through its first entry, new entries come after it, and its process does not close its files |
| `Pipes.MailboxRunIff` | ikanOSv5-1-Bootloader-Base/syscalls.cpp:2736-2768 | the pipe is a mailbox throughout a run if and only if every step is proper |
| `Pipes.CreatedMailbox` | ikanOSv5-1-Bootloader-Base/syscalls.cpp:2657-2668 | a new pipe is an empty mailbox at its creator's entry |
| `Pipes.ReadDelivers` | ikanOSv5-1-Bootloader-Base/syscalls.cpp:2794-2836 | a read through any entry of a mailbox, the first included, leaves nothing in flight |
| `Pipes.WriteAccepted` | ikanOSv5-1-Bootloader-Base/syscalls.cpp:182-213 | with nothing in flight the next message through the first entry is taken |
| `Pipes.RunDelivers` | ikanOSv5-1-Bootloader-Base/syscalls.cpp:2794-2836 | after every proper run one read delivers all that was sent |
| `Pipes.ExchangeDelivers` | ikanOSv5-1-Bootloader-Base/syscalls.cpp:2794-2836 | any messages written and read in turn all arrive in order |
| `Pipes.OpenedByName` | ikanOSv5-1-Bootloader-Base/syscalls.cpp:2736-2768 | a process that opens a new pipe by its name reads all that its creator writes |
| `Pipes.WritingThroughOpenerLoses` | ikanOSv5-1-Bootloader-Base/syscalls.cpp:182-213 | two writes through two entries: the first message is never read |
| `Pipes.KernelPipes.WritePipe` | ikanOSv5-1-Bootloader-Base/syscalls.cpp:182-213 | a full entry is left alone, any other stores the message and is marked full |
| `Pipes.KernelPipes.ReadPipe` | ikanOSv5-1-Bootloader-Base/syscalls.cpp:2794-2836 | empties the first entry of the buffer and yields its message, or fails when it is empty |
| `Checksum.ComputeCheckSum` | ikanOSv5-1-Bootloader-Base/net.cpp:51-63 | the two loops compute the complemented folded sum, odd lengths included |
| `Checksum.FoldIsModulo` | ikanOSv5-1-Bootloader-Base/net.cpp:51-63 | folding ends and is the sum modulo 65535, with 65535 for other multiples |
| `Checksum.NoOverflow` | ikanOSv5-1-Bootloader-Base/net.cpp:51-63 | at packet lengths the 32-bit sum does not wrap |
| `Checksum.ChecksumVerifies` | ikanOSv5-1-Bootloader-Base/net.cpp:471-500 | stored in its zeroed even field, the checksum makes the whole sum to 0, also after 0 is replaced by 0xFFFF |
| `Checksum.PacketVerifies` | ikanOSv5-1-Bootloader-Base/net.cpp:471-500 | the IP header and the pseudo-header with the datagram verify as sent |
| `Checksum.FrameFields` | ikanOSv5-1-Bootloader-Base/net.cpp:453-500 | every field of the frame read back at its offset in network order, and the pseudo header from the fields as sent |
| `Checksum.FillPacket` | ikanOSv5-1-Bootloader-Base/net.cpp:433-500 | the bytes sent are exactly Ethernet header, IP header and datagram with both checksums, and zeros up to 60 |
| `Checksum.AddressOrderIff` | ikanOSv5-1-Bootloader-Base/net.cpp:36-37 | an address is sent in network order if and only if its two low bytes are equal |
| `UnixTime.ConvertFromUnixTime` | ikanOSv5-1-Bootloader-Base/libc-main.cpp:1354-1382 | the loop over a cycle's years finds the year and the day in it |
| `UnixTime.CycleAgrees` | ikanOSv5-1-Bootloader-Base/libc-main.cpp:1329-1382 | the four-year cycle agrees with the Gregorian day count until 2100 has been taken for a leap year |
| `UnixTime.RoundTripIff` | ikanOSv5-1-Bootloader-Base/libc-main.cpp:1329-1382 | converting there and back gives the time if and only if it lies from 2000 to the end of 2100 |
| `UnixTime.RoundTripValue` | ikanOSv5-1-Bootloader-Base/libc-main.cpp:1329-1382 | outside that range the result is one day less |

## Left out

- Compiler statements: `*name = ...`, `return`, `syscall(...)` as statement or value, and the declaration forms `char x;` and `int *p;` are not modelled.
- Compiler errors: texts that are not in the grammar are not modelled; a comment between an identifier that starts a statement and its `=` or `(` is excluded, because the look-ahead does not skip comments.
- Compiler.Compiler.GetNextToken: requires every token to fit its 50 bytes; what a longer token overwrites is not modelled.
- Compiler.Compiler.ParseExpressionInfo: requires a first operand that fits its buffers and code that stays inside the record; what longer code overwrites behind the record is not modelled.
- CompilerCorrectness.BlockRuns: gives no meaning to calls, because a callee's effect on the program is not known; the code around a callee is `CallCorrectness`. It is about the instructions as the compiler means them; that the expression record keeps their text is the separate condition `EmittedText.BlockHeld`, which the parser and the theorems about bytes require.
- ProgramCorrectness.MainRuns: the same, and it excludes programs that mix `if` and `while`, whose labels clash.
- Toolchain.CompiledBytesRun: is about loop programs, because the assembler knows neither `je` nor `cmp` of a register with memory.
- Machine: calls, interrupts and `pusha`/`popa` stop the modelled machine; code and data memory are separate, so a program that overwrites its own code is not modelled.
- EncodeDecode.DecodeEncoded: is about the forms that assembler and disassembler both know; opcodes 03, 2B, C6 and C7 are unknown to the disassembler.
- DisassemblyText.TextReassembles: leaves out branches, whose printed target is an address.
- Library addresses are a given map; the jump table's own layout in memory is not modelled.
- Raw sector transfer and `loadFileFromInodeStruct` have no code in the repository; the disk is a map from sectors to bytes, and a directory is its one block.
- Directories longer than one block, records with inode 0 inside a well-formed directory, files of more than 12 blocks, and the inode table's own bytes are not modelled.
- DirectoryBlock.Move: is about directories that exist; `moveFile` with a destination path that leads nowhere loads inode 0, whose bytes lie outside the inode table.
- PathUpdates.CreatedPathIff: requires that the allocated inode is not a directory's, as a free inode is.
- PathUpdates.DeletedPaths: is about `deleteDirectoryEntry`; that `deleteFile` also clears the inode is not modelled.
- Pipes: a message is a value, so pages and copying are not modelled.
- Each system call is one step; interrupts, the scheduler, paging, semaphores, ports and the screen are not modelled.
- Checksum.FillPacket: requires a frame that the length check accepts; the network card is not modelled.
- Shell, editor, games, log viewers and system-call wrappers would add only easy members.

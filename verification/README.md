# Ejscript compiler: module files and lexer

A Dafny model of two parts of the Ejscript compiler and of the programs that
read what it writes.

**Module files.** The compiler turns classes, functions, blocks and properties
into a tagged byte stream with variable-length numbers, an interned constant
pool, sizes that are patched in afterwards and a checksum. The loader reads it
with a flat loop and a scope stack, the lister sweeps the byte code in it. The
result that ties this together is `ModuleWriter.CreateModuleFile`: the writer,
working on a growing buffer and a locked constant pool, either marks the write
as failed, in exactly stated circumstances, or produces a file that loads as the
section tree of the objects it was given. `ModuleMeaning` says
what that tree tells of the objects without knowing how it was made, `ClassOrder`
and `EmissionOrder` say in which order, and `PoolCoverage` says when its strings
are in the pool.

**The lexer.** A character stream with one character of push-back, a growing
token buffer, hand-written scanners, and a linked list of tokens put back.
`Lexer.ScanToken` shows that these compute a function of the source and the
position; about that function it is then proved that operators are the longest
of a table, that gaps and tokens partition the source, that printing and lexing
are inverse, and that putting tokens back behaves as a list.

A third, small part is the clean-up of documentation text.

## Layout

| files | of the repository |
|---|---|
| `Bytes`, `NumberCodec` | numbers in module files and byte code (`src/vm/ejsModule.c`) |
| `ConstantPool`, `GlobalRef` | constants and references to types (`src/vm/ejsModule.c`, `src/compiler/ecModuleWrite.c`) |
| `ModuleFormat` | the section tree and its bytes, as a specification |
| `ModuleLoader`, `SectionLoop`, `ModuleFile` | the loader (`src/vm/ejsLoader.c`) and the round trip |
| `AttributeBits`, `ObjectTree`, `Emission`, `CodeBuffer`, `Checksum`, `PoolPresence`, `SectionWriter`, `ModuleWriter` | the writer (`src/compiler/ecModuleWrite.c`), as classes and methods |
| `SectionMeaning`, `ModuleMeaning`, `ClassOrder`, `FormatVectors`, `LoadSoundness` | what a module file says, byte by byte and section by section, and what a load says of the file |
| `TypeOrder`, `EmissionOrder`, `OnPathSearch`, `ConstantPrepass`, `SlotListing` | searches of the object graph with VISITED flags |
| `PoolCoverage` | which strings of the sections those searches see to |
| `OpTable`, `ByteCode`, `StackDepth` | the instruction table and the lister's sweep (`src/cmd/listing.c`) |
| `Lexical`, `LexSpec` | tokens, and the lexer as a function, as a specification |
| `CharStream`, `TokenBuffer`, `NumberScanner`, `TextScanner`, `OperatorScanner`, `Lexer`, `TokenStream` | the lexer (`src/compiler/ecLex.c`), as classes and methods |
| `Gaps`, `OperatorTable`, `Tokenization`, `Spelling`, `Escapes`, `LexExactness` | what is proved about it |
| `DocText` | `prepText` and `joinLines` (`src/cmd/doc.c`) |

`hide` statements in proofs only keep definitions out of the solver's sight.

## Where code and expectation part

The model follows the code. These are the places where it does something other
than its comments or names suggest; each is stated as an exact condition.

- Numbers are encoded from an int64, but both decoders shift each group as a
  32-bit value. They invert the encoder exactly below 2^32 (from memory) and
  below 2^31 (from a file); `NumberCodec.RoundTrip`, `NumberCodec.FirstNumberLost`.
  Every C int survives all the same (`NumberCodec.ReadIntInverts`).
- The writer does not know the limit of the loader: a pool of more than 4 MB is
  written without complaint and cannot be loaded (`ModuleFile.FileRoundTrip`,
  `ModuleFile.LargePoolLost`). The limits on arguments and handlers at
  `src/vm/ejsLoader.c:631-632` are assertions, which stop nothing.
- A module that lacks its end tag, the file being cut off there, is loaded
  without complaint (`ModuleFile.UnendedModuleLoads`).
- The pass over classes, functions and blocks does not collect every string
  their sections emit: interfaces, setters, catch types and the constructor of a
  class are left to code generation elsewhere (`PoolCoverage.SearchedIff`,
  `PoolCoverage.ClassSearchedIff`).
- A checksum that is too large for its four bytes sets the error flag, but the
  writer returns 0 (`ModuleWriter.CreateModuleSection`, `ModuleWriter.ChecksumLost`).
- A string refused by a locked pool leaves a negative index in the hash table
  (`ConstantPool.EjsConstants.AddModuleConstant`).
- The flags set while types are emitted are cleared only on the properties that
  are listed (`TypeOrder.FlagsClear`, `TypeOrder.FlagLeft`).
- An accessor with a setter but no getter is written as two functions, the first
  with neither bit (`ObjectTree.FunctionBits`).
- Putting back a newline zeroes the column instead of restoring it
  (`CharStream.EcStream.PeekChar`).
- The text of `>=` is that of `<=`; `==` and `<<` get the character behind them
  in place of their second one (`OperatorTable.OpTextIsSource`).
- An unterminated comment ends as the end of input, an unterminated string as a
  string (`TextScanner.GetComment`, `TextScanner.MakeQuotedToken`); a backslash
  before a line end inside a word ends the word.
- A backslash escape can stand inside a word but not begin one: there it is an
  error of one character (`LexExactness.TokenKinds`, `Escapes.WordLexes`).
- Behind `\0` the digits 8 and 9 are read with the others, and end the octal
  number (`Escapes.OctalRun`).
- `joinLines` scans ahead to no effect (`DocText.JoinLines`).
- The layout comment at `src/ejs.h:4843-4936` is partly out of date; field order
  is that of the writer and the loader.

## Model

| member | source | states |
|---|---|---|
| NumberCodec.EjsEncodeNum | src/vm/ejsModule.c:588-614 | writes the code of an int64 at a place of a buffer and touches no other byte |
| NumberCodec.EncodedLength | src/compiler/ecModuleWrite.c:959-971 | the code of an int64 never exceeds the ten bytes reserved for it; it is ten bytes exactly from 2^62 in magnitude on |
| NumberCodec.WordLength | src/ejs.h:4958-4961 | a number fits the four bytes of a word exactly if its magnitude is at most `EJS_ENCODE_MAX_WORD` |
| NumberCodec.EjsDecodeNum | src/vm/ejsModule.c:538-562 | the decoding loop, shift by shift in 32 bits, computes `DecodeNum` |
| NumberCodec.RoundTrip | src/vm/ejsModule.c:538-614 | decoding inverts encoding exactly for magnitudes below 2^32 (memory) or 2^31 (file); beyond, high bits are lost or the shift is undefined |
| NumberCodec.DecodeTruncated | src/vm/ejsModule.c:788-815 | from the bound on, what a decoder returns has at most 32 bits of magnitude, or has no defined value |
| NumberCodec.FirstNumberLost | src/vm/ejsModule.c:538-562 | the first numbers that do not come back: 2^32 from memory, 2^31 from a file |
| NumberCodec.PrefixFree | src/vm/ejsModule.c:588-614 | two numbers whose codes stand at the same place are equal: no code is a prefix of another |
| NumberCodec.ReadIntInverts | src/vm/ejsModule.c:778-815 | every C int survives either decoder after the cast to int, the least int included |
| NumberCodec.ReadWordInverts | src/vm/ejsModule.c:526-535 | a four-byte word is read back, and exactly four bytes are stepped over |
| FormatVectors.NumberBytes | src/vm/ejsModule.c:588-614 | a number byte by byte: sign in bit 0, six bits of the magnitude above it, seven in each later byte, lowest first, bit 7 on all but the last |
| FormatVectors.WordBytes | src/vm/ejsModule.c:644-659 | a four-byte word is the number with zeroes behind it |
| FormatVectors.DecodeRun | src/vm/ejsModule.c:538-562 | reading any bytes, canonical or not: up to five bytes that spell a magnitude within the width of the decoder are that number |
| FormatVectors.DecodeEndless | src/vm/ejsModule.c:538-562 | five bytes with the continuation bit have no result, and fewer at the end of the bytes are too few |
| ConstantPool.EjsConstants.GrowConstants | src/vm/ejsModule.c:240-264 | there is room for the string and one more index slot, and the pool reads as before |
| ConstantPool.EjsConstants.AddConstant | src/vm/ejsModule.c:267-293 | appends the string as the next constant; a locked pool refuses it and is unchanged |
| ConstantPool.EjsConstants.AddModuleConstant | src/compiler/ecModuleWrite.c:765-785 | a string that is present keeps its index and changes nothing; a new one is interned, or refused after the lock with the refusal remembered in the table; table and pool always agree |
| ConstantPool.AgreementIsInterning | src/compiler/ecModuleWrite.c:765-785 | agreement of table and pool: no string twice, a string has an index exactly if it is in the pool, and that index is where it stands |
| ConstantPool.AgreementAdd | src/compiler/ecModuleWrite.c:778-784 | a new string keeps the agreement, both at the end of an open pool and when a locked pool refuses it |
| ConstantPool.InternAllKeeps | src/compiler/ecModuleWrite.c:765-785 | over any run of additions strings stay distinct, indices never change, everything added is present and nothing else appears |
| ConstantPool.InternAllPresent | src/compiler/ecModuleWrite.c:73-79 | a run of additions leaves the pool unchanged exactly if all its strings were present |
| ConstantPool.IndexStable | src/compiler/ecModuleWrite.c:765-785 | a longer pool gives an old string its old index |
| ConstantPool.EjsConstants.GetString | src/vm/ejsModule.c:296-318 | the string of an index is the one added under it, before and after it is interned in its slot |
| ConstantPool.WalkPool | src/cmd/listing.c:287-302 | the walk from NUL to NUL visits the offsets of `Walk` |
| ConstantPool.WalkCounts | src/vm/ejsModule.c:194-237 | the walk visits one offset a string, and the string at each |
| ConstantPool.PoolStringsInverts | src/cmd/listing.c:287-302 | walking a written pool yields its strings, constant i as the i-th, and no others |
| GlobalRef.ReadRefInverts | src/cmd/listing.c:1062-1117 | a reference to nothing, a slot or a name is read back and its bytes are consumed exactly |
| GlobalRef.GlobalRoundTrip | src/compiler/ecModuleWrite.c:812-839 | an encoded name decodes to a slot exactly if it is a core global, and always stands for the same name |
| GlobalRef.EncodeRefInjective | src/ejs.h:4942-4945 | no two references share a code: the two-bit kind never confuses them |
| GlobalRef.SlotRefIff | src/compiler/ecModuleWrite.c:819-831 | exactly the core globals are referred to by slot, and only such slots are written |
| GlobalRef.ResolveRef | src/compiler/ecModuleWrite.c:812-839 | however a type is referred to, its name comes back |
| FormatVectors.RefVectors | src/compiler/ecModuleWrite.c:812-839 | references of the three kinds as bytes |
| LoadSoundness.ReadRefIff | src/vm/ejsLoader.c:1426-1511 | a reference that is read is what the two low bits of the number and the pool say; kind 3 is refused |
| ModuleLoader.ReadHandlersInverts | src/vm/ejsLoader.c:765-806 | the exception records of a function are read back, as many as the function says |
| ModuleLoader.ReadMultiInverts | src/vm/ejsModule.c:746-763 | a source line is read back by its length |
| ModuleLoader.LoadDebugInverts | src/vm/ejsModule.c:398-453 | the debug records are read back from their own bytes |
| ModuleLoader.ReadDebugInverts | src/vm/ejsLoader.c:743-762 | skipping the patched size lands exactly behind the debug records |
| ModuleLoader.ReadDependencyInverts | src/vm/ejsLoader.c:358-405 | a dependency record is read back |
| ModuleLoader.ReadClassInverts | src/vm/ejsLoader.c:461-571 | a class header with its base type and interfaces is read back |
| ModuleLoader.ReadFunctionInverts | src/vm/ejsLoader.c:601-724 | every function header and its byte code are read back, whatever the number of arguments and handlers: the assertions on them stop nothing |
| ModuleLoader.ReadBlockHeaderInverts | src/vm/ejsLoader.c:408-446 | a block header is read back |
| ModuleLoader.ReadPropertyInverts | src/vm/ejsLoader.c:809-890 | a property record is read back, with its value exactly if the attribute says so |
| SectionLoop.PushFillPop | src/vm/ejsLoader.c:1610-1635 | a scope that is pushed, filled and popped leaves one section in the scope below, and the scopes below as they were |
| SectionLoop.OpenAtEnd | src/vm/ejsLoader.c:1610-1635 | a scope still open at the end of the module holds what was read into it |
| SectionLoop.LoadSections | src/vm/ejsLoader.c:161-275 | the tag loop with its scope stack computes `Run` |
| SectionLoop.CodeTailInverts | src/vm/ejsLoader.c:743-806 | the exception and debug sections behind a function header complete the code of that function |
| SectionLoop.SectionInverts | src/vm/ejsLoader.c:161-275 | the loop over the bytes of any section appends exactly that section to the open scope and goes on behind it |
| SectionLoop.SectionsInvert | src/compiler/ecModuleWrite.c:217-607 | the same for any list of section trees: begin and end tags are always well bracketed |
| ModuleFile.ReadPreambleInverts | src/vm/ejsLoader.c:281-341 | name, version, checksum word and pool of a module are read back exactly if the pool is within its limit |
| ModuleFile.FileRoundTrip | src/vm/ejsLoader.c:958-1014 | loading the bytes of any modules returns them, record for record, exactly if no pool exceeds the limit of the loader, and fails otherwise |
| ModuleFile.LargePoolLost | src/vm/ejsLoader.c:303-307 | a module that can be written and not be loaded: its pool is one byte too large |
| ModuleFile.UnendedModuleLoads | src/vm/ejsLoader.c:170-275 | a file cut off before the last end tag still loads as the module it held |
| ModuleFile.FileBytesInjective | src/compiler/ecModuleWrite.c:33-94 | different lists of modules have different files |
| LoadSoundness.LoadsIff | src/vm/ejsLoader.c:984-1005 | any bytes load exactly if they begin with twelve bytes of header with magic 0xC7DA and version 3 and the modules behind it load |
| LoadSoundness.ReadMultiIff | src/vm/ejsModule.c:735-763 | a text that is read is as many bytes as its length says, up to the first NUL among them |
| LoadSoundness.BadTag | src/vm/ejsLoader.c:170-255 | a byte that is no section tag fails the load |
| LoadSoundness.LoadedFrom | src/vm/ejsLoader.c:161-900 | whoever wrote the file, in a module it loads every name comes from the pool of the module, properties have values exactly as their attributes say, and handlers are as many as the function says |
| FormatVectors.DependencyVector | src/compiler/ecModuleWrite.c:97-139 | a dependency section as bytes |
| FormatVectors.DocVector | src/compiler/ecModuleWrite.c:610-631 | a documentation section as bytes |
| FormatVectors.PropertyVector | src/compiler/ecModuleWrite.c:563-607 | a property section as bytes |
| FormatVectors.BlockVector | src/compiler/ecModuleWrite.c:540-560 | a block section as bytes |
| FormatVectors.ClassVector | src/compiler/ecModuleWrite.c:261-370 | a class section as bytes |
| FormatVectors.FunctionVector | src/compiler/ecModuleWrite.c:377-537 | a function section with exception and debug records as bytes |
| FormatVectors.FileVector | src/compiler/ecModuleWrite.c:33-94 | a file of one module as bytes |
| ByteCode.ReadOperandInverts | src/cmd/listing.c:478-616 | each kind of operand is read back, jump tables and attribute lists included |
| ByteCode.DecodeOperands | src/cmd/listing.c:478-632 | the operand switch reads the operands the table asks for, and leaves their declared stack effect |
| ByteCode.Interp | src/cmd/listing.c:635-731 | the sweep over a function lists the lines of `Sweep`, never reading past the code |
| ByteCode.SweepInverts | src/cmd/listing.c:635-731 | sweeping emitted code lists exactly its instructions at their addresses and depths, wherever it stands, and goes on behind it |
| ByteCode.CodeRoundTrip | src/compiler/ecModuleWrite.c:867-1038 | emitted code is listed whole, to the last byte, without an error |
| ByteCode.OptableRoundTrip | src/ejsByteCodeTable.h:49-259 | the round trip holds for the 208 instructions of `ejsOptable` |
| ByteCode.CodeConcat | src/compiler/ecModuleWrite.c:867-872 | code for xs then ys is the code of xs followed by that of ys |
| ByteCode.LinesConcat | src/cmd/listing.c:635-731 | code for xs then ys is listed as xs, then ys shifted by the length and depth of xs |
| ByteCode.LineAt | src/cmd/listing.c:660-715 | line k stands at the length of the code before it, with the depth that code leaves |
| ByteCode.DepthColumn | src/cmd/listing.c:670-715 | in the listing of any bytes the depth shown before an instruction is the sum of the declared effects since the last return |
| ByteCode.SweepDepths | src/cmd/listing.c:635-731 | the sweep of any bytes, from anywhere at any depth, lists instructions of the table, each at the depth those before it leave |
| ByteCode.DepthShift | src/cmd/listing.c:670-715 | the depth a list of instructions leaves depends on the depth it began with exactly if it holds no return |
| StackDepth.LinesFollow | src/cmd/listing.c:665-731 | the listing of any bytes: instruction behind instruction, each the opcode and operands that stand at its address, until the end, an unknown opcode or operands cut off, as its status says |
| StackDepth.NextDepth | src/cmd/listing.c:617-623 | from line to line, on any bytes: the table value less n, 2n or 3n for a count n by its kind; less the byte of POP_ITEMS; the table value for all others; 0 behind a return |
| StackDepth.TableDepth | src/cmd/listing.c:617-715 | the same without a case left over, for tables whose last operand alone counts |
| StackDepth.OptableCounts | src/ejsByteCodeTable.h:49-259 | `ejsOptable` is such a table |
| StackDepth.StringOperand | src/cmd/listing.c:1046-1056 | a string operand is the string of its index, or noted as missing |
| StackDepth.GlobalOperand | src/cmd/listing.c:1062-1117 | a reference operand by its number, every malformed one included |
| ByteCode.JumpFitsIff | src/compiler/ecModuleWrite.c:1000-1023 | a jump offset can be emitted exactly if it fits four bytes |
| TypeOrder.Emitter.CreateGlobalType | src/compiler/ecModuleWrite.c:187-214 | the recursive search with its flags computes `Visit`, on any graph |
| TypeOrder.VisitAdds | src/compiler/ecModuleWrite.c:187-214 | the search below a type flags and emits types it needs, each once, each behind what it needs unless inheritance is circular |
| TypeOrder.Emitter.CreateGlobalProperties | src/compiler/ecModuleWrite.c:145-181 | emits the listed properties in the order of `Order`: the wanted types and no others, each once, parents first, all else as listed; fails exactly on a name that is not found; leaves exactly the flags of emitted types that are not listed |
| TypeOrder.World.EdgeIff | src/compiler/ecModuleWrite.c:189-211 | the graph of the search leads from a type of the module to its base type and its interfaces, where they belong to the module |
| EmissionOrder.VisitRegion | src/compiler/ecModuleWrite.c:187-214 | a search emits exactly what lies below the type past the flags that were set |
| EmissionOrder.PartsInOrder | src/compiler/ecModuleWrite.c:201-211 | inside a search the part of the base type comes first, then those of the interfaces as they are listed, and the type last; each part is what lies below that type and was not flagged |
| EmissionOrder.TurnByTurn | src/compiler/ecModuleWrite.c:159-174 | what was emitted when the first i properties were handled is complete for them and is the beginning of all that is emitted |
| EmissionOrder.OneTurn | src/compiler/ecModuleWrite.c:159-174 | at its turn a property that is no type is emitted alone; a type is emitted behind exactly what it needs and was not emitted yet; a type of another module or one emitted before adds nothing |
| TypeOrder.AcyclicOrder | src/compiler/ecModuleWrite.c:202-213 | without circular inheritance every type follows its base type and interfaces |
| TypeOrder.FlagsClear | src/compiler/ecModuleWrite.c:176-180 | the flags end cleared exactly if every type that is reached is listed |
| TypeOrder.FlagLeft | src/compiler/ecModuleWrite.c:176-180 | a flag that stays: the base type of the only listed type |
| TypeOrder.EmittedExist | src/compiler/ecModuleWrite.c:166-174 | only slots that exist are emitted |
| OnPathSearch.ReachesUnfold | src/compiler/ecModuleWrite.c:702-735 | what is reached from v without meeting a mark is v, and what its successors reach with v marked too |
| ConstantPrepass.Prepass.AddConstants | src/compiler/ecModuleWrite.c:702-735 | terminates on any graph, leaves the flags as found, and adds to the pool exactly the strings of the objects reached |
| ConstantPrepass.Prepass.AddFunctionConstants | src/compiler/ecModuleWrite.c:684-699 | the same for a function: its result type, its documentation, and what it and its activation reach |
| ConstantPrepass.Heap.FoundUnfold | src/compiler/ecModuleWrite.c:715-733 | the strings of an object are its own and those below it with the object marked |
| ConstantPrepass.Heap.EdgeIff | src/compiler/ecModuleWrite.c:715-733 | what is searched from an object: the functions it holds and their activations, and blocks, but not the object itself |
| ConstantPrepass.Heap.StringsIff | src/compiler/ecModuleWrite.c:715-728 | the strings an object adds: names of its properties, of their types, and result type and documentation of functions it holds |
| ConstantPrepass.Prepass.AddClassConstants | src/compiler/ecCodeGen.c:1348-1367 | adds the names and documentation of a class and exactly the strings of what its type and its prototype reach |
| PoolCoverage.PropsCovered | src/compiler/ecModuleWrite.c:217-255 | every string the sections of an object emit was found by the search from it, or is one of those the search leaves out |
| PoolCoverage.UncoveredEmitted | src/compiler/ecModuleWrite.c:217-255 | what the search leaves out (catch types, setters, documentation of variables, namespace URIs) is emitted indeed |
| PoolCoverage.PropsSized | src/compiler/ecModuleWrite.c:516-537 | of what is made from objects nothing but a debug record can be too long |
| PoolCoverage.SearchedIff | src/compiler/ecModuleWrite.c:702-735 | once an object was searched its properties can be written exactly if the left-out strings were added too and no debug record is too long |
| PoolCoverage.ClassSearchedIff | src/compiler/ecCodeGen.c:1348-1367 | the same for a class: what code generation must still see to are the names of its interfaces, its constructor and the left-out strings |
| SlotListing.Lister.ListSlots | src/cmd/listing.c:765-922 | terminates on any objects, leaves the flags as found, and lists exactly the objects reached over those edges |
| SlotListing.Store.EdgeIff | src/cmd/listing.c:901-921 | an object is searched from another exactly if it is a type, a function or a block and some slot holds it, for the global object a slot from the first global of the module up to its last |
| SlotListing.RegionUnfold | src/cmd/listing.c:765-922 | what is listed from an object is the object and what is listed below it with the object marked |
| CodeBuffer.Buffer.EncodeNum | src/compiler/ecModuleWrite.c:959-971 | the number is added to the code, the buffer grown if need be, and the code before it stays |
| CodeBuffer.Buffer.EncodeInt32AtPos | src/compiler/ecModuleWrite.c:1015-1023 | a word in range replaces its own four bytes and nothing else, one out of range changes nothing and fails |
| CodeBuffer.Buffer.EncodeBlock | src/compiler/ecModuleWrite.c:1026-1038 | the block is added to the code however often the buffer has to grow |
| Emission.PatchReserved | src/compiler/ecModuleWrite.c:526-536 | a word that is reserved and patched later is as if it had been emitted right away |
| Emission.DebugPatched | src/compiler/ecModuleWrite.c:516-537 | the size patched into a debug section counts the bytes behind it |
| Emission.FunctionParts | src/compiler/ecModuleWrite.c:433-470 | head, code, exception and debug sections, members and end tag make up a function section, which fails exactly if one of them does |
| Emission.ClassParts | src/compiler/ecModuleWrite.c:284-369 | the same for a class section |
| Emission.SectionsConcat | src/compiler/ecModuleWrite.c:347-366 | sections emitted one after the other are the list of them, and fail exactly if one of them does |
| PoolPresence.FitsIff | src/compiler/ecModuleWrite.c:889-910 | a section can be written exactly if its lengths fit and every string it emits is in the pool |
| PoolPresence.SafeAfterAdding | src/compiler/ecModuleWrite.c:73-79 | once every string was added, in any order and with any others, writing fails only for lengths; a string left out makes it fail |
| AttributeBits.SetIf | src/compiler/ecModuleWrite.c:292-303 | `|=` of one bit of a C int sets that bit and leaves every other, and the value is a C int |
| AttributeBits.ClearIf | src/compiler/ecModuleWrite.c:290 | `&= ~` of one bit of a C int clears that bit and leaves every other, and the value is a C int |
| ObjectTree.FunctionBits | src/compiler/ecModuleWrite.c:396-430 | every bit of the attribute word of a function in a slot: the first of the two functions of an accessor never carries the setter bit, the second never the getter bit, six bits are added to, all others are those of the trait |
| ObjectTree.ClassBits | src/compiler/ecModuleWrite.c:288-312 | every bit of the attribute word of a class: fixup is worked out afresh, four bits are added to, all others are those of the trait |
| ObjectTree.ClassSectionBits | src/compiler/ecModuleWrite.c:288-312 | a class section says fixup exactly if some implemented type is no interface, and final, dynamic and interface as the trait does |
| SectionWriter.Writer.EncodeConst | src/compiler/ecModuleWrite.c:889-910 | emits the index of a string, or fails exactly if the locked pool does not hold it |
| SectionWriter.Writer.EncodeGlobal | src/compiler/ecModuleWrite.c:812-839 | emits the reference of a type: none, core slot or name |
| SectionWriter.Writer.CreateExceptionSection | src/compiler/ecModuleWrite.c:487-513 | emits the exception section of all handlers |
| SectionWriter.Writer.CreateDebugSection | src/compiler/ecModuleWrite.c:516-537 | emits the debug section with its own size in front, or fails exactly if it is too long for the size word |
| SectionWriter.Writer.CreateDocSection | src/compiler/ecModuleWrite.c:610-631 | emits the documentation recorded for the slot under its tag, if there is any |
| SectionWriter.Writer.CreatePropertySection | src/compiler/ecModuleWrite.c:563-607 | emits the property with its documentation, and adds its name to the checksum |
| SectionWriter.Writer.CreateBlockSection | src/compiler/ecModuleWrite.c:540-560 | emits the block and all it holds, with the checksum of what it holds |
| SectionWriter.Writer.CreateFunctionSection | src/compiler/ecModuleWrite.c:377-480 | emits the function with its code and all its activation holds, and adds the checksum of that section tree |
| SectionWriter.Writer.CreateClassSection | src/compiler/ecModuleWrite.c:261-370 | emits the class with constructor, static and instance members, inherited ones only if they override, and adds the checksum of that tree |
| SectionWriter.Writer.CreateSections | src/compiler/ecModuleWrite.c:344-366 | emits the properties of an object in slot order, leaving out what is inherited |
| SectionWriter.Writer.CreateSection | src/compiler/ecModuleWrite.c:217-255 | emits exactly the sections of a slot: none for a hole, two functions for an accessor; fails exactly if they do not fit; adds their checksum |
| SectionMeaning.FunSectionSays | src/compiler/ecModuleWrite.c:377-480 | a function section says its function: name, strictness, arguments, defaults, locals, result type, code, handlers one by one, debug records, and its locals in slot order |
| SectionMeaning.SlotSays | src/compiler/ecModuleWrite.c:217-255 | the sections of a slot say what is in it, of every kind: name, slot, attributes bit by bit, types by name, documentation in front; deleted slots have none |
| SectionMeaning.MembersSay | src/compiler/ecModuleWrite.c:344-366 | the sections of an object are cut into one run a slot, in slot order: every slot that is not deleted and is its own or overrides has its run there, and nothing else is |
| Checksum.SumOfString | src/compiler/ecModuleWrite.c:1117-1129 | the loop over the characters is the sum of them as signed characters, in a C int |
| Checksum.ContainsAsc | src/core/src/ejsString.c:2147-2171 | finds the first place of a pattern, or none exactly if it stands nowhere |
| Checksum.SumConcat | src/compiler/ecModuleWrite.c:367-368 | the checksum of a list of sections is additive |
| Checksum.LeafSumIs | src/compiler/ecModuleWrite.c:128-129 | what a dependency, a text, a property and a block add to the checksum, in numbers |
| Checksum.ClassSumIs | src/compiler/ecModuleWrite.c:367-368 | what a class adds to the checksum, in numbers |
| Checksum.FunctionSumIs | src/compiler/ecModuleWrite.c:471-479 | what a function adds to the checksum, in numbers, with a name of its own and without |
| ModuleWriter.CreateDependencySection | src/compiler/ecModuleWrite.c:97-139 | emits the dependencies that are not skipped, with plain or compatible versions, and adds their names to the checksum |
| ModuleWriter.CreateGlobalProperties | src/compiler/ecModuleWrite.c:145-181 | emits all global properties in the order of the search, or fails on a name that is not found |
| ModuleWriter.PatchedModule | src/compiler/ecModuleWrite.c:67-92 | patching the checksum completes the bytes of the module, or fails exactly if the checksum is too large |
| ModuleWriter.NameSumBits | src/compiler/ecModuleWrite.c:90 | of the sum of the module name the low 27 bits count |
| ModuleMeaning.DependenciesSay | src/compiler/ecModuleWrite.c:97-139 | exactly the dependencies that are neither merged, nor compiled along, nor the module itself are written, in order, with their range of versions or, when bound, the version without its patch number |
| ModuleMeaning.SectionsSay | src/compiler/ecModuleWrite.c:48-94 | a module says its dependencies, then its initializer, then each global property in the order of emission |
| ModuleMeaning.LoadedSays | src/compiler/ecModuleWrite.c:33-94 | the file of a module loads, and what it loads says the module that was written |
| ModuleWriter.CreateModuleSection | src/compiler/ecModuleWrite.c:48-94 | the code grows by exactly the module, with checksum start plus fold plus name; fails exactly if a name, a string, a debug record or the checksum does not fit; returns an error in all these cases but the last |
| ModuleWriter.ChecksumLost | src/compiler/ecModuleWrite.c:67-92 | a module whose strings are all in the pool and whose checksum does not fit |
| ClassOrder.ParentsComeFirst | src/compiler/ecModuleWrite.c:187-214 | in the written module a class section stands behind those of the classes it names as base type or interfaces, unless they inherit from it in turn |
| ClassOrder.ParentsFirst | src/compiler/ecModuleWrite.c:187-214 | without circular inheritance it always does |
| ClassOrder.ClassesOnce | src/compiler/ecModuleWrite.c:161-174 | no class is written twice |
| ClassOrder.ClassWrittenIff | src/compiler/ecModuleWrite.c:145-214 | a class is written exactly if it is listed, or a listed class of the module inherits from it through classes of the module |
| ModuleWriter.ModuleFileLoads | src/compiler/ecModuleWrite.c:33-94 | a file of one module loads as that module exactly if its pool is within the limit of the loader, and fails otherwise |
| ModuleWriter.CreateModuleFile | src/compiler/ecModuleWrite.c:33-94 | from objects to a file and back: if nothing fails, loading the file yields the section tree of the objects, their checksum and their pool |
| CharStream.EcStream.constructor | src/compiler/ecLex.c:1063-1081 | a new stream stands at the start, on line 1 |
| CharStream.EcStream.GetNextChar | src/compiler/ecLex.c:986-1013 | the next character or end of input; the line is always one more than the newlines consumed |
| CharStream.EcStream.PutBackChar | src/compiler/ecLex.c:1016-1029 | undoes the last read: position and line; neither assertion can fail |
| CharStream.EcStream.PeekChar | src/compiler/ecLex.c:986-1029 | reading and putting back restores position and line, and the column exactly unless a newline was read away from column 0 |
| TokenBuffer.EcToken.AddChar | src/compiler/ecLex.c:932-946 | the text grows by the character, whatever the buffer has to do for it, and a NUL stands behind it |
| TokenBuffer.EcToken.AddString | src/compiler/ecLex.c:949-959 | the text grows by the string |
| TokenBuffer.EcToken.Reinitialize | src/compiler/ecLex.c:905-920 | the token is empty again; the old characters stay in the buffer |
| TokenBuffer.EcToken.Make | src/compiler/ecLex.c:801-818 | the token gets its last character and its codes |
| NumberScanner.MakeNumberToken | src/compiler/ecLex.c:636-701 | the token is the source from where it starts to `NumberEnd`, where the stream stands |
| NumberScanner.DecodeEscape | src/compiler/ecLex.c:821-848 | reads at most so many digits, puts back the character that is none, and yields their value |
| TextScanner.MakeAlphaToken | src/compiler/ecLex.c:704-738 | the token is keyword or identifier with the text of `WordFrom`, escapes decoded |
| TextScanner.CString | src/compiler/ecLex.c:731 | the text as the keyword lookup sees it: up to its first NUL |
| TextScanner.GetEscape | src/compiler/ecLex.c:753-792 | one escape of a string, as `EscapeAt` has it |
| TextScanner.MakeQuotedToken | src/compiler/ecLex.c:741-798 | the token is the string of `StringFrom`; a string the source does not end still is one |
| TextScanner.GetComment | src/compiler/ecLex.c:854-902 | stops where `LineEnd` or `BlockEnd` says, at the end of the source at the latest |
| Gaps.BlockEndIsFirst | src/compiler/ecLex.c:877-897 | a block comment ends exactly where a four-state automaton first closes, or with the source |
| Gaps.LineEndIsFirst | src/compiler/ecLex.c:873-876 | a line comment ends behind its first CR or LF, or with the source |
| Gaps.GapItemIff | src/compiler/ecLex.c:194-249 | what is skipped at a position is exactly the white space, spliced line or comment that stands there |
| Gaps.SkipGapIff | src/compiler/ecLex.c:194-249 | what is skipped before a token is a run of those, and the only run behind which none stands |
| OperatorScanner.ScanGreater | src/compiler/ecLex.c:464-489 | the switch on characters after `>` makes the token of the operator that stands there |
| OperatorScanner.ScanLess | src/compiler/ecLex.c:427-447 | the same after `<` |
| OperatorScanner.ScanEquals | src/compiler/ecLex.c:449-462 | the same after `=` |
| OperatorScanner.ScanDot | src/compiler/ecLex.c:360-382 | the same after a dot, unless a number begins there |
| OperatorScanner.ScanSlash | src/compiler/ecLex.c:319-349 | the same after a slash, unless a comment begins there |
| OperatorTable.LongestMatch | src/compiler/ecLex.c:281-530 | the operator the nested switch settles on stands at the position, and every other operator of the table that stands there is shorter |
| OperatorTable.OperatorStands | src/compiler/ecLex.c:202-530 | the switch enters an operator case exactly if some operator of the table stands at the position |
| OperatorTable.OpTextIsSource | src/compiler/ecLex.c:427-489 | the text of an operator token is its source, except for `>=` and `==`, and for `<<` unless a third `<` follows |
| Lexer.ScanToken | src/compiler/ecLex.c:180-531 | one call makes the token, and leaves the stream at the position, of `Lex`, from any position of any source |
| Tokenization.TokenProgress | src/compiler/ecLex.c:180-531 | every token but the end takes at least one character and has a code of its own |
| Tokenization.PartitionIff | src/compiler/ecLex.c:180-531 | gaps and tokens as the lexer takes them partition the source, and no other partition does |
| Tokenization.PartitionGlues | src/compiler/ecLex.c:180-531 | gaps and tokens put together again are the source |
| Tokenization.TokensStep | src/compiler/ecLex.c:180-531 | the list of tokens is the next one and the tokens behind it; at the end it stays empty |
| TokenStream.TokenSource.GetToken | src/compiler/ecLex.c:163-191 | takes the head of one list, the tokens put back and then those of the source, and reports the end when it is empty |
| TokenStream.TokenSource.PutToken | src/compiler/ecLex.c:599-605 | the current token becomes the head of that list |
| TokenStream.TokenSource.PutSpecificToken | src/compiler/ecLex.c:610-618 | a token that is not in the list becomes its head |
| TokenStream.TokenSource.TakeToken | src/compiler/ecLex.c:621-628 | hands over the current token; the list stays |
| TokenStream.LinkedOnce | src/compiler/ecLex.c:610-618 | a linked list that ends holds no token twice |
| Spelling.LiteralLexes | src/compiler/ecLex.c:741-798 | a byte string written as a literal, with escapes, is lexed as itself |
| Spelling.TwoHexDigits | src/compiler/ecLex.c:821-848 | a character written with two hexadecimal digits is decoded from exactly those two |
| Escapes.HexRun | src/compiler/ecLex.c:821-848 | hexadecimal digits up to the limit, or to the first character that is none, are the number they spell, cut to eight bits |
| Escapes.OctalRun | src/compiler/ecLex.c:821-848 | behind a zero up to three decimal digits are read; those before the first 8 or 9 are the octal number |
| Escapes.FourDigits | src/compiler/ecLex.c:777-779 | every byte written with four hexadecimal digits is lexed as itself, in a string and in a word |
| Escapes.StringLexes | src/compiler/ecLex.c:741-798 | a string spelled any way the lexer knows, ended by its quote or by the source, is the token of its characters |
| Escapes.LastBackslash | src/compiler/ecLex.c:750-792 | a backslash that ends the source adds a NUL to the string |
| Escapes.WordLexes | src/compiler/ecLex.c:704-727 | a word spelled any way the lexer knows is its characters, whatever other character follows |
| Escapes.WordToken | src/compiler/ecLex.c:704-738 | keyword or identifier is decided by the characters up to the first NUL |
| Escapes.WordBackslash | src/compiler/ecLex.c:714-717 | a backslash before a line end, or at the end of the source, ends a word |
| Spelling.NumberLexes | src/compiler/ecLex.c:636-701 | every number of the grammar, followed by a space, is lexed whole |
| Spelling.NumberTakenIsNumber | src/compiler/ecLex.c:631-701 | whatever the lexer takes for a number is one of the grammar |
| LexExactness.NumberLongest | src/compiler/ecLex.c:636-701 | what the lexer takes for a number is the longest number of the grammar that stands there, whatever follows |
| LexExactness.NumberStands | src/compiler/ecLex.c:207-208 | a number is taken exactly where one of the grammar stands |
| LexExactness.TokenKinds | src/compiler/ecLex.c:200-531 | which kind of token each first character makes; anything else is an error of one character |
| LexExactness.CharacterClasses | src/compiler/ecLex.c:200-249 | digits, octal and hexadecimal digits, quotes and white space by enumeration |
| LexExactness.WordClasses | src/compiler/ecLex.c:215-217 | the characters of words by enumeration |
| Spelling.OperatorLexes | src/compiler/ecLex.c:281-530 | every operator of the table, followed by a space, is lexed as that operator |
| Spelling.WordStops | src/compiler/ecLex.c:704-727 | every word, followed by a space, is lexed whole |
| Spelling.PrintThenLex | src/compiler/ecLex.c:180-531 | any list of operators, words, numbers and strings, printed with a space behind each, is lexed as that list, with its codes and texts |
| Spelling.PrintedIsSource | src/compiler/ecLex.c:180-531 | what is printed is text the lexer accepts |
| DocText.PrepText | src/cmd/doc.c:1704-1729 | the text is cleaned in place, no unread character is overwritten, and nothing behind the new end is touched |
| DocText.CleanIsClean | src/cmd/doc.c:1701-1729 | the result has no margin left, and is a subsequence of the text |
| DocText.CleanFixpoint | src/cmd/doc.c:1701-1729 | exactly the texts without a margin are left unchanged |
| DocText.CleanIdempotent | src/cmd/doc.c:1701-1729 | cleaning twice is cleaning once |
| DocText.CleanKeepsInk | src/cmd/doc.c:1701-1729 | everything but spaces and asterisks is kept |
| DocText.CleanByLines | src/cmd/doc.c:1704-1729 | line by line: the text before the first character that is kept goes, of each later line only what it begins with; no newline and nothing inside a line is lost |
| DocText.PadClasses | src/cmd/doc.c:1709 | white space and asterisk by enumeration |
| DocText.JoinLines | src/cmd/doc.c:1638-1655 | every newline becomes a space, whatever follows it |

## Left out

- ModuleFile.LoadFile: loading is reading the records of a file. Searching for module files, loading the modules one depends on, version checks, fixing up types that are loaded later, native libraries and module initializers are not part of this model.
- ModuleFile.LoadFile: a section before any module, an end tag without an open scope, a string index outside the pool and a string count that disagrees with the pool count as a failed load; the loader goes on in some of these cases and has no defined result in others.
- SectionLoop.LoadSections: an exception or debug section that stands elsewhere than behind its function, and a module inside a module, count as a failed load; the writer emits neither.
- ModuleLoader.ReadFunctionInverts: skipping over a function to its remembered end, which the loader does for functions it has already, is not modelled.
- NumberCodec.ReadWordInverts: a word whose number does not end within its four bytes counts as unreadable; the writer emits none.
- GlobalRef.EncodeRefInjective: pools hold at most 2^29 strings, so that an index shifted left by two is a C int. The same bound stands wherever references are written.
- ModuleWriter.CreateModuleFile: writes one module; several modules in a file, each with its own pool, are covered on values by ModuleFile.FileRoundTrip. Names of global properties are unique, holes apart, so that a type is found in its own slot.
- ModuleWriter.PatchedModule: a checksum that is the least C int counts as too large; its absolute value has no defined result in C.
- SectionWriter.Writer.CreateClassSection: classes stand at the global level only, since the writer looks their names up in the global object wherever they stand; and the qualified name of a type is that of its slot.
- SectionWriter.Writer.CreateSection: objects are finite trees here, while the searches work on graphs that may be cyclic; PoolCoverage.Depicts says when a tree is what the graph holds.
- PoolCoverage.ClassSearchedIff: the other places of code generation that add constants, such as genFunction and genVar, are not part of this model; the strings they must see to are named.
- CodeBuffer.Buffer.EncodeBlock: the block is copied byte by byte, not in pieces as large as the room allows. Allocation never fails.
- ConstantPool.EjsConstants.AddModuleConstant: the hash table is a map; strings are byte strings without NUL, their conversion from wide characters is not modelled.
- ByteCode.Interp: lines are data, not text. The depth is unbounded where the code keeps it in a C int. Double operands are eight bytes. The three-way difference of code that reads past its end, an unknown opcode and a proper end is a status of the listing.
- SlotListing.Lister.ListSlots: what is printed for a slot is left out.
- Lexer.ScanToken: sources are ASCII without NUL, characters are one byte, the whole source is in memory. The no-break space, console input that arrives by line (and its T_NOP), regular-expression tokens, the locations kept in tokens, documentation tokens, and the warning about nested comments are left out.
- TokenStream.TokenSource.PutSpecificToken: the token must not be in the list already; the code would tie the list into a ring.
- TextScanner.GetComment: the text of a comment, which goes into the token and is dropped, is not specified.
- Garbage collection, hashing, memory and file access, command lines, HTML and listing layout, the parser, the code generator and the interpreter are not modelled.

# Linkers, object files and emulators: a verified model

The repository holds two linkers and two processor emulators. The younger
linker is that of the Amsterdam Compiler Kit (`Ack-5.5/ld`): a two-pass link
editor with a memory manager of its own, which can fall back from keeping all of
the output in core to reading every module again. It writes through a library
with several buffered cursors on one file (`Ack-5.5/lib/wr.c`), and reads through
its counterpart. The older linker is that of the sixth edition of Unix
(`v6/ld.c`): two streams over two shared pages, a hash table from which the
symbols of a rejected library member are taken back, and a second pass that
computes every address again. The emulators are those of `7run`, for the 8086 and
the PDP-11.

This project models their most intricate parts and proves what they are for:

* The memory manager moves pieces of core up and down, over themselves, whenever
  one of them has to grow, and gives up parts of them when core runs out. Over any
  run of its operations no byte that is still in use is lost or displaced
  (`CoreManager`, with `CoreMemory`, `Compaction`, `CoreRuns`, `Reserves` for what
  compaction leaves to each piece, and `Saving` for a string that is copied while
  its source may move).
* Linking is defined as a function of modules and options (`LinkModel`), which
  the two passes compute (`LinkPasses`, `Layout`, `SymbolTable`, `InCore`).
  Linking some modules with -r first and the result later gives the same output
  as linking everything at once (`PartialTheorem`); every datum gets the address
  of what it refers to (`TrueAddress`). Both with the exact condition. Where parts,
  common names and sections lie is said of their sizes and alignments in `Places`,
  what a datum amounts to by the weights of its bytes in `Relocation`, and what the
  names and entries of the output refer to in `OutputNames`.
* Both strategies, in core and reading again, are followed from the modules to
  the last byte of the file (`InCore`, `Pieces`, `ReRead`, `Straddling`,
  `NameFormat`, `FileImage`, `StrategyFiles`), through the object writer, whose
  buffered cursors refine a writer without buffers for any order of the calls
  (`FileCursor`, `ObjectWriter`, `WriteLog`, `OutputFile`). All bytes go to their
  places exactly if certain ends meet, which can be told before the second pass
  (`Regions`, `Placement`, `VisitShapes`); what the file is otherwise can be told
  visit by visit (`Tours`, `Misplaced`). When the two files are the same byte by
  byte is in `Agreement` and `FilesAgree`. What a reader finds in the file, number
  by number, is the output of the link (`FileNumbers`, `FileReading`, `CoreFile`).
* What is written is read again, expanding packed records in place
  (`ObjectFormat`, `EntryFormat`).
* Archive search loads the least set of members that it can (`Archive`).
* The older linker copies words from two streams through two pages
  (`PageCache`, `PageLoad`), takes symbols back (`OldSymbols`, `OldLink`),
  finds the same addresses in both passes (`OldMiddle`), and reports undefined and
  multiply defined names, not always rightly (`OldReports`). Its origins, common
  symbols and ends lie where its options say (`OldOrigins`); every symbol and every
  word is, or refers to, where the bytes have gone (`OldAddresses`, `OldWords`,
  `OldLocals`).
* The 8086's add, adc, sub and sbb do arithmetic on numbers of any length
  (`Alu8086`); the PDP-11's cache of decoded instructions is transparent exactly
  as long as what is executed again still decodes as before (`PdpDecode`,
  `PdpMachine`, `DecodeCache`, `StaleEntry`). What its instructions do, from the
  words in memory to operands, results, flags, branches and calls, is in
  `PdpPlaces`, `PdpArithmetic`, `PdpBytes`, `PdpBranches` and `PdpCalls`.

Code that changes state in place is modelled so: the memory manager, the linkers'
tables, cursors, pages, the second pass and the emulators are classes and loops
over arrays, each proved against functions whose properties the lemmas state.
`dafny verify dfyconfig.toml` checks everything.

## Findings

Where the code does not have the property that it seems to promise, the condition
under which it does is proved to be exact, and there is an input that fails.

* **-n in partial links.** A flat link with -n adds no base to a datum that refers
  to a name. A first link with -r makes a reference to a name of the part one to
  its section, and to that the later link adds the base, with -n too. Partial
  linking is transparent exactly if that never matters to a datum of the part
  (`PartialTheorem.PartialLinkTransparent`); `PartialLimits.BaseMissed` is a link
  where it does.
* **-n in final addresses.** With -n the values of names leave out the bases, so
  that data which refer to names are too small by the base, while data which
  refer to sections are not (`TrueAddress.DatumFinal`, `TrueAddress.BaseLeftOut`).
* **-n and the strategies.** Reading again, put_locals adds the bases to local
  names even with -n; in core, change_names is not called then. The name tables
  differ exactly if -n meets a saved local name in a section whose base is not 0
  (`Agreement.NamesAgree`, `Agreement.NamesDiffer`), and the files exactly if the
  base shows in four bytes (`FilesAgree.FilesSame`).
* **The shared write cursor.** wr_outsect repositions the cursor that sections
  from 2 on share only when both the old and the new section are such. Entered
  from section 0 or 1, a section goes on where the cursor was left, wherever its
  own bytes are. In core that never matters. Reading again, all bytes go to their
  places exactly if at every such entry the end of the section is where the cursor
  was left, by offsets and lengths that are known before the pass
  (`StrategyFiles.AgainExactly`, `VisitShapes.FitsAnyway`). Two modules with bytes
  in sections 0, 2 and 3 make a wrong file (`Misplaced.TwoModules`); other orders
  come out right (`Misplaced.Lucky`), and so do all modules with bytes in the first
  three sections only (`VisitShapes.ThreeSectionsRight`).
* **Values that do not fit.** A value is read back as written exactly if it is at
  least 0 and below 256 to the power of its width on file; where a long has eight
  bytes, a name's value of -1 comes back as 0xFFFFFFFF (`ObjectFormat.ReadTable`,
  `ObjectFormat.ValueMinusOne`).
* **Stale decoded instructions.** With text and data in one space, a store into an
  instruction that has been executed leaves its cache entry: the new word selects
  what is done, the old entry gives the operands. The cached run always uses what
  fresh decoding gives exactly if whatever is executed again still decodes as it
  did (`DecodeCache.FreshExactly`); `StaleEntry.CachedKeepsR1` is a program, as the
  loader starts it, where it does not.
* **Rejected library members.** The older linker takes back the symbols that a
  rejected member entered, but not the larger sizes that it gave to symbols that
  are still undefined. The table is as it was exactly if there are none
  (`OldLink.RejectionLeaves`, `OldLink.CommonRejected`). A missing name becomes a
  common one in this way, and is no longer reported (`OldReports.RejectedHides`,
  `OldReports.MissingHidden`).
* **Definitions of common names.** load1 skips a definition in text of a name that
  is known as common, so that load2 finds another address in the table and reports
  the only definition as one too many. When exactly load2 reports a definition is
  `OldReports.Reports`; `OldReports.OnlyDefinition` is such a program.
* **Operands evaluated twice.** The PDP-11 emulator's sub reads its destination and
  moves the register, and then stores through the register again. For (r)+ and
  -(r) the difference goes beside the word that was read
  (`PdpArithmetic.SubBeside`); it goes to its place if the operand moves no
  register (`PdpArithmetic.SubDoes`).
* **Flags.** After inc, dec, neg, adc and sbc, N is the sign of the true result, not
  of what is stored, so that blt and bge go wrong exactly if V is set
  (`PdpArithmetic.SignRight`, `PdpArithmetic.IncTooLarge`); com of 0xFFFF leaves Z
  clear (`PdpArithmetic.ComZero`).

## Model

| member | source | states |
|---|---|---|
| CoreManager.Core.InitCore | Ack-5.5/ld/memory.c:69-128 | The pieces start with the capacities asked for, one after the other and aligned, exactly if the system lets the break go so far; otherwise with as little as possible, and not all is in core. |
| CoreManager.Core.SBreak | Ack-5.5/ld/memory.c:45-63 | The break moves by the rounded amount exactly if no smaller or equal request was refused before and the limit is not passed; otherwise nothing moves. |
| CoreManager.Core.MoveUp | Ack-5.5/ld/memory.c:138-163 | All pieces above the given one move up by what the system gave, which is a multiple of the alignment; no byte in use changes. |
| CoreManager.Core.Compact | Ack-5.5/ld/memory.c:175-307 | Room for `incr` bytes is made exactly if the pieces together have it, from as few neighbours as the plan needs; pieces stay in order, aligned and without overlap; on failure nothing changes; every byte in use of every piece stays at its offset. |
| Compaction.PlanComplete | Ack-5.5/ld/memory.c:186-243 | A plan is found exactly if the free bytes that the pieces may give up reach the need. |
| Compaction.CompactDone | Ack-5.5/ld/memory.c:245-306 | The slides down and up, done in their order, end in the table that the plan stands for: sizes, gaps and the piece that grew. |
| CoreManager.Core.CopyDown | Ack-5.5/ld/memory.c:316-331 | Moving a piece down over itself leaves its bytes at the new place; nothing outside the two ranges changes. |
| CoreManager.Core.CopyUp | Ack-5.5/ld/memory.c:339-353 | The same for moving up, which copies from the end. |
| Reserves.ReservesKept | Ack-5.5/ld/memory.c:186-306 | After compaction, in NORMAL mode, a piece that gave keeps a quarter of what it uses (or half of what it had free), and at most seven bytes more; otherwise at most seven bytes; and the piece that asked has room for a quarter more than it will use. |
| Reserves.GiveIs | Ack-5.5/ld/memory.c:205-220 | What a piece may give up: multiples of eight, down to its reserve. |
| Reserves.Granules | Ack-5.5/ld/memory.c:40-50 | The break moves by 64 bytes; the system is asked for multiples of 256, and modules take multiples of 4. |
| Reserves.WhatGoes | Ack-5.5/ld/memory.c:418-534 | Which pieces are given up when core runs out, and which between the passes. |
| CoreManager.Core.Alloc | Ack-5.5/ld/memory.c:365-398 | Success gives the old end of the piece as offset, and all pieces keep their bytes; failure means that not all is in core and that even with everything compacted the room was missing. |
| CoreManager.Core.HardAlloc | Ack-5.5/ld/memory.c:405-445 | After releasing and forcing, failure means that the room is missing even without reserves; the module piece loses only what lies before the current module, released pieces all, the others nothing. |
| CoreManager.Core.FreeSavedModuls | Ack-5.5/ld/memory.c:453-467 | The current module is moved to the start of its piece, byte for byte, and the bytes before it become free. |
| CoreManager.Core.Dealloc | Ack-5.5/ld/memory.c:473-485 | A piece becomes empty, with all its bytes free. |
| CoreManager.Core.CoreFree | Ack-5.5/ld/memory.c:499-516 | A piece is cut at an offset and the rest becomes free; no other piece changes. |
| CoreManager.Core.SkipModul | Ack-5.5/ld/scan.c:409-422 | The current module is given up, or kept before the next one while all is in core. |
| CoreManager.Core.FreezeCore | Ack-5.5/ld/memory.c:522-544 | When not all is in core, what the second pass needs is packed, so that later requests of the module piece move nothing else; when all is in core nothing changes. |
| CoreManager.Core.Run | Ack-5.5/ld/memory.c:365-516 | Over any run of alloc, hard_alloc, core_free, dealloc and skip_modul: the global names, their characters, the symbols and the archive positions only grow unless freed; the ranlib table and every byte of the current module stay at their offsets below the lowest offset that was freed; and as long as everything is in core so does every byte of every piece, saved modules included. In the second pass no other piece moves. |
| CoreRuns.RunKeptNext | Ack-5.5/ld/memory.c:365-516 | What one more call keeps, added to what the run kept: the floor of a piece is the lowest offset that any call cut it to. |
| CoreManager.Core.BeginSecondPass | Ack-5.5/ld/memory.c:522-544 | Going over to the second pass keeps the invariant and every byte that the second pass needs. |
| Saving.SaveChar | Ack-5.5/ld/save.c:58-85 | For global names: the string, with its nul, is in the piece of characters afterwards although the allocation may have moved the module it came from; failure means no room even by force. |
| Saving.SaveLocalChar | Ack-5.5/ld/save.c:58-85 | For local names, which are saved only as long as all is in core: the same, every byte in use stays; without room the string is not saved and nothing is lost. |
| Relocation.GetPut | Ack-5.5/ld/relocate.c:22-105 | A value put in any byte and word order is got back, modulo the width of the datum. |
| Relocation.PutGet | Ack-5.5/ld/relocate.c:22-105 | Bytes that are got and put back are the same bytes. |
| Relocation.PutTwice | Ack-5.5/ld/relocate.c:168-221 | Relocating by p and later by q gives the bytes of relocating once by r exactly if p + q and r agree modulo the width. |
| Relocation.GetAmounts | Ack-5.5/ld/relocate.c:22-58 | The value that is got is the sum of the bytes by their weights, which depend on the length, RELBR and RELWR. |
| Relocation.PutAmounts | Ack-5.5/ld/relocate.c:60-105 | The bytes that are put amount, by these weights, to the value modulo the width. |
| Relocation.ApplyAmounts | Ack-5.5/ld/relocate.c:168-221 | Relocating adds the delta to what the bytes of the datum amount to, modulo the width, and changes no other byte. |
| Relocation.ApplyAllDatum | Ack-5.5/ld/relocate.c:168-221 | With data that do not overlap, each datum ends up changed exactly once, whatever the order. |
| Relocation.ApplyAllUncovered | Ack-5.5/ld/relocate.c:168-221 | A byte that belongs to no datum keeps its value. |
| Relocating.PutValuAt | Ack-5.5/ld/relocate.c:60-105 | In the buffer, exactly the bytes of the datum change, and amount to the value by the weights of its byte and word order. |
| Relocating.Relocate | Ack-5.5/ld/relocate.c:168-221 | In the buffer, exactly the datum of the entry changes, by the delta of its target; the entry comes back with its index and offset for the output. |
| Names.SaidMeaning | Ack-5.5/ld/extract.c:172-250 | What the table believes of a name: the first definition if any mention defines it, else the largest size if any is common, else undefined. |
| Names.EnterAllFind | Ack-5.5/ld/extract.c:172-250 | Looking a name up after any list of mentions gives what was known joined with what the list says of it. |
| Names.OrderIrrelevant | Ack-5.5/ld/extract.c:172-250 | With at most one definition of a name, the order of the mentions does not matter to its kind, size or definition. |
| Names.EnterAllTwice | Ack-5.5/ld/extract.c:172-250 | Entering the table that a list of mentions made is entering the list. |
| Names.EnterAllRelocated | Ack-5.5/ld/extract.c:150-164 | Moving names by the origins of their sections commutes with combining mentions of them. |
| SymbolTable.Table.SearchName | Ack-5.5/ld/sym.c:52-83 | The chained search finds the index of the name exactly if it is in the table. |
| SymbolTable.Table.EnterName | Ack-5.5/ld/sym.c:89-120 | Entering a new name appends it, and the chains still represent the table. |
| SymbolTable.Table.GetExternal | Ack-5.5/ld/extract.c:172-207 | One mention through the hash table is one step of the name rules. |
| SymbolTable.Table.GetAll | Ack-5.5/ld/extract.c:172-207 | Any list of mentions through the hash table makes the table of the name rules. |
| SymbolTable.ComputeHash | Ack-5.5/ld/sym.c:134-145 | The loop over the characters, signed or not, computes the hash in sixteen bits, reduced to the number of slots. |
| LinkModel.RoundUpIs | Ack-5.5/ld/scan.c:463-466 | The rounding of section sizes is the least multiple not below the size, as the modulo expression computes it. |
| LinkAppend.ContentAppend | Ack-5.5/ld/finish.c:117-204 | The bytes of a section for two groups of modules are those of the first, padded, and those of the second linked after it. |
| LinkAppend.OutRelosAppend | Ack-5.5/ld/finish.c:117-204 | The same for the relocation entries. |
| LinkAppend.GlobalsShape | Ack-5.5/ld/extract.c:172-207 | Every entry of the global table is external, and no name is in it twice. |
| PartialModule.PartWellFormed | Ack-5.5/ld/output.c:25-47 | What a relocatable link writes is again a well-formed module. |
| PartialModule.ExternalFound | Ack-5.5/ld/relocate.c:139-159 | Every name that an entry refers to is found in the second pass. |
| TwoSteps.TwoStepsAsOne | Ack-5.5/ld/relocate.c:168-221 | For any two environments whose steps add up, relocating a part and then the whole gives the bytes of relocating once, exactly if the deltas agree modulo the widths. |
| PartialLink.Retarget | Ack-5.5/ld/relocate.c:122-160 | For every entry of the part: the first delta and the later one add up to the delta of the flat link, but for a base that -n leaves out, and both name the same target. |
| PartialTheorem.PartialLinkTransparent | Ack-5.5/ld/main.c:48-64 | Linking some modules with -r first and the result with the others gives the whole output of linking all at once - sections, names, entries - exactly if -n leaves no base out of a datum of the part. |
| PartialTheorem.PartialLinkAlways | Ack-5.5/ld/main.c:48-64 | Without -n it always does. |
| PartialLimits.BaseMissed | Ack-5.5/ld/relocate.c:150-158 | A link with -n where the two outputs differ: one two-byte reference to a name at base 0x1000. |
| Layout.Totals.Process | Ack-5.5/ld/extract.c:107-141 | One more module: sections, entries and sizes are counted, and the emitted bytes are the sum of the lengths of the sections that will be written. |
| Layout.NormCommons | Ack-5.5/ld/main.c:399-449 | In place: with anything undefined, or -r, nothing moves; otherwise common names follow the normal part of their sections, in table order. |
| Layout.CommonsDisjoint | Ack-5.5/ld/main.c:417-447 | Two common names of a section never overlap. |
| Layout.CompleteSections | Ack-5.5/ld/main.c:458-489 | Every section without -b starts at the least multiple of its alignment from the end of the one before it, the first from 0; offsets in the file follow one another; it fails exactly if a base that was asked for is not a multiple of its alignment. |
| Layout.BasePlaced | Ack-5.5/ld/main.c:458-489 | The same said of sizes, alignments and bases alone: base, end and alignment of each section. |
| Places.PartsAbut | Ack-5.5/ld/extract.c:117-134 | The part of a module starts where that of the module before it ends, whose size is rounded to the least multiple of its alignment. |
| Places.CommonsAbut | Ack-5.5/ld/main.c:417-447 | The first common name of a section starts where the modules' parts end, every other where the one before it ends, and the section ends with the last. |
| Places.NoCommons | Ack-5.5/ld/main.c:417-447 | A section without common names ends with the modules' parts. |
| Places.SectionsPlaced | Ack-5.5/ld/main.c:458-489 | In the output of a link: the bases, sizes and alignments of the section table fit together so, or the link is relocatable and there are no bases. |
| Places.SectionsAbut | Ack-5.5/ld/main.c:458-489 | Without options the sections of the output follow one another from 0 on. |
| Layout.SectionsDisjoint | Ack-5.5/ld/main.c:458-489 | Sections between which no base was asked for do not overlap in memory. |
| Layout.SectionsAligned | Ack-5.5/ld/main.c:477-486 | All bases are multiples of their alignments exactly if the ones asked for are. |
| Layout.OffsetsTile | Ack-5.5/ld/main.c:466-470 | In the file every section follows the one before it, up to the relocation table. |
| Layout.ContentLength | Ack-5.5/ld/extract.c:117-134 | The length counted in the first pass is the length of what the second pass writes. |
| Layout.ChangeNames | Ack-5.5/ld/main.c:496-518 | All names of the table move by the bases of their sections. |
| FinalAddress.BetweenPasses | Ack-5.5/ld/main.c:399-518 | What lies between the passes ends in the names and bases that the second pass is defined with, or fails exactly for an unaligned base. |
| LinkPasses.FirstPass.GetNames | Ack-5.5/ld/extract.c:51-100 | The names of one module: external ones go through the hash table, local ones are saved, both moved by the origins. |
| LinkPasses.FirstPass.Extract | Ack-5.5/ld/extract.c:27-141 | One more module in the first pass: totals, global table and local names are those of the longer list. |
| LinkPasses.LinkAll | Ack-5.5/ld/main.c:48-64 | Both passes, one after the other: the output is exactly Link of the options and the modules, the function that the partial-link theorem is about; it fails exactly for an unaligned base. |
| FinalAddress.DatumByTables | Ack-5.5/ld/relocate.c:168-221 | Every datum ends up, in the output, at its place with its old value plus what the tables of the second pass have for its target. |
| FinalAddress.ByteFinal | Ack-5.5/ld/finish.c:117-204 | A byte of a module that belongs to no datum is in the output unchanged, at its place. |
| FinalAddress.DefinitionAddress | Ack-5.5/ld/main.c:496-518 | A defined name ends up with its offset, the origin of its module and, without -n, the base of its section. |
| OutputNames.UnresolvedIs | Ack-5.5/ld/main.c:399-416 | The output says that references are unresolved exactly if some module mentions a name that none defines. |
| OutputNames.SectionNamesTell | Ack-5.5/ld/write.c:41-54 | The last names of the output are those of its sections, with their bases and without strings. |
| OutputNames.EntriesTell | Ack-5.5/ld/relocate.c:108-221 | With -r, -c or anything undefined the output has the entries of all modules in order, otherwise none; each is at its datum in the output and names what it referred to: the section of a definition, a section, the end of the table, or the name itself while it is undefined. |
| OutputNames.LocalTells | Ack-5.5/ld/extract.c:51-100 | A local name of a module is in the output, further by where the module's part is and, without -n, by the base. |
| TrueAddress.DatumFinal | Ack-5.5/ld/relocate.c:122-221 | The datum holds its old value plus the true final address of its target exactly if -n is absent, or the target is not a name in a section, or the base is 0 in the width of the datum. |
| TrueAddress.AddressOfDefinition | Ack-5.5/ld/extract.c:150-164 | That address, for a name that one module defines in a section: its offset, plus where that module's part went, plus the base. |
| TrueAddress.AddressOfAbsolute | Ack-5.5/ld/relocate.c:150-155 | For an absolute name: its value. |
| TrueAddress.AddressOfCommon | Ack-5.5/ld/main.c:417-447 | For a common name: room of the largest size asked for, after all modules' parts and the common names before it, inside the section. |
| TrueAddress.BaseLeftOut | Ack-5.5/ld/relocate.c:150-158 | A module linked with -n and a base of 0x1000 whose datum is not the address. |
| Strategies.ApplyBlock | Ack-5.5/ld/finish.c:163-196 | Changing a section in two parts is changing it whole, if no datum lies across the cut. |
| InCore.Linker.PutEmitIndex | Ack-5.5/ld/scan.c:289-325 | The index of a section of a module in its piece is its origin; the gap is filled with zeros first. |
| InCore.Linker.HandleRelo | Ack-5.5/ld/finish.c:133-143 | One entry, in place in the piece of its section: the piece and the table of entries advance by exactly that entry. |
| InCore.LinkInCore | Ack-5.5/ld/finish.c:117-204 | With everything in core, the pieces end up as the content of the output and the entries as its table. |
| ReRead.RelocateBlock | Ack-5.5/ld/finish.c:166-190 | A block is relocated by exactly the entries whose data begin in it, which come back for the output. |
| Straddling.BlocksFit | Ack-5.5/ld/finish.c:159-196 | In all blocks of a section relocation stays within the bytes that were read exactly if no datum lies in two of them. |
| ReRead.Writer.WriteNulls | Ack-5.5/ld/write.c:87-98 | The zeros that are owed to a section go to it, in buffers of BUFSIZ. |
| ReRead.Writer.EmitBlocks | Ack-5.5/ld/finish.c:159-196 | A section written block by block gives the same bytes as whole, and its entries in the order of the blocks. |
| ReRead.Writer.HandleRelos | Ack-5.5/ld/finish.c:144-203 | One module: every section gets the zeros of its gap and its bytes; the calls made visit exactly the sections with bytes, in order. |
| ReRead.Writer.PutLocals | Ack-5.5/ld/finish.c:210-227 | The local names of a module: strings as they come, then the records, with the offsets of the strings in the file and values moved by origins and bases. |
| ReRead.Writer.EndWrite | Ack-5.5/ld/write.c:58-77 | The global names, their strings, and a name for every section, after those of the modules. |
| ReRead.ReReadCalls | Ack-5.5/ld/finish.c:32-53 | The calls of the object writer that the re-reading pass makes: what they give every section is its content, what they give the tables are the entries, the names and the strings, and their visits are those of the modules' bytes. |
| Agreement.OrderComplete | Ack-5.5/ld/finish.c:144-203 | Section by section and block by block, every entry of a module is met exactly once. |
| Agreement.EntriesAgree | Ack-5.5/ld/finish.c:117-204 | The two strategies write the same entries, module by module, up to the order within a module. |
| Agreement.NamesAgree | Ack-5.5/ld/finish.c:210-227 | The two strategies write the same local names exactly if -n is absent, or the output is relocatable, or no saved local name is in a section whose base is not 0. |
| Agreement.NamesDiffer | Ack-5.5/ld/finish.c:219-223 | A module with one local name, linked with -n and base 0x1000: its value is 0 in core and 0x1000 when the module is read again. |
| CoreFile.OutputInCore | Ack-5.5/ld/memory.c:552-608 | write_bytes with all in core: the file is header, section table, sections, entries, and names with their strings, byte for byte; and a reader finds in it every count, section, entry, name and string of the output. |
| FileReading.FileTells | Ack-5.5/include/out.h:19-121 | What a reader finds in the file, number by number from its bytes: magic, flags and counts in the header; the five numbers of every section; by the offsets that the header gives, every entry, every name and its string. |
| FileReading.TypeTells | Ack-5.5/include/out.h:52-71 | The byte or_type of an entry has the length and the three flags in their bits. |
| FileReading.WordTells | Ack-5.5/include/out.h:76-107 | The word on_type of a name has its section, S_EXT, S_COM and S_SCT in their bits. |
| StrategyFiles.LinkToFile | Ack-5.5/ld/main.c:48-64 | From options and modules to the last byte of the file, with all in core: it is the file of Link, and a reader finds the output of Link in it. |
| StrategyFiles.LinkAgainToFile | Ack-5.5/ld/finish.c:32-53 | The same reading the modules again, if every shared section that is entered from section 0 or 1 ends, by the offsets and lengths known before, where the cursor was left: it is the file of the link with that pass's names and order of entries, and a reader finds that in it. |
| StrategyFiles.AgainExactly | Ack-5.5/lib/wr.c:274-301 | Every byte that the calls of this pass give goes to its place in that file exactly if that condition holds. |
| VisitShapes.FitsAnyway | Ack-5.5/ld/finish.c:144-203 | The condition depends on no name, base or relocated byte: it can be told before the pass. |
| VisitShapes.ThreeSectionsRight | Ack-5.5/lib/wr.c:274-301 | With bytes in the first three sections only, it holds for any modules. |
| StrategyFiles.LinkAgainAnyway | Ack-5.5/lib/wr.c:274-301 | Whether it holds or not, as long as no visit leaves the part of its cursor: the file shows what the visits, one after the other, have written where the cursors were. |
| Misplaced.TwoModules | Ack-5.5/lib/wr.c:274-301 | Two modules with bytes in sections 0, 2 and 3, read again: the file has 2, 0, 3, 2 where it should have 2, 2, 3, 3. |
| Misplaced.TwoWrong | Ack-5.5/lib/wr.c:274-301 | And the condition fails for them. |
| Misplaced.Lucky | Ack-5.5/lib/wr.c:274-301 | Modules with bytes in sections 0 and 2, and 0 and 3: the condition holds, although section 3 is entered with the cursor left at section 2. |
| FilesAgree.NameRegions | Ack-5.5/ld/finish.c:210-227 | The two strategies write the same strings; the records of the names are the same bytes exactly if -n leaves no base out that shows in the four bytes of a saved local name. |
| FilesAgree.FilesSame | Ack-5.5/ld/memory.c:552-608 | The files of the two strategies are the same exactly if that holds and the entries come in the same order, in which alone the tables of entries can differ. |
| FileCursor.Cursor.OutWrite | Ack-5.5/lib/wr.c:60-123 | Bytes given to a cursor are written or pending, in order, at the place where the cursor stands, whatever the buffering. |
| FileCursor.Cursor.PutRecords | Ack-5.5/lib/wr.c:315-350 | The same for records that are put into the buffer as many as fit at a time. |
| ObjectWriter.Writer.Begin | Ack-5.5/lib/wr.c:188-271 | Header and table are written before section 0, and every cursor is placed. |
| ObjectWriter.Writer.OutSect | Ack-5.5/lib/wr.c:274-301 | The shared cursor moves to the noted offset of the section exactly if old and new section share it; everything written stays. |
| ObjectWriter.Writer.Close | Ack-5.5/lib/wr.c:170-185 | Everything that the cursors have taken is in the file. |
| ObjectWriter.WriteObject | Ack-5.5/lib/wr.c:150-398 | A whole run, in any order of calls that stays within the parts of the cursors: the file is what a writer without buffers writes with the same offsets, and nothing lies beyond. |
| Placement.OwnExactly | Ack-5.5/lib/wr.c:274-301 | If every visit brings something, all bytes of all calls go to their own places exactly if, at every entry from section 0 or 1 into a shared section, its end is where the cursor was left. |
| Placement.SameIsOwn | Ack-5.5/lib/wr.c:274-301 | If it is always entered at the section where it was left, all bytes go to their places, also with visits that bring nothing. |
| Tours.PennedIsToured | Ack-5.5/lib/wr.c:274-398 | Where the bytes of the sections go depends on the visits alone, however they are divided into calls and whatever goes to the tables between. |
| Tours.WriteAnyway | Ack-5.5/lib/wr.c:150-398 | The file shows the sections' bytes where the visits, one after the other, have written them. |
| OutputFile.InPlaceExactly | Ack-5.5/lib/wr.c:274-301 | With the offsets of complete_sections: all bytes go where the file has them exactly if the ends meet by these offsets. |
| OutputFile.OffsetsFit | Ack-5.5/include/out.h:117-121 | The offsets that are computed from the counts are where the regions start when nothing is left between them. |
| OutputFile.FileIsFlat | Ack-5.5/include/out.h:117-121 | A file in which every region is full is the pieces one after the other. |
| OutputFile.WriteFile | Ack-5.5/ld/write.c:31-40 | If the ends meet, the file is header, table, sections, entries, names and strings, piece after piece. |
| NameFormat.NameCpy | Ack-5.5/ld/memory.c:610-620 | Offsets in the areas of the characters become those of the strings in the file; none stays none. |
| NameFormat.SameBytes | Ack-5.5/lib/wr.c:352-378 | Two names have the same record exactly if type, description and value agree in the widths of the format. |
| ObjectFormat.GetPut | Ack-5.5/lib/obj.h:22-49 | A value v that is put in w bytes is got back modulo 256^w, so exactly if 0 <= v < 256^w. |
| ObjectFormat.ExpandTable | Ack-5.5/lib/rd.c:198-243 | Packed records are expanded into wider structs in the same memory, from the back, and every field is the one of the file. |
| ObjectFormat.ReadTable | Ack-5.5/lib/rd.c:47-243 | What was encoded is read again, field by field, modulo 256 to the power of its width, so each exactly if it fits. |
| ObjectFormat.ValueMinusOne | Ack-5.5/lib/obj.h:22-49 | A name with the value -1 is read back with 0xFFFFFFFF. |
| ObjectFormat.RegionHolds | Ack-5.5/lib/wr.c:315-386 | The region of the file for a table holds the encoded records, so that the reader finds them. |
| EntryFormat.EntriesAreRecords | Ack-5.5/lib/wr.c:330-341 | The entries of the output are records of that format. |
| Archive.WantedIs | Ack-5.5/ld/archive.c:97-102 | A name is wanted exactly if some module mentions it and none defines it, in whatever order they came. |
| Archive.Scan | Ack-5.5/ld/archive.c:87-129 | One scan loads only members that every solution must have, each once; if it resolves nothing then nothing in the table is wanted. |
| Archive.Arch | Ack-5.5/ld/archive.c:78-134 | Rescanning ends; nothing that the table could provide is wanted; no member is loaded twice; with an exact table the least closed set is loaded. |
| Archive.LoadedIsLeast | Ack-5.5/ld/archive.c:68-77 | What is loaded depends on what the table says, not on the order of its lines. |
| Archive.Notes.NoteArchive | Ack-5.5/ld/archive.c:140-148 | The positions of an archive are noted, in order, and closed by ENDLIB. |
| Archive.Notes.Arch2 | Ack-5.5/ld/archive.c:162-180 | The second pass replays, for each archive, exactly the members of the first pass in their order. |
| PageCache.Cache.FindPage | v6/ld.c:747-760 | A page of the file is found or loaded; a page that a stream uses is never replaced. |
| PageCache.Cache.TwoUsers | v6/ld.c:742-774 | The use counts of the two pages and of the empty one always sum to two, so that one of the pages is free when a stream looks for one. |
| PageCache.Cache.Dseek | v6/ld.c:742-774 | The stream stands at the byte asked for and has the words that are left of the file; the other stream is not disturbed. |
| PageCache.Cache.Get | v6/ld.c:776-794 | The next word of the stream, exactly if it has one; the other stream is not disturbed. |
| PageCache.Cache.Mget | v6/ld.c:702-726 | The next n words, exactly if there are so many. |
| PageLoad.Load2td | v6/ld.c:562-624 | Every word of text or data is copied or relocated as its relocation word says, while two streams share two pages: it moves as what it refers to, less what it moves itself if it is relative; it ends early exactly if a word is missing or cannot be relocated. |
| PageLoad.FixIsRight | v6/ld.c:598-618 | One word, for every kind of relocation word: what is added modulo 2^16, and what the relocation word names afterwards: the same section, the section of a defined symbol, or the slot of an undefined one. |
| OldSymbols.NotThere | v6/ld.c:823-843 | An open-addressed search that meets a free slot means that the name is not in the table. |
| OldLink.Table.Lookup | v6/ld.c:823-843 | The slot of the name, or the free slot where it belongs; the search ends. |
| OldLink.Table.Enter | v6/ld.c:855-866 | A new symbol is appended and found from then on, exactly if the table is not full. |
| OldLink.Table.Load1 | v6/ld.c:274-336 | The symbols of a module are merged; a library member that defines nothing wanted is taken back, and the slots are exactly as before. |
| OldLink.RunFirstPass | v6/ld.c:242-336 | load1 over any inputs, in place: the table is that of the first pass as a function, exactly if it never overflows. |
| OldLink.RejectionLeaves | v6/ld.c:304-335 | A rejected member leaves with every undefined symbol the largest size that it mentions; the table is as it was exactly if no common symbol of it is larger than the undefined entry of its name. |
| OldLink.CommonRejected | v6/ld.c:330-335 | A member with a common symbol of size 4, rejected: the symbol that was undefined and of no size has size 4. |
| OldReports.RejectedHides | v6/ld.c:349-353 | A missing name is taken off the list of the missing ones by a rejected member exactly if that has it as a common symbol; it is then common. |
| OldReports.MissingHidden | v6/ld.c:349-360 | A program that mentions a name nobody defines, and such a member: only the program is loaded, and nothing is reported missing. |
| OldLink.FirstPassFrom | v6/ld.c:274-328 | Every defined symbol is the relocated occurrence in a loaded module that it comes from. |
| OldLink.PassesAgree | v6/ld.c:510-560 | For any origins, the second pass computes for that occurrence exactly the final symbol, so it is not reported as multiply defined. |
| OldOrigins.RunMiddle | v6/ld.c:338-434 | In place: the options that are left, and the final type and value of every symbol; text starts at 0, data after it, on a page of 8192 with -n, at 0 with -i; the common symbols lie between the data and the bss of the modules. |
| OldOrigins.CommonsRight | v6/ld.c:364-432 | On the final values: the first common symbol is where the data ends, every other one where the one before it ends (made even), and the bss of the modules begins where the last one ends. |
| OldOrigins.CommonsBeforeBss | v6/ld.c:364-432 | If it fits in sixteen bits, a common symbol with its size lies after the data and before every symbol of the modules' bss. |
| OldOrigins.EndsRight | v6/ld.c:373-384 | _etext, _edata and _end, if they are open, get the ends of text, data and bss. |
| OldOrigins.MissingStays | v6/ld.c:349-360 | With something missing, and only then, the output becomes relocatable: data and bss follow the text, and common symbols stay as they are. |
| OldMiddle.Check | v6/ld.c:349-360 | Something undefined, other than the linker's own names, makes the output relocatable and drops -d, -n, -i and -s. |
| OldMiddle.Assign | v6/ld.c:364-384 | Common symbols get offsets one after the other; _etext, _edata and _end are defined if they are there and undefined. |
| OldMiddle.MiddleAgrees | v6/ld.c:338-434 | At the origins that this computes, with its rounding for -n and -i, the second pass finds for every defined symbol exactly its final value. |
| OldMiddle.CommonsApart | v6/ld.c:364-371 | The offsets that common symbols get, before the origins are added: if they fit, no two overlap. |
| OldAddresses.ModuleMoves | v6/ld.c:505-513 | What load2 adds in text, data and bss of a module is what takes its parts to their places, after those of all modules before it. |
| OldAddresses.SecondPassPlaces | v6/ld.c:514-549 | Every symbol that load2 reads again gets the place where its byte goes. |
| OldAddresses.AfterMiddle | v6/ld.c:338-434 | After middle every symbol that the modules define has the place where the byte of its definition goes. |
| OldWords.ReadSymbols | v6/ld.c:514-549 | A module's symbols are read again: exactly the undefined ones get their numbers and places in the table, exactly the definitions that differ are reported; it ends the program exactly if a name is missing or there are too many. |
| OldWords.WordRight | v6/ld.c:562-624 | A word that refers to a byte of the module, from its own place if it is relative, refers to that byte's place in the output; one that refers to an external symbol refers to the symbol's final value, or names its slot. |
| OldWords.Load2 | v6/ld.c:505-560 | In place, from the pages of the file: all words of text and of data of a module become so. |
| OldLocals.CountAll | v6/ld.c:291-328 | The number of local symbols that load1 counts, and so where the table begins in the output. |
| OldLocals.WriteAll | v6/ld.c:524-530 | What load2 writes has that many symbols, each of a module with its place; so that slot nsym + e of the output is symbol e of the table. |
| OldReports.Reports | v6/ld.c:530-549 | When load2 reports a definition: if the first pass has one, exactly if type or value differ from it; if it has none, the name stayed common or undefined, all definitions are text, and every one is reported, but for an _etext that is right. |
| OldReports.OnlyDefinition | v6/ld.c:315-316 | A common symbol and one definition of it, in text: the only definition is reported as multiply defined. |
| Alu8086.Cpu.Add | 7run/i8086/VM.inst.cpp:204-209 | Sum, carry, half carry and overflow are those of unsigned and signed arithmetic. |
| Alu8086.Cpu.Adc | 7run/i8086/VM.inst.cpp:226-230 | The same with the carry, for every operand and both widths. |
| Alu8086.Cpu.Sub | 7run/i8086/VM.inst.cpp:266-271 | The same for the difference and the borrow. |
| Alu8086.Cpu.Sbb | 7run/i8086/VM.inst.cpp:239-243 | The same with the borrow. |
| Alu8086.Cpu.AddNumber | 7run/i8086/VM.inst.cpp:204-230 | A chain of add and adc adds numbers of any length: the carry is that of the whole and the overflow flag tells exactly whether the signed sum fits. |
| Alu8086.Cpu.SubNumber | 7run/i8086/VM.inst.cpp:239-271 | The same for sub and sbb. |
| PdpDecode.DecodeLocal | 7run/PDP11/disasm.cpp:9-251 | What is decoded depends on no more bytes than those looked at, which for an operand of mode 1 on the pc are two more than the instruction is long. |
| PdpDecode.DecodeWellMade | 7run/PDP11/disasm.cpp:9-251 | Every instruction is as long as its word and the words of its operands. |
| PdpDecode.ExtentIs | 7run/PDP11/disasm.cpp:9-251 | The decoder looks at no more than the instruction itself, but for the word after it exactly when an operand has mode 1 on the pc. |
| PdpMachine.Instr | 7run/PDP11/VM.inst.cpp:35-542 | No instruction changes memory but by its one store. |
| PdpMachine.CallReturns | 7run/PDP11/VM.inst.cpp:97-107 | rts undoes jsr: all registers are as they were, through any link register but the stack pointer, unless the stack pointer is 1. |
| PdpPlaces.AddrByRule | 7run/PDP11/VM.cpp:69-99 | Every address mode but the first, on every register but the pc: address and register afterwards are those of the machine's rule. |
| PdpPlaces.PcByRule | 7run/PDP11/Operand.cpp:14-52 | Operands on the pc, which the emulator makes when it decodes, give what the same rule gives for the pc, but for the modes 4 and 5. |
| PdpArithmetic.SingleDoes | 7run/PDP11/VM.inst.cpp:140-177 | clr, com, inc, dec, neg, adc, sbc and tst: what the place of the operand holds afterwards, and the flags, as arithmetic on what it held. |
| PdpArithmetic.SignRight | 7run/PDP11/VM.inst.cpp:149-173 | For inc, dec, neg, adc and sbc, N is the sign of what is stored, and blt and bge go by the true result, exactly if V is not set. |
| PdpArithmetic.IncTooLarge | 7run/PDP11/VM.inst.cpp:149-153 | inc of 0x7FFF: blt is taken although the sum is positive. |
| PdpArithmetic.ComZero | 7run/PDP11/VM.inst.cpp:144-148 | com never sets Z, which is right exactly if the operand is not 0xFFFF. |
| PdpArithmetic.DoubleDoes | 7run/PDP11/VM.inst.cpp:234-265 | mov, cmp, bit, bic, bis and add: the place of the destination and the flags, by unsigned and signed arithmetic and by bits. |
| PdpArithmetic.ClearBits | 7run/PDP11/VM.inst.cpp:249-258 | Bit by bit, what bic and bis make of their operands. |
| PdpArithmetic.SubDoes | 7run/PDP11/VM.inst.cpp:523-529 | sub stores the difference where its destination is when it is evaluated again, and so in its place if that does not move a register. |
| PdpArithmetic.SubBeside | 7run/PDP11/VM.inst.cpp:523-529 | For destinations (r)+ and -(r) the place that was read keeps its value; the difference would be the same exactly if the source is 0. |
| PdpBranches.ComparedBranches | 7run/PDP11/VM.inst.cpp:91-126 | After cmp, every conditional branch decides the order of the operands, signed or unsigned, that it is named for. |
| PdpBranches.AddedBranches | 7run/PDP11/VM.inst.cpp:259-265 | After add, blt and bge go by the signed sum however large, bcs and bvs tell whether the unsigned or the signed sum fits. |
| PdpBranches.TestedBranches | 7run/PDP11/VM.inst.cpp:174-177 | After tst, the branches go by the signed number. |
| PdpBranches.BranchExecutes | 7run/PDP11/disasm.cpp:31-33 | A branch, fetched, decoded and executed, goes two bytes further and by twice its signed offset if it is taken; nothing else changes. |
| PdpBranches.SobExecutes | 7run/PDP11/VM.inst.cpp:343-346 | sob takes one from its register and goes back by twice its offset until that is 0. |
| PdpBranches.DoubleExecutes | 7run/PDP11/disasm.cpp:9-14 | The instructions with two operands, from the words in memory: source words, destination words, and what the place holds afterwards. |
| PdpBranches.OperandSays | 7run/PDP11/Operand.cpp:14-52 | Mode, register, length and index of an operand, from its six bits and its word. |
| PdpBranches.SingleExecutes | 7run/PDP11/disasm.cpp:16-19 | The same with one operand. |
| PdpCalls.JmpExecutes | 7run/PDP11/VM.inst.cpp:50-52 | jmp goes on at the address of its operand; nothing is stored. |
| PdpCalls.JsrExecutes | 7run/PDP11/VM.inst.cpp:127-139 | jsr goes on at the address of its operand, with the place after it in the link register and the old link on the stack. |
| PdpCalls.RtsExecutes | 7run/PDP11/VM.inst.cpp:55-59 | rts goes on where the link register says, and gets the register back from the stack. |
| PdpCalls.MarkExecutes | 7run/PDP11/VM.inst.cpp:220-226 | mark takes its number of words off the stack, goes on where r5 says, and gets r5 from the stack. |
| PdpCalls.CodeExecutes | 7run/PDP11/VM.inst.cpp:62-72 | Each of the instructions that set or clear flags changes exactly the flags whose bits it has. |
| PdpBytes.MovbDoes | 7run/PDP11/VM.inst.cpp:498-502 | movb puts the byte in its place; in a register it is extended by its sign. |
| PdpBytes.ComparedBytes | 7run/PDP11/VM.inst.cpp:503-508 | After cmpb, every conditional branch decides the order of the bytes. |
| PdpBytes.SingleByteDoes | 7run/PDP11/VM.inst.cpp:411-451 | clrb, incb, decb and tstb on the byte that the place holds. |
| PdpBytes.SwabDoes | 7run/PDP11/VM.inst.cpp:75-84 | swab exchanges the bytes of its word, with Z and N by the whole of it. |
| PdpBytes.SxtDoes | 7run/PDP11/VM.inst.cpp:229-232 | sxt fills its word with N. |
| DecodeCache.VM.Run1 | 7run/PDP11/VM.inst.cpp:10-35 | One instruction: a decoded entry is used if there is one, whatever the text is by now. |
| DecodeCache.MissesIsClean | 7run/PDP11/VM.inst.cpp:10-35 | A step whose store is apart from the bytes of every instruction executed up to then, or any step of a split image, changes none of those bytes. |
| DecodeCache.FreshExactly | 7run/PDP11/VM.inst.cpp:10-18 | For any program and number of steps: the cached run always uses the instruction that fresh decoding gives exactly if whatever is executed again still decodes as it did before; and then both runs are the same, state by state. |
| DecodeCache.MissesIsFresh | 7run/PDP11/VM.inst.cpp:10-35 | That is so with a split image, or if no store hits the bytes of an instruction that was executed. |
| DecodeCache.RunCached | 7run/PDP11/VM.cpp:98-100 | Any program, any number of steps, with the cache in an array: if whatever is executed again still decodes as before, the result is that of fresh decoding. |
| StaleEntry.FreshClearsR1 | 7run/PDP11/VM.inst.cpp:10-18 | A program that overwrites an instruction of its loop, started as the loader starts it: decoded afresh, the second round clears r1. |
| StaleEntry.CachedKeepsR1 | 7run/PDP11/VM.inst.cpp:10-18 | With the cache it does not; the runs differ, and the condition fails in the fifth step. |

## Left out

- The table of pieces is a `seq` field of `Core`, not an array; core itself is an array.
- Sixteen-bit counters (nsect, nrelo, nname) and the overflow of long offsets in the younger linker: its sizes and offsets are unbounded, and only the bytes of the header have two for a counter.
- InitCore: brk itself and the statistics; the limit of core is a parameter, and a system that refuses even the smallest start, with which the source ends, is a precondition.
- Options -u, -s and -S, library search paths, symbolic debugging (SYMDBUG), and symbols of type S_CRS.
- Messages and the exit status: errors end in a result or a flag.
- ReReadCalls: no relocated datum may lie in two blocks, because the code then works on bytes beyond those that were read (`Straddling.BlocksFit` says that this is exactly when); what they are the model cannot say.
- LinkAgainAnyway: a visit that would leave the part of its cursor is excluded, for then it depends on the moments at which buffers are written what stays in the file.
- LinkToFile and LinkAgainToFile: without -s; the part of on_type that is for debuggers is a number that is added.
- The variants of wr.c and rd.c for one file descriptor (OUTSEEK) and for other byte orders; short reads and failing writes, for a file is a sequence of bytes.
- Modules are as the assemblers write them: an entry refers to a section name, an external name or the end of the table, and data lie in their section and do not overlap.
- PartialLinkTransparent: no name may be defined both in the part and in a module before it; the linker complains of such a name.
- LinkAll: links modules that are given; choosing them from archives is `Arch`, and reading them from files is not modelled. Saved names have their strings in them.
- Arch: the table of contents has to be true, for otherwise the rescanning need not end; getsymdeftable and archive headers are not modelled.
- The older linker's archives (the date check and getfile), its output buffers (mput), the header of its output and the zeros after its text, and load1 of a module without relocation bits. Load2: the header and the symbols of a module are given; its text, data and relocation words come from the pages.
- CountAll: as long as the bytes of the local symbols are below 2^15.
- Of the 8086, only add, adc, sub and sbb, without parity and the other flags.
- Instr: rotations and shifts, multiplication and division, exclusive or, most byte instructions and the system calls are a parameter, which may change registers and flags and store once. Bytes that would lie beyond the end of memory are dropped; a system call that loads another program is not part of a run.
- SingleDoes and DoubleDoes: for a destination in a register but the pc, or in a word that lies in memory; a jump by writing the pc has no place to be read again.
- CallReturns and JsrExecutes: jsr through the stack pointer is excluded; there the source leaves the order of two side effects to the compiler.
- RunCached: the machine is a value; in the emulator it is updated in place. The cache is an array.

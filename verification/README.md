# Verification model of mida

mida dumps a protected Windows program from memory and turns the dump into a PE file that loads again.
This project models the parts that decide whether the product is right, and proves what they promise:

- **Rewriting pipeline.** Runtime pointers are moved to the file's base (`AddressFix`), pointer slots are found by a
  stride walk and by an instruction sweep (`RelocationCollect`, `CodeScan`), a base-relocation table is printed
  (`Relocation`) and written into the file (`RelocationTable`), and gaps between sections are closed in place
  (`PackLayout`, with an image it destroys in `PackLayoutExample`). `RelocationEntries` says on the bytes of the file
  which slots and operands get an entry. `Rebase` shows that a file with such a table, mapped
  section by section, loads at any base; `Pipeline` joins all steps in the program's order, packing included, and
  `PipelineExample` takes a small dump through. `PackedCode` follows 32-bit code operands through packing
  (`PackedCodeExample` loses one), `Estimate` compares the size estimated on the dump with the table of the finished
  file (`EstimateExample` has one too small).
- **Readers.** The table walker (`RelocationWalk`, joined to the printer in `RelocationCodec`), the import-table reader
  (`ImportReader`) and the walk that finds import metadata (`ImportMetadata`, `ImportDenseMetadata`), each proved
  against what is printed; `ImportProtection` says byte by byte what that walk protects.
- **Import sections.** Two printers with their two-pass cursors (`ImportBuilder`), their formats (`ImportTable`,
  `ImportDense`), and what the system's loader reads there (`ImportLoader`); for the classic path the splitting of recorded slots into runs (`ImportRuns`) and the rewriting of the
  original address table in the dump (`ImportLookup`), joined to what the loader and the metadata walk find there.
- **Section table.** The object that creates, deletes and sanitizes sections (`Sections`) and cuts zero tails
  (`SectionTrim`, with three harmful tables in `SectionTrimExample`).
- **Separate machines.** Edit distance and suggestions (`EditDistance`), the sampling loop (`StableDump`), software
  breakpoints over target memory (`Breakpoints`), the log-driven run state and the definition of success (`RunState`).

`Words` holds little-endian words and byte buffers, `Pe` the parsed header, alignment and address translation, `Options`
optional values, `Samples` four small images that the examples parse byte by byte.

Formats follow sections 6.4 (".idata") and 6.6 (".reloc") of the Microsoft PE/COFF Specification, revision 8.3.

## How it is built

Code that changes state is modelled as methods over arrays, fields and loops; each is proved equal to a function of its
input or of the old state, and the promises are lemmas about those functions. Each rule is also stated once more on the result, in numbers, bytes and
printed text, without those functions. A result `None` or `Panic` stands for the out-of-range slice or overflow at which
the program stops. Reading memory, clocks, the instruction decoder and
the outcome of each system call are parameters.

Where the code and its own comments disagree, the code is modelled:

- `fix_hardcoded_addresses` never changes a 32-bit image: a four-byte slice does not convert to the eight-byte array it
  is read through (crates/pe/src/postprocess.rs:109). `AddressFix.RebasedIffWide` gives the exact condition,
  `AddressFixExample.NarrowCounterexample` an image that is accepted and comes out with its pointer unchanged.
- `pack_section_layout` is said to keep the headers intact, but starts laying out at offset 0
  (crates/pe/src/postprocess.rs:186). `PackLayout.HeadersHitIff` says exactly when a section is copied into the headers,
  for every list of sections in file order; outside that case `PackLayout.PackingPreserves` holds, and in it
  `PackLayout.HighSectionLandsOnHeaders` shows the section's bytes in the packed file.
  `PackLayoutExample.ImageDestroyed` is an accepted image that is none afterwards.
- `delete_section` rounds the merged size once, so the address space can get a hole.
  `Sections.DeleteContiguousIff` gives the exact condition.
- `trim_huge_sections` is said to cut zeros. It never looks at the bytes behind the last whole dword, and judges each
  section at its already shifted pointer in a buffer that has not been compacted (crates/pe/src/section.rs:248).
  `SectionTrim.RunCutsOnlyZerosIff` gives the exact condition for every run and section, `SectionTrim.FirstCutOnlyZerosIff`
  what is left of it while nothing has been cut; `SectionTrimExample.SecondCutMisjudged` and
  `SectionTrimExample.OddByteLost` lose contents.
- `trim_huge_sections` takes a section's size rounded up to the section alignment off all later pointers, while
  `create_section_index` puts new sections at the file-aligned end. `SectionTrim.RunKeepsApartIff` says exactly when the
  ranges stay apart, `SectionTrim.CreatedKeepsGappedIff` when creating a section keeps a table safe, and
  `SectionTrimExample.CreatedOverlaps` runs the dumper's own calls into an overlap.
- `scan_code_relocations` reads the file at RVAs (crates/pe/src/code_relocations.rs:100-111), but the dumper packs the
  file first (crates/pe/src/dumper/dump_process.rs:417-424). Code that stood at its addresses still does exactly if no
  executable section with contents starts more than 1 MiB behind what is laid out in front of it
  (`PackedCode.PackedCodeInPlaceIff`). Then every operand is relocated (`PackedCode.PackedOperandLoadsAtAnyBase`);
  `PackedCodeExample.OperandLost` is a file whose operand is not even looked at.
- The table's size, estimated on the dump, is called an upper bound (crates/pe/src/dumper/dump_process.rs:355-359), but
  pointers are moved to another base in between. `Estimate.EstimateHasAllIff` gives the exact condition,
  `EstimateExample.EstimateTooSmall` an estimate of nothing for a table of 12 bytes.
- `write_iat_lookup_to_dump_buf` prefers an import's ordinal, the printer its name; and a slot outside the dump leaves
  its value to the next one (crates/pe/src/dumper/import_section.rs:289-310). `ImportLookup.ClassicLoaderView` and
  `ImportLookup.InStepIff` give the exact conditions, `ImportLookup.SkippedSlotShifts` a slot with another's import.
- `set_soft_breakpoint` on a known breakpoint whose byte was overwritten saves the new byte and forgets the original.
  `Breakpoints.SetKeepsOverlayIff` gives the exact condition.
- `edit_distance_capped` short-circuits on the length gap only; within it the whole table is filled.

## Model

| member | source | states |
|---|---|---|
| Pipeline.DumpLoadsAtAnyBase | crates/pe/src/dumper/dump_process.rs:411-424 | a 64-bit dump, fixed, packed or not, given its table, mapped section by section and walked with the base difference: every slot that held runtime base + k holds base + k, for every base; slots that start in a byte of the import metadata, as ImportProtection names them, apart |
| Pipeline.RewriteDump | crates/pe/src/dumper/dump_process.rs:411-424 | running the steps one after the other on the dump succeeds and leaves exactly the file the result above is about, or the packed one when there is nothing to relocate |
| Pipeline.FinalForgetsBase | crates/pe/src/postprocess.rs:36-154 | dumps of one program taken at any two bases are finished to byte for byte the same file, with a table or, when there is nothing to relocate, without |
| Pipeline.FixedParses | crates/pe/src/postprocess.rs:36-154 | fixing leaves a file that parses to the same header |
| Pipeline.PointerFixed | crates/pe/src/postprocess.rs:108-129 | a pointer to runtime base + k becomes one to the file's base + k, in a section the collection covers |
| Pipeline.PackedParses | crates/pe/src/postprocess.rs:206-222 | the packed file parses to the old header with every section at its new start and nothing else changed |
| Pipeline.PackedRegular | crates/pe/src/postprocess.rs:184-237 | in the packed file sections lie behind the headers, inside the file and apart, in file and memory |
| Pipeline.PointerPackedAt | crates/pe/src/postprocess.rs:206-222 | a pointer keeps its place in its section and its section stays one the collection covers |
| PipelineExample.LoadsAt70000 | crates/pe/src/dumper/dump_process.rs:411-424 | a dump that meets every precondition: its pointer moves from 0x200000 to 344 in the packed file and, loaded at 0x70000, reads 0x70004 |
| PackedCode.StaysIff | crates/pe/src/postprocess.rs:184-203 | a section keeps its place exactly if it is empty or starts at most 1 MiB behind what is laid out in front of it |
| PackedCode.PackedCodeInPlaceIff | crates/pe/src/dumper/dump_process.rs:416-424 | code that stood where the scan reads it does so after packing if and only if no executable section with contents starts more than 1 MiB behind what is laid out in front of it |
| PackedCode.OperandsKept | crates/pe/src/code_relocations.rs:100-177 | under that condition the sweep sees the same operands in the packed file, with the same dwords |
| PackedCode.PackedScanNames | crates/pe/src/code_relocations.rs:85-196 | the scan of the packed file names exactly the address constants of the file before packing that point into the image and start in no byte of the import metadata |
| PackedCode.PackedOperandLoadsAtAnyBase | crates/pe/src/dumper/dump_process.rs:416-424 | an operand of a 32-bit file that pointed k bytes into the image does so at the new base after packing, the table, mapping and rebasing |
| PackedCodeExample.OperandLost | crates/pe/src/dumper/dump_process.rs:416-424 | a file outside that condition: the operand is named before packing, nothing is found afterwards, and the packed file keeps the old address without an entry |
| Rebase.LoadsAtAnyBase | crates/cli/src/dump_image.rs:140-223 | for any file whose sections lie apart, 32-bit or 64-bit, raw offsets and addresses differing or not: a slot that held the file's base + k and does not start in a byte of the import metadata holds base + k in the mapped product after the walk its directory entry leads to |
| Rebase.FlatLoadsAtAnyBase | crates/cli/src/dump_image.rs:140-223 | a file laid out as it is loaded needs no mapping: the walk over the file itself moves every slot |
| Rebase.OperandLoadsAtAnyBase | crates/pe/src/code_relocations.rs:85-196 | in a 32-bit file every code operand the scan names pointed k bytes into the image and, loaded, points k bytes into it at the new base |
| Rebase.EntryLoads | crates/cli/src/dump_image.rs:161-223 | loading takes the base difference off the word of every entry of a well-shaped table, as the file had it before the table was written |
| Rebase.FoundShaped | crates/pe/src/postprocess.rs:380-531 | whatever the code scan and the stride walk find together names slots of the pointer's width, pairwise disjoint, in sections other than the table's |
| Rebase.LoadingTouchesSlotsOnly | crates/cli/src/dump_image.rs:161-223 | that walk patches each collected slot exactly once, refuses none, and alters no byte outside them |
| Rebase.StepWritesProduct | crates/pe/src/postprocess.rs:546-712 | the table step's contract forces success and exactly the product |
| Rebase.DirectoryLeadsToTable | crates/cli/src/dump_image.rs:140-152 | the base-relocation directory entry of the product leads the rebasing to exactly that table |
| Rebase.ProductCodable | crates/pe/src/postprocess.rs:546-712 | for any well-shaped entries the mapped product carries its table whole, with slots in range, pairwise disjoint and off the table |
| Rebase.ProductParses | crates/pe/src/postprocess.rs:632-699 | the product parses to the file's header but for the sizes of the table's section |
| Rebase.MapPlaces | crates/cli/src/dump_image.rs:619-657 | copying each section's raw bytes to its address, one after the other, leaves all of them in place |
| AddressFix.FixHardcodedAddresses | crates/pe/src/postprocess.rs:36-154 | the in-place rewriting is the slot-by-slot specification, with its refusal of non-images and its panics; for a 64-bit file it ends if and only if runtime base plus image size fits in 64 bits, and then every word of a section that holds data is (v - runtime + file) mod 2^64 if it was not zero and pointed into the running image, any other word and byte as it was |
| AddressFix.TryFixAddress | crates/pe/src/postprocess.rs:108-129 | one slot: the word is replaced exactly if it is eight bytes wide and WordsMoved has it moved |
| AddressFix.WordsMoved | crates/pe/src/postprocess.rs:59-146 | for every slot of a section that holds data: a non-zero word v with runtime <= v < runtime + size becomes (v - runtime + file) mod 2^64, any other word and every byte outside these slots keeps its value |
| AddressFix.FixSlotwise | crates/pe/src/postprocess.rs:59-146 | every slot of every scanned section ends up rebased if it pointed into the running image and unchanged if not, straddling last slots included |
| AddressFix.FixFrame | crates/pe/src/postprocess.rs:59-146 | bytes outside the slots of data sections keep their values |
| AddressFix.FixingForgetsBase | crates/pe/src/postprocess.rs:59-146 | two dumps that differ only in the base their pointers count from are fixed to the same bytes |
| AddressFix.NarrowUnchanged | crates/pe/src/postprocess.rs:108-129 | a 32-bit image comes out exactly as it went in |
| AddressFix.RebasedIffWide | crates/pe/src/postprocess.rs:108-129 | a slot comes out rebased if and only if it is eight bytes wide or held no runtime pointer |
| AddressFixExample.NarrowCounterexample | crates/pe/src/postprocess.rs:36-154 | a parseable 32-bit image, accepted and scanned, comes out unchanged with a pointer to 0x500004 that should read 0x400004 |
| RelocationCollect.CollectRelocationBuilder | crates/pe/src/postprocess.rs:380-531 | the builder holds the accepted code operands (32-bit only) followed by the selected data slots, inserted in that order |
| RelocationCollect.CollectSection | crates/pe/src/postprocess.rs:499-523 | the stride walk over a section adds exactly the entries of its selected slots |
| RelocationCollect.ShouldCollect | crates/pe/src/postprocess.rs:446-492 | which sections the walk covers: data, not empty uninitialized ones, not .reloc, inside the file |
| RelocationCollect.DataHitsAre | crates/pe/src/postprocess.rs:499-523 | an entry is collected if and only if it is that of a stride slot of a covered section that points into the image and does not start in import metadata |
| RelocationEntries.DataEntriesIff | crates/pe/src/postprocess.rs:446-523 | a data entry exists if and only if a slot of a section that holds data, is in the file and is not .reloc has a word in the image and starts in no byte of the import metadata; its RVA and type are given in numbers |
| RelocationEntries.CodeNamesIff | crates/pe/src/code_relocations.rs:85-245 | the code scan of a parsed file names an RVA if and only if a swept instruction of an executable section other than .reloc has an address constant there, its dword points into the image, and it is no byte of the import metadata |
| RelocationCollect.EntriesAvoidMetadata | crates/pe/src/postprocess.rs:397-401 | no entry, of code or of data, starts inside an import-metadata range |
| RelocationCollect.RebuiltImportsKeptClear | crates/pe/src/postprocess.rs:507-521 | no entry ever starts inside a rebuilt import section within the walk's guards |
| RelocationCollect.DumpedImportsKeptClear | crates/pe/src/dumper/import_section.rs:133-200 | no entry ever starts inside the import section the dumper writes, nor among the slots its descriptors lead to |
| RelocationCollect.DataHitsSeparate | crates/pe/src/postprocess.rs:499-523 | over sections apart from each other the collected slots are pairwise disjoint, of the pointer type, and inside data sections other than .reloc |
| RelocationCollect.DataHitsFewer | crates/pe/src/postprocess.rs:533-538 | protecting more metadata only removes entries |
| RelocationCollect.EstimateRelocTableSize | crates/pe/src/postprocess.rs:539-544 | the estimate is the length of the table over the collected entries, zero for a non-image |
| RelocationCollect.EstimateCovers | crates/pe/src/postprocess.rs:533-544 | over one and the same file the estimated size is enough for the table under any further protected ranges, code operands included, in both widths |
| Estimate.EstimateHasAllIff | crates/pe/src/dumper/dump_process.rs:355-424 | across fixing and packing the estimate has every entry of the finished 64-bit file if and only if no slot outside import metadata ends up pointing into the image that did not count from the base the dump announces, or lies in a section created later |
| Estimate.MissedAtRuntime | crates/pe/src/postprocess.rs:108-129 | when the dump announces the base it runs at, those are the words that point into the image at the file's base only |
| Estimate.EstimateIsEnough | crates/pe/src/dumper/dump_process.rs:355-424 | without such a slot the finished table is no longer than estimated |
| Estimate.ListedIff | crates/pe/src/postprocess.rs:499-523 | the finished file has an entry exactly for each scanned slot of the dump, none protected, whose word the fixing leaves pointing into the image, packed or not |
| EstimateExample.EstimateTooSmall | crates/pe/src/dumper/dump_process.rs:375-380 | a dump that announces the file's base: nothing is estimated, and the finished table is 12 bytes long |
| RelocationCollect.CodeHitsFewer | crates/pe/src/code_relocations.rs:214-245 | protecting more ranges only takes code operands away |
| RelocationTable.BuildRelocationTable | crates/pe/src/postprocess.rs:546-712 | what the step leaves in each case: non-image, nothing to relocate, no .reloc section, table too large, an overflow or a directory entry outside the grown file, or the finished file |
| RelocationTable.OutcomeIs | crates/pe/src/postprocess.rs:546-693 | the three ends of the step in numbers: nothing to do, a table longer than the first .reloc section's raw size refused, a sum beyond 32 bits or a directory entry behind the grown file a stop, and else a finished file |
| RelocationTable.NoTableSection | crates/pe/src/postprocess.rs:568-577 | without a section named .reloc the file stays as it is |
| RelocationTable.WriteTable | crates/pe/src/postprocess.rs:614-699 | the growing, copying, zero-filling and the header writes are those of the finished file, in program order |
| RelocationTable.Announce | crates/pe/src/postprocess.rs:656-677 | the announced virtual size: the table's, or up to the next section when a hole would open |
| RelocationTable.WrittenFrame | crates/pe/src/postprocess.rs:616-699 | nothing changes but the table's raw region, the section's two sizes, the directory entry and the flags |
| RelocationTable.WrittenPieces | crates/pe/src/postprocess.rs:622-699 | the table, its zero fill and every rewritten field stand where they belong at the end |
| RelocationTable.FinishedFields | crates/pe/src/postprocess.rs:622-699 | the finished file, field by field at its offset: directory entry, DYNAMIC_BASE, raw size, the table with its zero fill, and a virtual size that is the table's own length if no section lies behind |
| RelocationTable.Reparsed | crates/pe/src/postprocess.rs:632-699 | parsing the finished file gives the old header with only the .reloc sizes changed; the directory names the table and DYNAMIC_BASE is set |
| RelocationTable.NoVirtualHole | crates/pe/src/postprocess.rs:635-677 | for a table that fits the room up to the next, aligned section, the announced end rounds up to exactly that section |
| RelocationTable.NextVaAbove | crates/pe/src/postprocess.rs:659-664 | the next address is the least section address above .reloc |
| RelocationTable.ReservationHolds | crates/pe/src/postprocess.rs:605-620 | a file-aligned reservation that holds the table holds its aligned size |
| PackLayout.PackSectionLayout | crates/pe/src/postprocess.rs:160-245 | the in-place packing is planning, moving one section after the other, and cutting behind the last end; a file too short for a DOS header is refused, and alignment 0 stops a run that moves something |
| PackLayout.PlanMoves | crates/pe/src/postprocess.rs:184-203 | which sections move and where, from the gap test and the running end |
| PackLayout.TurnOf | crates/pe/src/postprocess.rs:184-203 | one turn of the plan in numbers: a section more than 0x100000 behind what is laid out and in the file moves there, rounded up; where the running end goes in each case |
| PackLayout.AlignIsAlignUp | crates/pe/src/postprocess.rs:167-170 | masking off the low bits is rounding up for every alignment that is a power of two |
| PackLayout.MoveSection | crates/pe/src/postprocess.rs:206-222 | one move: bytes copied, file grown if needed, pointer field updated if its header is in the file |
| PackLayout.LastEnd | crates/pe/src/postprocess.rs:224-234 | the last end over moved and unmoved sections |
| PackLayout.PackedEnds | crates/pe/src/postprocess.rs:224-237 | the packed file ends where its last section does, or where it ended before |
| PackLayout.PackingPreserves | crates/pe/src/postprocess.rs:184-237 | every section is found whole at its new start, which is aligned if it moved, not above the old one and behind the headers; order and disjointness are kept; no pending section is overwritten |
| PackLayout.PackingKeepsHeaders | crates/pe/src/postprocess.rs:215-221 | of the headers only the PointerToRawData fields of moved sections change, and each holds the new start |
| PackLayout.HeadersHitIff | crates/pe/src/postprocess.rs:186-196 | for sections in file order, some move lands below the end of the headers if and only if the first section with contents starts more than 1 MiB behind the empty ones in front of it and their end, rounded up, lies in the headers |
| PackLayout.ReachedEmpty | crates/pe/src/postprocess.rs:191-202 | what empty sections lay out is the greatest of their offsets |
| PackLayout.HighSectionLandsOnHeaders | crates/pe/src/postprocess.rs:206-222 | in that case the packed file holds the section's own bytes there, pointer fields of moved sections apart |
| PackLayoutExample.ImageDestroyed | crates/pe/src/postprocess.rs:184-222 | an accepted image, in file order and aligned, that packing leaves with .data where its DOS header stood: it parses no more |
| Relocation.RelocationTableBuilder.AddRelocation | crates/pe/src/relocation.rs:47-50 | the entry goes to the end of its page's block, blocks staying in ascending page order |
| Relocation.RelocationTableBuilder.ScanAndAddRelocations | crates/pe/src/relocation.rs:56-100 | every stride slot that points into the image is added, in order |
| Relocation.RelocationTableBuilder.Count | crates/pe/src/relocation.rs:103-105 | the number of entries held |
| Relocation.RelocationTableBuilder.Build | crates/pe/src/relocation.rs:114-145 | the printed blocks and nothing behind them: the closing padding loop never runs |
| Relocation.PadTo4 | crates/pe/src/relocation.rs:139-142 | pads to a multiple of four and leaves an aligned table alone |
| Relocation.PrintBlock | crates/pe/src/relocation.rs:117-137 | one block: header, entries, a no-op entry when their number is odd |
| Relocation.BlockPrinted | crates/pe/src/relocation.rs:117-137 | where each number of a block stands: page, length, type times 0x1000 plus offset, and a zero entry when their number is odd |
| Relocation.InsertOrdered | crates/pe/src/relocation.rs:47-50 | adding an entry keeps pages ascending and every block on its own page |
| Relocation.InsertAllContents | crates/pe/src/relocation.rs:47-50 | whatever is added is what is held, each entry as often as it was added |
| Relocation.TableBytesAligned | crates/pe/src/relocation.rs:121-142 | every printed table is a multiple of four bytes long |
| Relocation.EstimateIsUpperBound | crates/pe/src/postprocess.rs:533-544 | a table over some of the entries, in any order, is never longer than the table over all of them |
| RelocationWalk.ApplyRelocations | crates/cli/src/dump_image.rs:161-223 | the in-place walk is its specification on every buffer, with its two counts |
| RelocationWalk.RebaseToPreferred | crates/cli/src/dump_image.rs:140-152 | the walk over the directory's table; nothing for a zero difference or an empty entry |
| RelocationWalk.ApplyBlock | crates/cli/src/dump_image.rs:188-218 | the entries of one block, stopping at the end of the table or the buffer |
| RelocationWalk.ApplyEntry | crates/cli/src/dump_image.rs:193-217 | one entry by type: patched, refused, or skipped as padding |
| RelocationWalk.EntryRule | crates/cli/src/dump_image.rs:193-217 | types 10 and 3 take the difference off eight or four bytes at page plus low twelve bits, modulo the width, and no other byte; type 0 and slots outside are left |
| RelocationWalk.WalkIsConfined | crates/cli/src/dump_image.rs:161-223 | for any table, however corrupt, the walk ends, rewrites only whole slots inside the buffer and touches no byte outside the slots it counts |
| RelocationWalk.TraceIsNamed | crates/cli/src/dump_image.rs:179-220 | a walk that keeps off its own table rewrites exactly the slots the untouched table names |
| RelocationWalk.NamedIff | crates/cli/src/dump_image.rs:161-223 | which slots an untouched table names: those of its blocks, one behind the other by their announced sizes |
| RelocationWalk.UndoRestores | crates/cli/src/dump_image.rs:161-223 | when slots are equal or disjoint and avoid the table, delta and then -delta restore the buffer exactly, with equal counts |
| RelocationCodec.TableCodec | crates/pe/src/relocation.rs:103-145 | walking the printed table of any added entries patches each slot once, refuses none, counts as many as were added and alters nothing else |
| RelocationCodec.PrintedWalk | crates/cli/src/dump_image.rs:161-223 | the walk over a printed table visits exactly its entries, in printed order |
| RelocationCodec.WordRoundTrip | crates/pe/src/relocation.rs:132-136 | type and offset survive the 16-bit entry word |
| CodeScan.ScanCodeRelocations | crates/pe/src/code_relocations.rs:85-196 | the result is strictly increasing by RVA, has exactly the hits of the sweep, and names an RVA if and only if ScanNamesIff says so |
| CodeScan.ScanNamesIff | crates/pe/src/code_relocations.rs:85-211 | an RVA is named if and only if an instruction the sweep comes to has a four-byte displacement there, or a four-byte immediate and is not a near branch that calls or jumps, in an executable area in the file; its dword lies between the image's two ends, and it is not rejected |
| CodeScan.SweepIs | crates/pe/src/code_relocations.rs:115-176 | the sweep comes to exactly the places reached from the area's start by whole instructions, and by one byte where nothing decodes |
| CodeScan.Collect | crates/pe/src/code_relocations.rs:214-245 | one field: kept if it lies in the instruction, points into the image and is not protected |
| CodeScan.CollectInsn | crates/pe/src/code_relocations.rs:147-174 | displacement first, then an immediate that is no branch target, as ScanNamesIff spells out |
| CodeScan.ScanArea | crates/pe/src/code_relocations.rs:111-177 | the resynchronising sweep over one section |
| CodeScan.HitsAreOperands | crates/pe/src/code_relocations.rs:85-196 | the scan over all areas before sorting: the same equivalence in terms of the sweep, each hit with the dword that stands there |
| CodeScan.OperandsDisjoint | crates/pe/src/code_relocations.rs:115-177 | over disjoint sections no two named dwords overlap |
| CodeScan.SweepSteps | crates/pe/src/code_relocations.rs:115-176 | the sweep steps by whole instructions |
| CodeScan.SortByRva | crates/pe/src/code_relocations.rs:193 | ascending by RVA, with the same hits |
| CodeScan.DedupByRva | crates/pe/src/code_relocations.rs:194 | strictly increasing, with the same hits when equal RVAs carry equal targets |
| ImportBuilder.ImportTableBuilder.Measure | crates/pe/src/import_table.rs:283-316 | the measured sizes are the sizes of what is printed |
| ImportBuilder.ImportTableBuilder.BuildSectionData | crates/pe/src/import_table.rs:274-422 | the buffer filled through five cursors is the section format, region by region, at the two returned bases |
| ImportBuilder.WriteModule | crates/pe/src/import_table.rs:335-417 | one module's name, descriptor, thunks and terminators extend the five regions and disturb none |
| ImportBuilder.WriteThunk | crates/pe/src/import_table.rs:369-408 | one thunk's hint/name entry and its slot in both tables |
| ImportBuilder.ImportTableBuilder.BuildImportSectionNoIat | crates/pe/src/import_table.rs:126-246 | the interleaved section, exactly as long as measured, and the slot values for the original table |
| ImportBuilder.ImportTableBuilder.MeasureStrings | crates/pe/src/import_table.rs:144-162 | the sizing pass equals the length of what the writing pass writes |
| ImportBuilder.FirstThunkOf | crates/pe/src/import_table.rs:191-199 | the lowest recorded slot, or the running offset |
| ImportDense.ModuleDescriptor | crates/pe/src/import_table.rs:184-207 | every descriptor cites its own module's NUL-terminated name; a null descriptor ends the list |
| ImportDense.ThunkSlot | crates/pe/src/import_table.rs:210-233 | a named thunk's slot value is the RVA of a zero hint and exactly its NUL-terminated name |
| ImportDense.DenseLoaderView | crates/pe/src/import_table.rs:198-242 | once the slots are in the original table, the array at a module's FirstThunk holds that module's thunks in order and then a zero |
| ImportDense.RecordsRun | crates/pe/src/import_table.rs:191-196 | in records mode the array at FirstThunk meets each thunk of a contiguous run at its recorded slot |
| ImportDense.MinAddress | crates/pe/src/import_table.rs:192-196 | the least recorded address, attained by one of the thunks |
| ImportLoader.PrintedLoads | crates/pe/src/import_table.rs:274-422 | the system's loader finds every module in the classic section: its name, and twice its thunks, by a zero hint and the name or by ordinal, up to a zero slot and a zero descriptor |
| ImportLoader.DenseImports | crates/pe/src/import_table.rs:126-246 | the same for the interleaved section, whose arrays stand in the original table |
| ImportRuns.FlattenModules | crates/pe/src/dumper/import_rebuild.rs:452-466 | all recorded thunks with their modules, of those at one address the first |
| ImportRuns.OrderedSlots | crates/pe/src/dumper/import_rebuild.rs:452-467 | in ascending order, no address twice, none lost and none made up |
| ImportRuns.FindRuns | crates/pe/src/dumper/import_rebuild.rs:469-481 | a slot extends the last run if it has the same module and the next address |
| ImportRuns.RunsKeepSlots | crates/pe/src/dumper/import_rebuild.rs:469-481 | the runs, one after the other, are the slots in their order under their modules |
| ImportRuns.RunsMaximal | crates/pe/src/dumper/import_rebuild.rs:469-481 | no run is continued by the next |
| ImportRuns.FindClusters | crates/pe/src/dumper/import_rebuild.rs:483-498 | a run extends the last cluster if it starts where that one's terminator would stand |
| ImportRuns.ClustersKeepRuns | crates/pe/src/dumper/import_rebuild.rs:483-498 | the clusters, one after the other, are the runs in their order |
| ImportRuns.ChooseModule | crates/pe/src/dumper/import_rebuild.rs:514-529 | the first module of the cluster under which all of it can be expressed, each name tried once |
| ImportRuns.MergeThunks | crates/pe/src/dumper/import_rebuild.rs:533-536 | a merged cluster's thunks in slot order |
| ImportRuns.NormalizeModuleRuns | crates/pe/src/dumper/import_rebuild.rs:443-563 | the builder's modules give way to one for each cluster that can be described |
| ImportRuns.NormalizedSeparated | crates/pe/src/dumper/import_rebuild.rs:423-428 | for slots of one table every descriptor is a run without a gap, and the slot behind it is free for its terminator and lies in front of all later runs |
| ImportRuns.NormalizedPairs | crates/pe/src/dumper/import_rebuild.rs:513-541 | a descriptor lists a thunk only if it was recorded under that module, or is a recorded one whose name the module exports |
| ImportRuns.SlotDescribedIff | crates/pe/src/dumper/import_rebuild.rs:500-551 | a recorded slot gets a descriptor if and only if its run stands alone or some module of its cluster recorded or exports every slot of it |
| ImportRuns.MergedName | crates/pe/src/dumper/import_rebuild.rs:513-541 | a merged cluster goes under the first of its modules that can express all of it |
| ImportRuns.FirstKept | crates/pe/src/dumper/import_rebuild.rs:452-466 | of the thunks recorded for one address the first is kept |
| ImportRuns.SlotCluster | crates/pe/src/dumper/import_rebuild.rs:469-498 | every recorded slot, duplicates apart, is in a run of some cluster |
| ImportLookup.WriteIatLookup | crates/pe/src/dumper/import_section.rs:249-355 | the in-place rewriting of the address table is its module-by-module specification |
| ImportLookup.WriteThunks | crates/pe/src/dumper/import_section.rs:278-310 | one module's slots, those outside the dump passed over, and their lowest and highest address |
| ImportLookup.ClearGaps | crates/pe/src/dumper/import_section.rs:312-331 | the slots of the span that no thunk owns are zeroed |
| ImportLookup.GapsCleared | crates/pe/src/dumper/import_section.rs:312-331 | a byte is zeroed if and only if it is in a slot of the span that lies in the dump and that no thunk owns |
| ImportLookup.ModuleClears | crates/pe/src/dumper/import_section.rs:276-347 | one module's turn outside its own slots and its terminator: on the classic path exactly the unowned slots between its least and greatest address are zeroed, on the other nothing changes |
| ImportLookup.OwnedIff | crates/pe/src/dumper/import_section.rs:260-271 | on the classic path a slot is owned if and only if some thunk was recorded there; on the other none is |
| ImportLookup.EndsAre | crates/pe/src/dumper/import_section.rs:276-310 | the span goes from the least to the greatest address of the thunks |
| ImportLookup.InStepIff | crates/pe/src/dumper/import_section.rs:276-347 | the walk takes the printer's values in step with its modules if and only if every slot lies in the dump |
| ImportLookup.SkippedSlotShifts | crates/pe/src/dumper/import_section.rs:289-310 | a slot that gets the import of one outside the dump |
| ImportLookup.ClassicLoaderView | crates/pe/src/dumper/import_section.rs:242-248 | over separated runs the array at a descriptor's FirstThunk ends in a zero behind its own slots, each of which holds its own import if and only if that was not recorded both by name and by ordinal |
| ImportLookup.NormalizedLoaderView | crates/pe/src/dumper/import_rebuild.rs:423-428 | whatever was recorded for one table: normalized, printed and written, every walked array contains exactly its own thunks |
| ImportLookup.RecordsRebuilt | crates/pe/src/import_table.rs:191-196 | records mode: a file that carries the rewritten runs is one whose import section and slots the metadata walk covers |
| ImportReader.ReadImportTable | crates/pe/src/original_imports.rs:72-157 | the descriptor walk is its specification on every section, with the panic on a name past its end |
| ImportReader.ReadThunks | crates/pe/src/original_imports.rs:101-150 | the thunk walk up to the first zero or the end of the section |
| ImportReader.ReadThunk | crates/pe/src/original_imports.rs:122-146 | the text of one thunk: ordinal, name, or none |
| ImportReader.ThunkReads | crates/pe/src/original_imports.rs:122-146 | what a thunk reads as, by its top bit, its bounds and the byte it leads to |
| ImportReader.OrdinalsDiffer | crates/pe/src/original_imports.rs:122-130 | an ordinal's text is # and decimal digits that denote it, so different ordinals read differently |
| ImportReader.StopsIff | crates/pe/src/original_imports.rs:72-100 | the walk stops the program if and only if a descriptor it comes to has its name past the section's end |
| ImportReader.ReadCString | crates/pe/src/original_imports.rs:168-175 | the bytes up to a NUL or the end |
| ImportReader.ImportRoundTrip | crates/pe/src/original_imports.rs:72-157 | for every list of modules and both widths, reading a printed section back gives the modules in order, names cut at NULs, up to the first nameless one |
| ImportReader.PlainRoundTrip | crates/pe/src/import_table.rs:274-422 | modules with plain names and named or ordinal thunks come back whole and in order; only those without thunks are dropped |
| ImportReader.AddedRoundTrip | crates/pe/src/import_table.rs:92-100 | modules given under any names, which the builder lower-cases, come back under the names it holds |
| ImportMetadata.ImportMetadataRanges | crates/pe/src/postprocess.rs:268-355 | the guarded walk is its specification on every file, whose bytes SpansAre names |
| ImportMetadata.WalkSlots | crates/pe/src/postprocess.rs:328-348 | the cited strings and the size of one thunk table, at most 4096 slots; SpansAre bounds both from above |
| ImportMetadata.MeasureString | crates/pe/src/postprocess.rs:283-292 | the length up to a NUL among the first 256 bytes |
| ImportMetadata.SectionCovered | crates/pe/src/postprocess.rs:294-352 | on a printed section within the guards the ranges cover every byte |
| ImportProtection.SpansAre | crates/pe/src/postprocess.rs:268-355 | an RVA is protected if and only if it lies in one of the first 512 descriptors up to the null one, in a string these cite at or before its first NUL, its hint included, or in a table at or before its first zero slot; no other byte is |
| ImportDenseMetadata.RebuiltCovered | crates/pe/src/postprocess.rs:294-352 | with its slots in the original table, the ranges cover the whole section the dumper writes and every module's slots |
| ImportDenseMetadata.DenseRebuilt | crates/pe/src/import_table.rs:198-242 | in dense mode the returned slots, written over the original table, put every module's slots where its FirstThunk leads |
| Pe.AlignUp | crates/pe/src/utils.rs:16-26 | the least multiple at or above the value; the value itself for alignment 0 |
| Pe.AlignUpExact | crates/pe/src/utils.rs:16-26 | no multiple at or above the value is smaller |
| Pe.ParseFrame | crates/pe/src/header/mod.rs:251-360 | the parsed header depends on the bytes below its end only, not on the length of the file |
| Pe.ParseTable | crates/pe/src/header/mod.rs:262-330 | a file that agrees below the section table parses to the same header but for its own section table |
| Pe.ParseEnd | crates/pe/src/header/mod.rs:262-330 | every parsed piece lies in the file, at the offset its size fields announce |
| Pe.ImageIff | crates/pe/src/header/mod.rs:251-360 | a file parses if and only if its two signatures, its optional header and its section table are there |
| Pe.ParsedFields | crates/pe/src/header/mod.rs:262-360 | every field the steps use, with the offset and width it is read from in either format |
| Pe.ParsedSection | crates/pe/src/header/mod.rs:300-360 | every field of a section, and its name as the bytes before the first NUL of eight |
| Pe.OffsetIs | crates/pe/src/header/mod.rs:405-420 | an RVA leads where the first section that holds it stores it, and nowhere if none does |
| Sections.PeHeader.CreateSectionIndex | crates/pe/src/section.rs:78-175 | the whole new state: the section behind all others in file and memory, its name, the grown image size |
| Sections.PeHeader.DeleteSection | crates/pe/src/section.rs:191-226 | the whole new state: later pointers lowered, sizes merged and rounded, the section gone, the count lowered |
| Sections.PeHeader.Sanitize | crates/pe/src/section.rs:397-446 | the whole new state: file offsets equal RVAs, 32-bit uninitialized sections empty, header size, write access for a merged first section only |
| Sections.PeHeader.Rename | crates/pe/src/section.rs:55-63 | the name cut to eight bytes, padded, and decoded again |
| Sections.CreatedIs | crates/pe/src/section.rs:88-169 | each field of a created section as the least multiple at or above what it must reach, behind all raw ends |
| Sections.DeletedIs | crates/pe/src/section.rs:208-223 | deleting takes the bytes freed off all later pointers and rounds the merged size up |
| Sections.SanitizedIs | crates/pe/src/section.rs:402-446 | each field of a sanitized section, flags by their bits |
| Sections.CreateKeeps | crates/pe/src/section.rs:88-169 | creating keeps mirrors, order and disjointness, and a contiguous address space contiguous |
| Sections.SanitizeKeeps | crates/pe/src/section.rs:402-412 | sanitizing makes raw ranges disjoint whatever they were and keeps the address space |
| Sections.DeleteKeeps | crates/pe/src/section.rs:208-223 | deleting keeps mirrors, order and disjointness in file and memory |
| Sections.DeleteContiguousIff | crates/pe/src/section.rs:214-220 | deleting keeps the address space contiguous if and only if the section was last or rounding the merged sizes equals the sum of rounding each |
| Sections.DeleteLeavesHole | crates/pe/src/section.rs:215-219 | three contiguous sections whose middle one leaves a hole when it is deleted |
| Sections.AlignedSizeKeepsContiguity | crates/pe/src/section.rs:215-219 | an aligned preceding size meets the condition |
| Sections.RunKeepsSound | crates/pe/src/section.rs:78-446 | over any sequence of create, sanitize and delete: mirrored fields equal the header, no two sections overlap in file or memory |
| Sections.RunKeepsContiguous | crates/pe/src/section.rs:78-446 | over any sequence whose deletions meet the condition the address space stays contiguous |
| SectionTrim.TrimHugeSections | crates/pe/src/section.rs:243-333 | the loop is the section-by-section specification on every table, with the total, the IAT offset and where it stops |
| SectionTrim.TrimSection | crates/pe/src/section.rs:247-329 | one section: the zero tail, the 1 MiB threshold, the two roundings, the checked sums, the shift, the IAT adjustment |
| SectionTrim.FindZeroStart | crates/pe/src/section.rs:255-279 | where the backward scan over dwords ends |
| SectionTrim.CutRule | crates/pe/src/section.rs:255-301 | a section whose last non-zero dword leaves more than 0x100000 bytes behind it is cut there, both sizes rounded up to their alignments; any other one stays |
| SectionTrim.RunEndsIff | crates/pe/src/section.rs:289-323 | a run gets to its end if and only if no cut leaves its word, stated on the table as it was |
| SectionTrim.TrimBookkeeping | crates/pe/src/section.rs:289-332 | for every run, each raw pointer falls by the sum of the cuts in front of it, none below zero; the result is the sum of all cuts; sizes, addresses and mirrors are as stated |
| SectionTrim.CutKeepsApartIff | crates/pe/src/section.rs:295-322 | cutting a section keeps a later one apart from it if and only if that one starts behind its section-aligned end |
| SectionTrim.RunKeepsApartIff | crates/pe/src/section.rs:247-323 | a run leaves raw ranges in order and apart if and only if each section started behind the room of the one before, a cut one counting up to the section alignment |
| SectionTrim.SpacedRunEnds | crates/pe/src/section.rs:289-323 | spaced sections whose sizes round within 32 bits and which lie in the image make no run stop |
| SectionTrim.GappedSpaced | crates/pe/src/section.rs:289-323 | section-aligned gaps keep ranges apart whatever the buffer holds |
| SectionTrim.CreatedKeepsGappedIff | crates/pe/src/section.rs:133-142 | creating a section keeps such gaps if and only if the file-aligned end lies behind every section-aligned one |
| SectionTrim.TrimKeepsIat | crates/pe/src/section.rs:325-328 | an import address table in what is left of its section keeps its offset inside it |
| SectionTrim.RunCutsOnlyZerosIff | crates/pe/src/section.rs:248-301 | for every run and cut section, the bytes it loses are all zero if and only if the scan at its old place ends within what the scan at its shifted place keeps of it, and the bytes behind its last whole dword are zero |
| SectionTrim.FirstCutOnlyZerosIff | crates/pe/src/section.rs:255-286 | with nothing cut in front, if and only if the bytes behind its last whole dword are zero |
| SectionTrimExample.SecondCutMisjudged | crates/pe/src/section.rs:248-277 | two sections of which the second is cut to nothing although it ends in a byte that is not zero |
| SectionTrimExample.OddByteLost | crates/pe/src/section.rs:255-286 | a section whose last byte, behind its last whole dword, is not zero and is cut off |
| SectionTrimExample.CreatedOverlaps | crates/pe/src/dumper/dump_process.rs:187-395 | a section sanitized, another created behind it, the first one trimmed: a sound and contiguous table ends with the new section inside what the first one keeps |
| EditDistance.EditDistanceCapped | crates/cli/src/args.rs:185-202 | the two-row table gives the distance within the length gap, cap + 1 beyond it; at most cap if and only if the distance is |
| EditDistance.FillRow | crates/cli/src/args.rs:193-198 | one row of the table from the row above |
| EditDistance.LevIsShortestScript | crates/cli/src/args.rs:183-202 | the recurrence is the least length of an insert/delete/substitute script: one that long exists and none is shorter |
| EditDistance.LengthGap | crates/cli/src/args.rs:188-190 | strings are at least their length difference apart |
| EditDistance.ScoreOf | crates/cli/src/args.rs:217-221 | capping at two does not change any score that counts |
| EditDistance.ScoreIff | crates/cli/src/args.rs:217-221 | a prefix of three letters or more scores one, any other command what a script of edits needs |
| EditDistance.NeedleIs | crates/cli/src/args.rs:210-213 | what is compared: the input behind its leading slashes and dashes, in lower case |
| EditDistance.DidYouMean | crates/cli/src/args.rs:210-227 | the first command of least score among those at most two edits off, nothing if there is none or nothing was typed |
| StableDump.PreDecryptionPayload | crates/cli/src/dump_image.rs:629-655 | the interval copies section by section, sections whose bytes are not in the file skipped |
| StableDump.CopyRule | crates/cli/src/dump_image.rs:629-655 | which bytes of an interval one section fills, and from where in the file; none if its last needed byte is not in the file |
| StableDump.PayloadIsLoaderView | crates/cli/src/dump_image.rs:619-657 | the copies agree byte for byte with the loader's view: the backing file byte, or zero |
| StableDump.DumpStable | crates/cli/src/dump_image.rs:673-759 | when the loop ends, why, and with which image, over every sequence of attempts; both as its specification and as EndsStop words it |
| StableDump.EndsStop | crates/cli/src/dump_image.rs:673-759 | the loop ends at the first attempt that fails, is thirty seconds late, or equals the one before it with every payload range inside the image and different in some byte; that attempt decides exit and image |
| StableDump.UndecryptedNeverSettles | crates/cli/src/dump_image.rs:660-720 | an image with one payload range outside it or unchanged is never written as settled |
| StableDump.SuffixIsLongest | crates/cli/src/dump_image.rs:700-708 | the counter plus one is the length of the longest constant suffix of the samples |
| StableDump.SettledImage | crates/cli/src/dump_image.rs:711-720 | on a settled exit the last two samples are identical, and each payload range lies in the image with a byte image[rva + k] different from before[k] |
| StableDump.LastSampleWritten | crates/cli/src/dump_image.rs:736-758 | every exit that writes writes the last complete sample; the loop fails exactly if its first attempt does |
| Breakpoints.Debugger.SetSoftBreakpoint | crates/core/src/windows_debugger.rs:510-565 | table and memory afterwards, for every outcome of the check, the read, the write and the flush |
| Breakpoints.Debugger.ResetSoftBreakpoint | crates/core/src/windows_debugger.rs:614-638 | table and memory afterwards, for every outcome |
| Breakpoints.Debugger.ClearAllSoftBreakpoints | crates/core/src/windows_debugger.rs:573-601 | the table empty, bytes written back up to the first failing write |
| Breakpoints.SetArms | crates/core/src/windows_debugger.rs:510-565 | a set breakpoint stands as 0xCC in memory with the byte that stood there saved; no other address changes in table or memory |
| Breakpoints.SetEnds | crates/core/src/windows_debugger.rs:510-565 | which of the five ends setting has, by what the check, the read and the write did |
| Breakpoints.ResetArms | crates/core/src/windows_debugger.rs:614-638 | re-arming writes 0xCC and nothing else, or fails and changes nothing |
| Breakpoints.ClearEnds | crates/core/src/windows_debugger.rs:573-601 | a byte is back to its saved value if and only if its write was reached and done; the call fails if and only if a write did |
| Breakpoints.SetKeepsOverlayIff | crates/core/src/windows_debugger.rs:510-565 | memory under its saved bytes is unchanged, also when a transfer fails, if and only if no overwritten breakpoint is re-installed |
| Breakpoints.ReinstallForgetsOriginal | crates/core/src/windows_debugger.rs:520-540 | a breakpoint whose original byte is lost that way |
| Breakpoints.ResetKeepsOverlayIff | crates/core/src/windows_debugger.rs:614-638 | re-arming leaves it unchanged if and only if the breakpoint is known or nothing new is written |
| Breakpoints.ClearRestoresIff | crates/core/src/windows_debugger.rs:573-601 | clearing leaves memory equal to it if and only if every byte not written back was already the original |
| Breakpoints.SessionLeavesNoTrace | crates/core/src/windows_debugger.rs:510-638 | any run of setting and re-arming, then a clear whose writes succeed, leaves memory as it was before the first breakpoint |
| RunState.StripAnsi | crates/run/src/parse.rs:532-568 | the scanner with its two sequence kinds and their terminators |
| RunState.StripLeavesNoEscape | crates/run/src/parse.rs:532-568 | no escape character comes out, whatever goes in |
| RunState.ColourDisappears | crates/run/src/parse.rs:543-554 | a colour sequence disappears and the text around it stays |
| RunState.TitleDisappears | crates/run/src/parse.rs:555-565 | a window-title sequence, ended by BEL or the next escape, disappears and the text around it stays |
| RunState.SplitPrinted | crates/run/src/parse.rs:570-591 | a line in the program's own format splits into the time of day of its stamp, the level its tag GOOD, WARN, FATAL, DEBUG or any other stands for, and its message |
| RunState.Run.Feed | crates/run/src/parse.rs:275-521 | phase, kind, stored lines, outcome and error after a raw line; FatalStored, PrintedStored and UntaggedStored say them for each printed tag and message |
| RunState.FatalStored | crates/run/src/parse.rs:499-512 | a line tagged FATAL whose message starts with "Fatal error:" or "Fatal error " sets that message as the error and the run failed; a line with any other tag or message leaves the error alone |
| RunState.PrintedStored | crates/run/src/parse.rs:515-519 | a tagged line is stored behind the others with its message, its time and the level of its tag |
| RunState.UntaggedStored | crates/run/src/parse.rs:286-299 | a line without tags is stored whole if it has something printable and changes nothing else |
| RunState.MilestonesStart | crates/run/src/parse.rs:594-660 | a message starts a phase if and only if it begins with one of that phase's announcements |
| RunState.MilestoneStored | crates/run/src/parse.rs:303-365 | a tagged milestone moves the run to its phase unless a later one is reached, Done. ends it, and the five announcements of the DLL path, and no others, make the target a DLL |
| RunState.TailKept | crates/run/src/lib.rs:70-99 | the report keeps the last forty lines, or all |
| RunState.PhaseNeverDecreases | crates/run/src/parse.rs:350-365 | the phase never goes back over any sequence of lines |
| RunState.StoredLinesClean | crates/run/src/parse.rs:280-299 | no stored time or message contains an escape character; nothing stored is dropped |
| RunState.SuccessIff | crates/run/src/lib.rs:83-99 | success if and only if the exit code is 0, some line said Done., and no fatal line announced a fatal error, in any order; SuccessIffSaid has the printed lines |
| RunState.SuccessIffSaid | crates/run/src/lib.rs:83-99 | a run succeeds if and only if it exits with 0, printed a tagged line with the message "Done.", and printed no line tagged FATAL whose message starts with "Fatal error:" or "Fatal error " |

## Left out

- Overflow in release builds: sums that leave 32 or 64 bits are a precondition or a `Panic`, as in checked builds; wrap-around is modelled only where the code asks for it (64-bit deltas, 16-bit entry words, truncating stores).
- RelocationWalk.ApplyRelocations: subtracts the delta with wrap-around, as release builds do; a checked build stops when a 64-bit difference overflows.
- Pipeline.DumpLoadsAtAnyBase: says nothing about slots that start inside import metadata, whose rule tests the start only, nor about a pointer that the file's base turns into the null word, which an uninitialized section may then hide.
- Pipeline.DumpLoadsAtAnyBase: is for 64-bit dumps, since nothing is fixed on 32-bit ones (Rebase.LoadsAtAnyBase has 32-bit files whose pointers count from their own base), and maps raw bytes only: what the loader zero-fills is up to the caller.
- Rebase.OperandLoadsAtAnyBase: asks for executable sections whose raw offset is their address, since the scan reads the file at RVAs; what it makes of other bytes is not stated (PackedCode.PackedCodeInPlaceIff says when packing leaves code in place).
- RelocationCollect.EstimateCovers: compares tables over one file; Estimate.EstimateHasAllIff has fixing and packing in between, for 64-bit dumps.
- Estimate.EstimateHasAllIff: asks for a dump whose raw offsets lead to its sections' slots, bases other than 0, and import metadata protected in the dump that is still protected in the file; what a dump with other raw offsets is estimated at is not stated.
- ImportRuns.NormalizedSeparated: is for slots of one table, whose addresses leave the same remainder by the slot size; the module snapshot is a relation between module names and exported names.
- ImportLookup.ClassicLoaderView: asks for slots that lie in the dump with the one behind them, none in front of the table's start, and for a program and a host of the same pointer width; write_iat_to_output, which writes the slots once more into the file, is not modelled.
- PackLayout.PackSectionLayout: leaves out the size difference computed for a log line; the results about it ask for a file alignment that is a power of two of at most 1 MiB.
- ImportReader.ReadImportTable: starts from the section that holds the directory; finding it and reading the file are not modelled, and the slot width, that of the host program, is a parameter; names are bytes, so UTF-8 replacement and Unicode lower-casing are left out.
- ImportMetadata.ImportMetadataRanges: adds RVAs without the 32-bit overflow that an RVA near the end of the address space would meet.
- AddressFix.FixSlotwise: is for sections that share no slot; a slot that straddles into the next section's bytes is fixed twice.
- SectionTrim.TrimHugeSections: where the program stops, says nothing about the table it leaves.
- StableDump.DumpStable: takes the attempts, their times and the payload bytes before decryption as given; log lines and the digest are not modelled.
- Breakpoints.SessionLeavesNoTrace: the target does not write to its own memory in between.
- RunState.Run.Feed: leaves out the metrics, the product path and the repaint flag, which only read substrings.
- CodeScan.ScanCodeRelocations: the decoder is a parameter with a contract (non-empty instructions, disjoint constants inside them); sorting is by insertion.
- Other names are bytes too; lower case is ASCII.
- read_image, which flattens the loaded sections, and write_image, which carves payloads, are not modelled.
- rename_unnamed_sections, large_resources, packer detection, UPX decoding, API-set lookup and GetProcAddress resolution are not modelled.
- Process creation, debug events, thread contexts, hardware breakpoints and the instruction-cache flush itself are system calls.
- The GUI, the MCP server, the interactive mode, argument parsing and hash checks would only add easy members.

# A model of BFD archives, a.out links and related structures

BFD reads and writes object files and archives.  This project models the parts of it with the most
state and arithmetic, and proves what they are for:

- **Archives** (`bfd/archive.c`, `bfd/archive64.c`): the name fields, the extended name table and BSD 4.4
  names, the symbol index in its BSD, COFF and 64-bit formats, writing, opening, stepping through the
  members, fetching a member by symbol, and the element cache.
- **a.out linking** (`bfd/aoutx.h`): relocation of section contents in relocatable and final links, the
  symbols of a final link with header-file brackets and checksums, and the ZMAGIC layout.
- **Smaller structures**: the ARC global offset table (`bfd/arc-got.h`), the section list
  (`bfd/bfd-in2.h`) and the CRIS relocation records (`bfd/aout-cris.c`).

Code that changes things step by step is modelled by methods and classes, each proved against a function
of its inputs or of the old state; the promises of the source are lemmas about those functions and
invariants of those classes.

| module | what it models |
|---|---|
| `Bytes` | bytes, machine words, the C scanners |
| `ArHeader`, `ArNames`, `ArIndex`, `ArIndexWriter`, `ArWrite` | an archive being written |
| `ArPositions` | where members are against where the index says they are |
| `ArRead`, `ArSlurp`, `ArOpen`, `ArCache` | an archive being read |
| `ArRoundTrip`, `ArArchive`, `ArWhole` | written, opened and read again |
| `AoutField`, `AoutReloc` | fields of section contents and their relocation |
| `AoutTypes`, `AoutStabs`, `AoutSymbols` | symbol types, header brackets, checksums, the symbols of a final link |
| `AoutLayout` | ZMAGIC layout |
| `ArcGot`, `SectionList`, `Cris` | the smaller structures |

## What turned out to be false

Where the code does not do what its comments or its callers expect, the code is modelled as it is; a lemma
shows the failing inputs and another one the exact condition under which it works.

- The COFF and the 64-bit index ignore a name stored behind a header, and the BSD index counts contents that
  a thin archive does not hold: `ArPositions.OffsetError` gives the exact error for any archive and
  `OffsetExact` the exact condition member by member; `Fallback64Wrong` and `ThinBsdWrong` are the two failing
  families (BSD 4.4 long names in an archive that gets a 64-bit index, and contents in a thin BSD archive), and
  `Fallback64Example` and `ThinBsdExample` an archive of each.
- A relocation does not always come through a relocatable link followed by a final link:
  `AoutReloc.TwoLinks` gives the exact condition for every relocation, standard or extended, with any shift;
  `TwoLinksWhole` puts it in terms of the relocatable link alone, and `VmaDrifts` is a failing family.
- `adjust_z_magic` means to pad text only if data comes behind it, but tests an unsigned number:
  `AoutLayout.PadExact` and `TextCutShort`.
- Setting the external bit turns a weak data symbol into a weak bss symbol and a weak absolute symbol into a
  weak text symbol: `AoutSymbols.ExternalExact`.
- The CRIS reader lets the first index behind the symbol table through: `Cris.IndexAtEnd`.

## Model

| member | source | states |
|---|---|---|
| ArHeader.DecodeEncode | include/aout/ar.h:43-52 | The sixty bytes of a header are read back as the header that was written, field by field. |
| ArHeader.SizeFieldRoundTrip | bfd/archive.c:222-242 | A size can be printed in its field exactly when it is below ten to the tenth, and is then scanned back as the same size. |
| ArNames.SizeTable | bfd/archive.c:1592-1671 | The sizing pass adds up exactly the length of the table, including the reuse of repeated paths in thin archives, and repairs the name fields of members that need no table. |
| ArNames.ConstructTable | bfd/archive.c:1577-1757 | Sizing pass, allocation and filling pass agree: every store is inside the allocation, the fill ends at its end, and every header refers to its entry. |
| ArNames.EntryAtOffset | bfd/archive.c:1680-1755 | For every member that needs the table its whole entry stands in the table at the offset that its header gets. |
| ArNames.OffsetStartsEntry | bfd/archive.c:1680-1755 | That offset is the start of the table or directly behind a newline. |
| ArNames.OffsetBelow | bfd/archive.c:1680-1755 | That offset lies inside the table. |
| ArNames.RewriteTable | bfd/archive.c:1333-1345 | The reader's loop, which looks back at bytes that it may have changed, rewrites the table as a function of the original bytes alone. |
| ArNames.TableNameRecovered | bfd/archive.c:1333-1345 | A name is recovered from its offset after the rewriting if and only if it has no newline, no backslash and no slash that the rewriting would take for an end. |
| ArIndex.CollectSymbols | bfd/archive.c:2313-2446 | The index lists exactly the wanted symbols of the object files, in member order, with the right string offsets. |
| ArIndex.MapBodyLength | bfd/archive.c:2474-2490 | In each format the bytes written are as many as the size announced in the header. |
| ArIndexWriter.CheckCoffOffsets | bfd/archive.c:2738-2768 | The checking pass says that the offsets fit exactly when every symbol-bearing member starts below four gigabytes. |
| ArIndexWriter.WriteCoffOffsets | bfd/archive.c:2797-2828 | The writing pass meets the same offsets, so it never truncates one and never fails. |
| ArIndexWriter.WriteCoffArmap | bfd/archive.c:2711-2848 | The 32-bit COFF index is written if and only if every offset fits, and else the 64-bit one; writing cannot fail, and the bytes are those of the chosen format. |
| ArIndexWriter.CheckBsdOffsets | bfd/archive.c:2495-2527 | The same exact check for the BSD format. |
| ArIndexWriter.WriteBsdOffsets | bfd/archive.c:2571-2609 | The truncation error of the second pass is unreachable. |
| ArIndexWriter.WriteBsdArmap | bfd/archive.c:2474-2632 | The BSD index is written if and only if every offset fits, and else the 64-bit one; writing cannot fail. |
| ArIndexWriter.Write64Armap | bfd/archive64.c:160-264 | The bytes of the 64-bit index, with its padding, for every archive whose positions stay below two to the sixty-third, the limit of a signed file position. |
| ArPositions.PredictionExact | bfd/archive.c:2595-2609 | The writer's running position is right for a member if and only if every earlier member is accounted for; errors always go one way and never cancel. |
| ArPositions.PredictionError | bfd/archive.c:2595-2609 | For any members, whatever extra sizes they claim, the running position is off by exactly the sum of a per-member error given in closed form. |
| ArPositions.OffsetError | bfd/archive.c:2711-2828 | For any archive a stored offset is off by exactly that sum over the members in front, so it is right if and only if the sum is zero. |
| ArPositions.OffsetExact | bfd/archive.c:2711-2828 | For one symbol of the whole archive: the stored offset is the position of its member's header if and only if every member in front of it is accounted for. |
| ArPositions.IndexExact | bfd/archive.c:2474-2609 | The same for the index as a whole, in every format, thin or not. |
| ArPositions.MemberInFile | bfd/archive.c:2246-2279 | The member loop puts each member whole at the position that follows from the members before it. |
| ArPositions.Fallback64Wrong | bfd/archive64.c:220-243 | In an archive that gets a 64-bit index, every offset behind a BSD 4.4 long name points before its member. |
| ArPositions.ThinBsdWrong | bfd/archive.c:2571-2609 | In a thin archive with a BSD index, every offset behind a member with contents points behind its member. |
| ArPositions.ThinBsdExample | bfd/archive.c:2571-2609 | A thin archive of two members whose BSD index says 148 for a member at 146. |
| ArPositions.Fallback64Example | bfd/archive64.c:220-243 | A full archive of three members whose 64-bit index says 5000000212 for a member at 5000000232. |
| ArWrite.ConstructBsd44Names | bfd/archive.c:1763-1801 | Every long name or name with a blank gets its length in the name field and its extra size. |
| ArWrite.WriteHdr | bfd/archive.c:1806-1856 | A header is written exactly when its size can be printed, with the padded name behind it and counted in the size. |
| ArWrite.CopyContents | bfd/archive.c:2260-2272 | Copying by buffers copies the contents, whatever their length. |
| ArWrite.WriteMember | bfd/archive.c:2246-2279 | One member: header, name, contents and the pad byte that keeps positions even. |
| ArWrite.WriteMembers | bfd/archive.c:2246-2279 | The loop fails exactly when some size does not fit, and else writes the members one behind the other. |
| ArWrite.TableLengthExact | bfd/archive.c:2327-2330 | The length set aside for the extended name table is the length that it is written with, and even. |
| ArWrite.MakeIndex | bfd/archive.c:2190-2346 | An index is made exactly when asked for and an object file is there; old indexes at the front are dropped. |
| ArWrite.WriteFile | bfd/archive.c:2203-2279 | The whole file, or failure exactly when a size does not fit. |
| ArWrite.WriteArchive | bfd/archive.c:2145-2308 | From members to the file: names, index, name table and members, with the exact condition for failure. |
| ArRead.ShortNameExact | bfd/archive.c:588-613 | A name in the name field is read back if and only if it has no slash and no blank that would end it. |
| ArRead.FixedSpells | bfd/archive.c:1656-1670 | A name field that the sizing pass has repaired spells the name. |
| ArRead.ReadShort | bfd/archive.c:505-644 | Reading a header with a short name gives name, size and position. |
| ArRead.ReadReference | bfd/archive.c:453-485 | Reading a reference gives the string at that offset of the table. |
| ArRead.ReadExtension | bfd/archive.c:558-587 | Reading a name behind its header takes its padded length off the size and starts the contents behind it. |
| ArSlurp.Cursor | bfd/archive64.c:128-138 | Over arbitrary bytes and any number of names the walk never passes the end of the strings. |
| ArSlurp.BuildCarsyms | bfd/archive.c:1140-1152 | The loop with a moving pointer builds the symbols of the format. |
| ArSlurp.GuardsExact | bfd/archive64.c:94-112 | In wrapping 64-bit arithmetic the guards accept a count if and only if count, table and strings fit as plain integers. |
| ArSlurp.CursorAt | bfd/archive.c:1143-1152 | The walk finds every name, whatever padding follows. |
| ArSlurp.SlurpBody | bfd/archive.c:982-1157 | The three readers compute the symbols of their formats, or refuse. |
| ArSlurp.MapRoundTrip | bfd/archive.c:2571-2629 | In each format reading the written index gives back the same names and offsets, no more and no fewer. |
| ArOpen.StepsForward | bfd/archive.c:853-881 | For every file and every size in a header the next header is at least a header further on, or there is an error. |
| ArOpen.NextPosExact | bfd/archive.c:860-876 | Stepping fails if and only if the padded end does not fit in 64 bits; the one exception, a size of minus one at an even position, is named. |
| ArOpen.ListMembers | bfd/archive.c:853-881 | Stepping through any file comes to an end and yields the members. |
| ArOpen.InputArchive.SlurpMap | bfd/archive.c:1188-1253 | Which index is read by the first name, and where the members start behind it. |
| ArOpen.InputArchive.SlurpTable | bfd/archive.c:1268-1355 | The name table is read and rewritten if there is one, and the start of the members moved behind it. |
| ArOpen.InputArchive.CheckFormat | bfd/archive.c:891-925 | Opening: magic string, thin or not, index, name table, first member. |
| ArCache.Archive.LookFor | bfd/archive.c:323-344 | A hit is an open element of that position and has what reading the header would give. |
| ArCache.Archive.Add | bfd/archive.c:374-400 | The new element knows its cache and its key, and the cache knows it. |
| ArCache.Archive.GetAt | bfd/archive.c:675-800 | A hit returns the cached element and changes nothing; a miss opens exactly one new element, cached unless caching is off. |
| ArCache.Archive.OpenNext | bfd/archive.c:853-881 | The next element is at the position behind the last one, and is returned if and only if that position exists and is cached or can be opened. |
| ArCache.Archive.Close | bfd/archive.c:2871-2892 | Unlinking finds the element itself in the slot of its key and clears that slot only. |
| ArCache.Archive.CloseAll | bfd/archive.c:2919-2925 | Closing the archive closes all cached elements and no others. |
| ArCache.Archive.OnePerPosition | bfd/archive.c:374-400 | At any time at most one cached element is open for a position. |
| ArCache.Archive.Run | bfd/archive.c:675-800 | Over any run of lookups, closes and switches of caching, each lookup gives what reading the header again would give, and an element that was looked up with caching on is given again for its position until it is closed. |
| ArRoundTrip.FreshCarriable | bfd/archive.c:2039-2133 | Members with fresh headers can be carried if their names can. |
| ArRoundTrip.NamedReadable | bfd/archive.c:505-644 | Every member that can be carried is written so that its header reads back, by field, table or extension. |
| ArRoundTrip.NextIsBehind | bfd/archive.c:853-881 | Stepping over a written member comes to the next one, also with odd sizes and extended names. |
| ArRoundTrip.WalkMembers | bfd/archive.c:853-881 | Stepping through the written members yields each of them in order and then stops. |
| ArArchive.OpenWritten | bfd/archive.c:891-925 | A written archive opens with its index, its name table in memory form and its first member, unless the first member could be taken for one of these. |
| ArWhole.ArchiveRoundTrip | bfd/archive.c:2145-2308 | Writing, opening and stepping gives the members again, in order, with names and sizes, and nothing behind them; for every style, thin or not, indexed or not. |
| ArWhole.PlainFirst | bfd/archive.c:1188-1253 | A first member whose name is not reserved is not taken for an index or a name table. |
| ArWhole.FreshRoundTrip | bfd/archive.c:2145-2308 | In terms of names alone: any list of members from the file system with names that the format can carry and that are not reserved comes back whole, each with its name and contents, in order, and nothing more. |
| ArWhole.ContentsBack | bfd/archive.c:2246-2279 | The bytes at each member's position are its contents. |
| ArWhole.FetchBySymbol | bfd/archive.c:806-812 | The offset read for a symbol leads to the member that defines it if and only if the members before it are accounted for, and reading there gives that member. |
| ArWhole.CoffAccounted | bfd/archive.c:2711-2828 | On COFF targets that condition always holds. |
| ArWhole.FreshAccounted | bfd/archive.c:2571-2609 | In full archives of members from the file system the condition also holds for BSD indexes, BSD 4.4 names included. |
| ArWhole.FreshIndex | bfd/archive.c:806-812 | In such an archive every symbol of the index leads to the member that defines it, unless BSD 4.4 names meet a 64-bit index. |
| ArWhole.WriteAndList | bfd/archive.c:2145-2308 | A run of writing, opening and listing succeeds exactly when all sizes fit and the file written can be opened; if the first member is unmistakable that is exactly when all sizes fit, and the names and sizes of the given members are returned. |
| AoutField.ApplyInPlace | bfd/reloc.c:1198-1320 | A field is read, changed and written back in place, and no byte around it. |
| AoutField.InPlaceTwice | bfd/reloc.c:1308-1319 | Two values added one after the other equal one value added if and only if the sums agree in the bits of the field. |
| AoutField.ReplacedSame | bfd/reloc.c:1308-1319 | Two values replace a field by the same if and only if their difference does not reach it: what it adds above the shift, carries out of the low bits included, is a multiple of two to the bits of the field. |
| AoutField.MultipleReaches | bfd/reloc.c:1308-1319 | A difference that is a multiple of two to the shift reaches a field, whatever the value, if and only if it is not a multiple of two to the shift and the bits. |
| AoutField.FieldAfter | bfd/aoutx.h:3976-4280 | Edits of disjoint fields do not disturb each other. |
| AoutField.StretchExact | bfd/aoutx.h:4703-4771 | A section inside a larger one ends up like the section on its own exactly when each of its fields does. |
| AoutReloc.RelocateRecord | bfd/aoutx.h:4046-4175 | One relocation of a relocatable link, standard or extended: the new record and what is added to contents or addend. |
| AoutReloc.RelocateContents | bfd/aoutx.h:4176-4248 | One relocation of a final link adds to or replaces its field by the value of its section or symbol, less the place if it is relative to it. |
| AoutReloc.LinkInputSection | bfd/aoutx.h:3940-4283 | The loop over the relocations changes contents and records in place as the functions say. |
| AoutReloc.LinkRelocatable | bfd/aoutx.h:4366-4516 | The loop of a relocatable link changes contents and records as if each relocation were applied in turn to the original ones. |
| AoutReloc.LinkFinal | bfd/aoutx.h:4517-4649 | The loop of a final link applies the edits of all relocations in order. |
| AoutReloc.SectionMeaning | bfd/aoutx.h:4577-4610 | A value that stands for an address in a section, or the distance to it, stands for the new address or distance after either link. |
| AoutReloc.SymbolMeaning | bfd/aoutx.h:4526-4546 | A value that stands for an offset from a symbol stands for the address or distance after a final link. |
| AoutReloc.ValuesCompose | bfd/aoutx.h:4046-4248 | The values of both links add up to the value of the direct link plus a drift that is given in closed form. |
| AoutReloc.FieldExact | bfd/aoutx.h:4366-4649 | One field of any relocation, standard or extended, shifted or not, agrees if and only if the drift does not reach it. |
| AoutReloc.TwoLinks | bfd/aoutx.h:3940-4698 | A relocatable link and then a final link leave the same bytes at the same place as a final link alone if and only if the drift of no relocation reaches its field. |
| AoutReloc.TwoLinksWhole | bfd/aoutx.h:3940-4698 | Where drifts are multiples of two to the shift, as they are for all relocations without one, that is: if and only if each drift is a multiple of two to the shift and the bits. |
| AoutReloc.HarmlessLinks | bfd/aoutx.h:4046-4248 | They always do for absolute relocations, for PC-relative ones against sections, and for PC-relative ones against defined symbols from an input section at address zero. |
| AoutReloc.VmaDrifts | bfd/aoutx.h:4050-4163 | They never do for a PC-relative relocation, standard or extended, against a defined symbol if the input section's address is not zero in the field. |
| AoutStabs.RenumberedNumberless | bfd/aoutx.h:5136-5150 | Replacing the digit runs behind opening parentheses by any others leaves the rest of a string as it is. |
| AoutStabs.SumOfNumberless | bfd/aoutx.h:5136-5150 | The sum over a string depends on nothing but that rest. |
| AoutStabs.SumName | bfd/aoutx.h:5136-5150 | The loop over a string, with its inner loop over digits, forms that sum. |
| AoutStabs.NestedIgnored | bfd/aoutx.h:5119-5152 | From inside nested headers the sum goes on behind their end, for all nesting depths and contents. |
| AoutStabs.ChecksumInvariant | bfd/aoutx.h:5119-5152 | Headers whose own names agree apart from file numbers have the same checksum, whatever is nested in them. |
| AoutStabs.ChecksumRenumbered | bfd/aoutx.h:5119-5152 | Renumbering the files in all names of a symbol list at once leaves the checksum of every header as it is. |
| AoutStabs.ScanHeader | bfd/aoutx.h:5119-5152 | The scanning loop computes the checksum in wrapping arithmetic. |
| AoutStabs.MarkHeader | bfd/aoutx.h:5187-5208 | The marking loop marks exactly the header's own symbols and the symbol that ends it. |
| AoutStabs.CloseNext | bfd/aoutx.h:4842-4852 | A closing symbol is found marked if and only if the innermost open header was left out. |
| AoutStabs.OpenLeftOut | bfd/aoutx.h:5182-5208 | Marking a header keeps the marks of all enclosing headers right. |
| AoutSymbols.ExternalExact | bfd/aoutx.h:3644-3653 | Which symbol types survive the external bit. |
| AoutSymbols.HeadersGrow | bfd/aoutx.h:5154-5185 | More records leave the noted headers exactly those that records open, and every record of an opening symbol as it should be: the first one of a header opens it, and the others refer to it. |
| AoutSymbols.Output.WriteOther | bfd/aoutx.h:3606-3700 | A symbol from no input file gets one record, unless it has been dealt with, is stripped and not forced, or has nothing to write. |
| AoutSymbols.Output.WriteOtherSymbol | bfd/aoutx.h:3584-3701 | The same for the symbol behind a warning, and brackets and headers stay as they were. |
| AoutSymbols.Output.ForceOut | bfd/aoutx.h:4091-4109 | Relocation processing gets the record of an entry if and only if the entry has one or can have one: its existing one, or exactly one new one that its index names. |
| AoutSymbols.Output.Examine | bfd/aoutx.h:4842-5103 | What is done with a symbol, by pass-through, entry, stripping and discarding, with its type and value, and the entry that relocations against it use from then on. |
| AoutSymbols.Output.CopyHeader | bfd/aoutx.h:5154-5185 | A header is noted from then on, none other is, and none is forgotten; the symbol becomes a reference with the same name and checksum as an earlier record if and only if its header was noted before. |
| AoutSymbols.Output.CopySymbol | bfd/aoutx.h:4832-5238 | One turn of the loop: at most one record, which is owned by the entry of the symbol if it has one; the entry of the symbol map is that record or the one the entry has; and a bracket for a bracket. |
| AoutSymbols.Output.WriteSymbols | bfd/aoutx.h:4777-5256 | The symbols of a file: the symbol map leads from every symbol to its own record or the record of its entry, in input order for symbols without entries; a symbol without a record is stripped, discarded, part of a header left out, behind a symbol that redirects, or has nothing to write; indexes never change, and balanced header brackets stay balanced. |
| AoutSymbols.Output.CoveredCopied | bfd/aoutx.h:4832-5238 | One turn of the loop keeps every symbol so far accounted for, with its record, its entry and its order, and every mark justified by a reference in the output. |
| AoutSymbols.Output.Flush | bfd/aoutx.h:5240-5253 | The buffered records end up at their positions. |
| AoutSymbols.Output.RelocIndex | bfd/aoutx.h:4085-4121 | The index that a relocation gets is that of the symbol map, or the record of the entry, forced out if need be, or zero if there is nothing to attach it to. |
| AoutSymbols.Output.AttachedToEntry | bfd/aoutx.h:4085-4121 | The index of a relocation against a global symbol names the record of its entry or of the entry behind it, and is missing only if the entry behind it has nothing to write, or if the symbol map says that its own entry was ordered and has nothing to write. |
| AoutSymbols.Output.LinkInput | bfd/aoutx.h:5261-5312 | One input file with its relocations: all its symbols are accounted for and every relocation is attached to a record of its symbol or entry. |
| AoutSymbols.Output.FinalLink | bfd/aoutx.h:5322-5560 | Over a whole link: record k is at its position, every index names the record of its entry, which carries its name; of all opening symbols with one name and checksum, in whatever files, that are not behind a symbol that redirects, the first one with a record keeps it and the records of all others become references; every reference to a header has that header in front of it unless it was a reference in an input file; nothing is missing if nothing is stripped; the symbols of all files are accounted for, file after file, and their relocations attached; and brackets are balanced. |
| AoutSymbols.OnlyOnce | bfd/aoutx.h:5154-5185 | The record of an opening symbol, unless it is behind a symbol that redirects, is a reference if another such symbol with the same name and 64-bit checksum has a record in front of it, and only if some opening symbol with that name and checksum has a record in front of it that still opens the header. |
| AoutSymbols.Output.NoneTwice | bfd/aoutx.h:3584-3701 | No entry has two records. |
| AoutLayout.AoutFile.AdjustZMagic | bfd/aoutx.h:963-1067 | The layout computes addresses, file positions and header sizes in wrapping 64-bit arithmetic. |
| AoutLayout.AlignExact | bfd/bfd-in2.h:149-159 | Both alignment macros give the next multiple, away from the end of the address space. |
| AoutLayout.TextEndExact | bfd/aoutx.h:980-1021 | Padded text ends on a page boundary in both header layouts if and only if its address was set by the user or agrees with its file position up to pages. |
| AoutLayout.ContiguousReaches | bfd/aoutx.h:1030-1037 | Under contiguous mapping the text size is always the distance to data, also when that is less than the text. |
| AoutLayout.PadExact | bfd/aoutx.h:1030-1037 | Text is padded as the comment says if and only if data comes at or behind its end. |
| AoutLayout.TextCutShort | bfd/aoutx.h:1030-1037 | A layout in which text is cut short. |
| AoutLayout.DistanceKept | bfd/aoutx.h:1023-1038 | Data and text are as far apart in the file as in memory when data comes behind text. |
| AoutLayout.DataAndBss | bfd/aoutx.h:1048-1066 | Data is whole pages, and data and bss together are exactly as much as was there or more. |
| ArcGot.EntryForType | bfd/arc-got.h:80-92 | The search finds the entry of a type or shows that there is none. |
| ArcGot.NewEntryToList | bfd/arc-got.h:95-127 | A new entry goes to the end unless there is one of its type. |
| ArcGot.Got.FillForReloc | bfd/arc-got.h:218-263 | Each symbol and type gets one entry, at the old end of the table, with the relocations it needs reserved. |
| ArcGot.Got.EntriesApart | bfd/arc-got.h:199-263 | After any requests different entries occupy disjoint ranges inside the table. |
| ArcGot.Got.FixForReloc | bfd/arc-got.h:309-453 | The word of a symbol bound now is written once, and no byte outside its entry. |
| ArcGot.Got.EmitForEntry | bfd/arc-got.h:456-540 | Exactly the dynamic relocations of an entry are emitted, once. |
| ArcGot.Got.EmitForSymbol | bfd/arc-got.h:543-558 | All entries of a symbol get their relocations, in list order, within what is reserved. |
| ArcGot.Got.EmittedFits | bfd/arc-got.h:456-558 | Emitted dynamic relocations never exceed the records reserved. |
| ArcGot.DynrelocsFit | bfd/arc-got.h:456-540 | For each entry, with the same PIC flag and symbol, they need no more than was reserved for it, and apply to its own words. |
| SectionList.SplicedRepresents | bfd/bfd-in2.h:2487-2545 | Putting a section between neighbours inserts it in the sequence and makes no stale pointer look current. |
| SectionList.JoinedRepresents | bfd/bfd-in2.h:2472-2485 | Joining the neighbours removes a section from the sequence; its own pointers become stale. |
| SectionList.Bfd.Append | bfd/bfd-in2.h:2487-2502 | The section comes last in the sequence, and the pointers, stale ones included, still represent the sequence. |
| SectionList.Bfd.Prepend | bfd/bfd-in2.h:2504-2519 | The section comes first in the sequence, with the same guarantee. |
| SectionList.Bfd.InsertAfter | bfd/bfd-in2.h:2521-2532 | The section comes directly behind the given one, at the end of the list too. |
| SectionList.Bfd.InsertBefore | bfd/bfd-in2.h:2534-2545 | The section comes directly in front of the given one, at the start of the list too. |
| SectionList.Bfd.Remove | bfd/bfd-in2.h:2472-2485 | The sequence loses exactly this section, which keeps its own pointers. |
| SectionList.Bfd.RemovedFromList | bfd/bfd-in2.h:2547-2551 | For every section that ever was in the list the test is true exactly when it is not there now. |
| SectionList.Bfd.Run | bfd/bfd-in2.h:2472-2551 | After any run of edits the pointers represent exactly the edited sequence, and every section ever inserted is known, so that it can be told whether it is still there. |
| SectionList.Bfd.Sections | bfd/bfd-in2.h:2487-2545 | Following the pointers visits the sequence in order. |
| Cris.SwapOut | bfd/aout-cris.c:142-211 | Filling a record field by field gives its twelve bytes; only three types are without error. |
| Cris.Cache.SwapIn | bfd/aout-cris.c:216-266 | Reading a record fills in the relocation. |
| Cris.Cache.MoveAddress | bfd/aoutx.h:2103-2141 | The symbol that an index stands for, and the section address taken off the addend. |
| Cris.RoundTripExact | bfd/aout-cris.c:142-266 | A relocation written and read without error is the same modulo whole words if and only if its type is one of the three and its symbol is a section or an external one with an index in the table and in three bytes. |
| Cris.IndexAtEnd | bfd/aout-cris.c:250-261 | The index just behind the table is read without an error as the absolute section. |

## Left out

- Dates, owners and modes of members are opaque bytes of the header; deterministic mode, timestamps and `stat` are not modelled.
- Opening the files that thin archives name, and members of nested archives: a thin member that refers into another archive is not opened, and paths are an opaque part of a member.
- Memory allocation and input or output errors never happen.
- ECOFF and other target-specific indexes are recognised and refused; the SVR4 `/` and BSD name styles are modelled, other truncation styles are not.
- The pad character and the maximal name length are those of the archive's target, for all its members.
- `IndexFits`, `ArchiveFits` and `TableFits` say that the counters of the writers are wide enough: index and name table below two gigabytes, positions below two to the sixty-third, offsets into the name table below ten to the eleventh.
- ArPositions.PredictionExact: its condition member by member assumes `AllAsserted`, the assertion that the BSD 4.4 header writer makes about extra sizes, because otherwise errors can cancel; ArPositions.PredictionError covers all other members.
- ArPositions.OffsetExact: assumes `AllAsserted` for the same reason; ArPositions.OffsetError does not.
- ArPositions.IndexExact: assumes `AllAsserted` for the same reason; ArPositions.OffsetError does not.
- ArWrite.WriteArchive: assumes that these counters are wide enough, because the source does not check them.
- ArArchive.OpenWritten: assumes that the first member is not taken for an index or a name table, because the file format cannot tell them apart.
- Howtos whose masks are not the low bits of a field, base-relative relocations (`RELOC_BASE10`, `RELOC_BASE13`, `RELOC_BASE22`), `RELOC_SPARC_REV32`, the hooks of dynamic linking, and overflow reports, which do not change what is stored.
- Set vectors, and the linking of dynamic objects.
- The string table: a symbol's name stands for its place there.
- The fields of relocations are disjoint, and sections of one kind go to output sections of that kind.
- AoutSymbols.Output.WriteSymbols: balance is stated for all ways of stripping except stripping by name, and for files with no bracket directly behind a symbol that redirects, because the code does not keep it there.
- NMAGIC and OMAGIC layouts: they put sections one behind the other without pages in the file.
- ArcGot.Got.FillForReloc: whether a symbol can be recorded as dynamic is a parameter, because the ELF hash table is not part of this model.
- Error messages, debugging output, plugins, architecture tables, target vectors and howto tables.

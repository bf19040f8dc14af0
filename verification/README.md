# MAVMM: its boot image loader, page allocator and nested paging, verified

MAVMM is a small virtual machine monitor. This project models in Dafny the parts of it that do the hardest
computing, and proves what they do for all inputs:

- **Decompression** (`Bits`, `Bytes`, `Words`, `Huffman`, `HuftTables`, `HuftSetup`, `HuftBuild`, `HuftFits`, `Deflate`,
  `DeflateFacts`, `Encoder`, `Parsing`, `CodeTables`, `StreamErrors`, `BitBuffer`, `Window`, `Inflate`, `Crc`, `Scatter`,
  `Regions`, `Gunzip`, `Worked`, `WorkedDynamic`). The decoder of `inflate.c`, with its multi-level tables, over-reading bit buffer
  and circular window, is proved equal to a plain decoder that works on one bit stream and one output string (`Deflate.Inflated`).
  That decoder accepts exactly the lists of blocks that RFC 1951 lets an encoder write, and gives what they stand for
  (`Parsing.AcceptedIff`). `CodeTables` and `StreamErrors` state the tables and the refusals of the format in numbers, and
  `Worked` and `WorkedDynamic` prove the meaning of streams given byte by byte. The windows handed out are proved to be scattered
  over memory as the headers inside the stream say, whatever the cuts, and the table-driven CRC to be the bitwise one.
- **The page allocator** (`Bitmap`, `HostAlloc`, `AllocRuns`, `MemMap`). The bitmap, the search, runs of grants and
  releases, and the set-up from the memory map.
- **Nested page tables** (`Entries`, `PageTable`, `NestedPaging`, `TooFewPages`). Tables that are made on demand from allocator
  pages, the walker that reads them back, the identity map that leaves out the monitor itself, and exactly when that map is right.
- **Image checksum and ELF notes** (`Checksum`, `ElfNotes`, `NoteWalk`, `BootParams`; `Wrappers` serves all). The checksum of
  RFC 1071 put together from parts, the note writer of mkelfImage, and the two readers on the other side.

Code that updates memory or variables step by step is modelled by classes and methods over arrays and fields, each proved
against a function; local C arrays of huft_build are sequence variables. Numbers are unbounded except where the width shows:
the 32-bit index of the window and the undo of the look-ahead, the end offsets of flush_window, the int that allocated_in_map
and the page walker compute in, the 40-bit shift of a table address, the 32-bit rounding of note sizes.

## What the proofs found

- **allocated_in_map (kernel/alloc.c:50-58)** returns the masked 64-bit word as an int. On the 64-bit build that keeps the low
  32 bits, so the pages of the high half of every word always look free. `HostAlloc.GrantsFreeIff` and
  `HostAlloc.SafeRequestIff` say exactly which requests are always answered with free pages: an alignment that is a multiple
  of 64 pages and at most 32 pages. pg_table_alloc asks for one page with alignment one. After naive_memmap_init it is granted page 32,
  which is taken, on every call (`MemMap.OnePageAfterInit`, `AllocRuns.PagesOverlap`). The tables stay a tree exactly when no page
  is granted that is a table already (`PageTable.LinkTreeIff`). For create_2mb_nested_pagetable `TooFewPages.CreateRightIff` gives
  the exact condition: the map is the identity for every memory exactly when there are as many free pages below 32, and page 32,
  as the map needs tables. After naive_memmap_init that is never so, unless nothing is mapped at all (`TooFewPages.WrongAfterInit`).
- **huft_build (inflate.c:404-419)** may make a table below the root larger than the look-up bits when the first code in it
  already needs all of them. A link into such a table is then found in one slot of several. `HuftBuild.FitsLengths` is the exact
  condition for complete sets and for sets without unused symbols. Nothing that inflate itself builds violates it
  (`Inflate.LiteralFits`, `Inflate.DistanceFits`, `Inflate.SmallSetFits`, `Inflate.FixedSets`).
- **flush_window (kunzip.c:110-121)** may run for ever: when the end offset of a header lies behind the bytes already written by
  no more than the window index, the unsigned limit falls below n and no round changes anything (`Scatter.StuckIs`). The loop over a
  window ends exactly when no header completed in it does that (`Scatter.FlushEndsIff`); an end further behind is past the window's
  end after wrapping, and the rest of the window is written. Nine stored zeros make a valid stream on which the program never
  returns (`Gunzip.StreamHangs`), and with a longer output it never gets to report an error that follows (`Gunzip.HeaderStops`).
- **The page walker (kernel/page.c:184)** shifts a 31-bit field as an int: it returns the mapped address exactly for addresses
  below 2 GiB (`Entries.MappedExactIff`).
- **memcmp of the i386 side (linux-i386/convert_params.c:425-438)** never moves on from the first byte, so find_elf_note takes any
  name of the right length that starts the same; it finds the note asked for in every block exactly for names of at most one byte
  (`NoteWalk.FindsWantedIff`).
- **create_2mb_nested_pagetable (kernel/vm.c:129-130)** also leaves out the page just below the monitor when the monitor has
  more than one page.
- Input that RFC 1951 does not define is decoded as the program decodes it: a leading repeat code 16 repeats 0, and a distance
  past the start of the output reads zeros.

## Model

| member | source | states |
|---|---|---|
| Huffman.UnderUnique | tools/mkelfImage/kunzip_src/lib/inflate.c:466-475 | Canonical codes are prefix free: a position of the code space lies under at most one code. |
| Huffman.UnderSome | tools/mkelfImage/kunzip_src/lib/inflate.c:350-356 | A filled-out set leaves no gap: every position lies under some code. |
| Huffman.PosOrder | tools/mkelfImage/kunzip_src/lib/inflate.c:388-475 | The codes taken by length, then in order, start at ever greater positions. |
| Huffman.MatchUnique | tools/mkelfImage/kunzip_src/lib/inflate.c:388-475 | No stream starts with the codes of two different symbols. |
| Huffman.DecodeUnder | tools/mkelfImage/kunzip_src/lib/inflate.c:388-475 | The symbol a stream decodes to is the one whose code covers the position the stream points at, or none if that is a dummy code. |
| Huffman.KraftIsUsed | tools/mkelfImage/kunzip_src/lib/inflate.c:350-356 | The share of patterns that the program counts up length by length is the Kraft sum of the lengths. |
| Huffman.RankUnique | tools/mkelfImage/kunzip_src/lib/inflate.c:369-374 | A code length and a rank stand for one symbol. |
| Huffman.SymUnder | tools/mkelfImage/kunzip_src/lib/inflate.c:388-475 | A stream starts with a symbol's code exactly when its position lies under that code. |
| HuftTables.PatternInside | tools/mkelfImage/kunzip_src/lib/inflate.c:478-482 | The test of the low bits against the saved pattern asks whether the code lies in the interval of the table. |
| HuftTables.CodeAtEdge | tools/mkelfImage/kunzip_src/lib/inflate.c:472-482 | When a table is finished the next code has only zeros beyond the table's bits, so backing up stops at the right table. |
| HuftTables.SizingCovers | tools/mkelfImage/kunzip_src/lib/inflate.c:404-417 | Sizing always covers the codes below: a code inside a table fits the table's bits, or the table is full size. |
| HuftTables.SlotInCode | tools/mkelfImage/kunzip_src/lib/inflate.c:467-470 | The slots that the fill loop hits are those inside the interval of the code. |
| HuftTables.WalkFromRoot | tools/mkelfImage/kunzip_src/lib/inflate.c:542-551 | While tables are being built, walking from the root along the stack gives what the top table gives. |
| HuftTables.WalkExtends | tools/mkelfImage/kunzip_src/lib/inflate.c:434-470 | Writing only cells that were never written changes no walk that found an entry before. |
| HuftSetup.CountLengths | tools/mkelfImage/kunzip_src/lib/inflate.c:314-322 | The counts by length. |
| HuftSetup.LengthBounds | tools/mkelfImage/kunzip_src/lib/inflate.c:332-346 | The shortest and the longest length, and the look-up bits clamped between them. |
| HuftSetup.FillOut | tools/mkelfImage/kunzip_src/lib/inflate.c:350-356 | Over-subscribed exactly when the used share exceeds the whole; otherwise the dummies added make the set complete, none exactly when it was. |
| HuftSetup.FilledCompletes | tools/mkelfImage/kunzip_src/lib/inflate.c:350-356 | The filled-out counts agree with the lengths below the longest one and use up all patterns. |
| HuftSetup.Offsets | tools/mkelfImage/kunzip_src/lib/inflate.c:360-365 | Where each length starts in v[]. |
| HuftSetup.SortSymbols | tools/mkelfImage/kunzip_src/lib/inflate.c:369-374 | v[] lists the symbols by length and then in order; what lies beyond the used part is never written. |
| HuftSetup.StartDisjoint | tools/mkelfImage/kunzip_src/lib/inflate.c:360-374 | No two codes share a slot of v[]. |
| HuftBuild.TableBits | tools/mkelfImage/kunzip_src/lib/inflate.c:404-419 | The size of a new table: it ends where the codes end, or is of full size; and it keeps within the look-up bits exactly under a condition on the codes to come. |
| HuftBuild.Widen | tools/mkelfImage/kunzip_src/lib/inflate.c:409-416 | The inner sizing loop: how many bits until the remaining codes use up the remaining patterns. |
| HuftBuild.NextCode | tools/mkelfImage/kunzip_src/lib/inflate.c:472-475 | Counting up a bit-reversed code is adding one to the code. |
| HuftBuild.Backup | tools/mkelfImage/kunzip_src/lib/inflate.c:477-482 | Backing up stops at the table whose pattern matches, and never leaves the stack. |
| HuftBuild.FillExtends | tools/mkelfImage/kunzip_src/lib/inflate.c:467-470 | The fill loop writes only cells that were never written, and leaves those of later codes blank. |
| HuftBuild.SlotsVacant | tools/mkelfImage/kunzip_src/lib/inflate.c:467-470 | The slots of the code that is next have not been written. |
| HuftBuild.FillCorrect | tools/mkelfImage/kunzip_src/lib/inflate.c:467-470 | After a code is entered, every stream that starts with it is decoded by the tables as the canonical code does. |
| HuftBuild.DoomAt | tools/mkelfImage/kunzip_src/lib/inflate.c:411-445 | When a table gets more than the look-up bits and a link goes into it, some stream reads a cell that nothing will ever write. |
| HuftBuild.Built | tools/mkelfImage/kunzip_src/lib/inflate.c:378-491 | The finished tables decode every stream as the canonical code does exactly under the condition FitsLengths, for complete sets and for sets without unused symbols. |
| HuftBuild.Tables.Malloc | tools/mkelfImage/kunzip_src/lib/malloc.c:18-37 | A block is new: past all others, and what is there stays. |
| HuftBuild.Tables.MallocRelease | tools/mkelfImage/kunzip_src/lib/malloc.c:8-16 | All blocks since the mark are given back, the others stay. |
| HuftBuild.Tables.Store | tools/mkelfImage/kunzip_src/lib/inflate.c:434-470 | Every write of a table cell goes to one that was never written: no cell is written twice. |
| HuftBuild.Tables.PlaceTable | tools/mkelfImage/kunzip_src/lib/inflate.c:424-445 | Memory for a table behind all others, and its link in the slot of the table above. |
| HuftBuild.Tables.AddTable | tools/mkelfImage/kunzip_src/lib/inflate.c:398-447 | One new table: sized, allocated and linked, keeping the invariant of the table stack; no cell is written twice. |
| HuftBuild.Tables.MakeTables | tools/mkelfImage/kunzip_src/lib/inflate.c:398-447 | Tables are made down to the one that the code ends in. |
| HuftBuild.Tables.Fill | tools/mkelfImage/kunzip_src/lib/inflate.c:467-470 | Exactly the slots whose low bits are the rest of the code get the entry, each once. |
| HuftBuild.Tables.MakeEntry | tools/mkelfImage/kunzip_src/lib/inflate.c:450-464 | The entry of the next symbol in v[]: literal, end of block, base and extra bits, or invalid. |
| HuftBuild.Tables.EnterCode | tools/mkelfImage/kunzip_src/lib/inflate.c:393-484 | One round of the loop keeps the invariant and moves on by the width of the code. |
| HuftBuild.Tables.BuildTables | tools/mkelfImage/kunzip_src/lib/inflate.c:378-486 | The main loop ends with all positions entered; the tables are in order or hold a cell that can be read but was never written. |
| HuftBuild.Tables.HuftBuild | tools/mkelfImage/kunzip_src/lib/inflate.c:278-492 | Return codes: 2 exactly when the Kraft sum exceeds 1, 1 exactly when it is below 1 and the longest length exceeds 1. The tables decode every stream as the canonical code of RFC 1951 section 3.2.2, with the same bits consumed, exactly under FitsLengths for complete sets and for sets without unused symbols. No cell is written twice. |
| HuftBuild.NeverStuck | tools/mkelfImage/kunzip_src/lib/inflate.c:542-551 | In right tables for a complete set, or one without unused symbols, every slot that a walk can reach has been written. |
| HuftBuild.TableForExtends | tools/mkelfImage/kunzip_src/lib/inflate.c:434-470 | Tables built later do not disturb earlier ones. |
| HuftFits.EasyFits | tools/mkelfImage/kunzip_src/lib/inflate.c:404-419 | FitsLengths holds when the longest code has at most twice the look-up bits, and for complete sets of fewer codes than a full table has slots. |
| HuftFits.FitsCanFail | tools/mkelfImage/kunzip_src/lib/inflate.c:404-419 | The complete set of lengths 1, 2, 3, 3 with one look-up bit does not meet it. |
| HuftFits.FitsWhen | tools/mkelfImage/kunzip_src/lib/inflate.c:404-419 | The same two conditions on the counts. |
| DeflateFacts.InflatedUnique | tools/mkelfImage/kunzip_src/lib/inflate.c:961-1004 | The reference decoder's result does not depend on its step allowance. |
| DeflateFacts.SymbolRoundTrip | tools/mkelfImage/kunzip_src/lib/inflate.c:542-551 | Decoding undoes encoding, for every symbol of every usable set of lengths, and leaves the rest of the stream. |
| DeflateFacts.RevTwice | tools/mkelfImage/kunzip_src/lib/inflate.c:466-475 | Reversing the bits of a code twice gives the code. |
| Bits.RevBit | tools/mkelfImage/kunzip_src/lib/inflate.c:466-475 | Reversal turns the bits round one by one. |
| Encoder.TakeSym | tools/mkelfImage/kunzip_src/lib/inflate.c:542-551 | A symbol written before other things is read, and the others are next. |
| Encoder.LengthCoded | tools/mkelfImage/kunzip_src/lib/inflate.c:171-177 | Every length from 3 to 258 has a length code and extra bits. |
| Encoder.DistCoded | tools/mkelfImage/kunzip_src/lib/inflate.c:178-185 | Every distance up to the window size has a distance code and extra bits. |
| Encoder.CodesBack | tools/mkelfImage/kunzip_src/lib/inflate.c:517-622 | Any literals and matches, written with any usable codes, come back as the bytes they stand for. |
| Encoder.LensBack | tools/mkelfImage/kunzip_src/lib/inflate.c:808-852 | Code lengths written with any repeat codes come back. |
| Inflate.CodeLengthAt | tools/mkelfImage/kunzip_src/lib/inflate.c:785-793 | Each length of the code length code is the one sent at its place in the border order, or 0. |
| Encoder.HeaderBack | tools/mkelfImage/kunzip_src/lib/inflate.c:766-909 | The header of a dynamic block gives the two sets of lengths that were put into it. |
| Encoder.StoredBack | tools/mkelfImage/kunzip_src/lib/inflate.c:626-678 | A stored block comes back, whatever the padding holds. |
| Encoder.BlocksBack | tools/mkelfImage/kunzip_src/lib/inflate.c:961-1004 | Any list of stored, fixed and dynamic blocks comes back as what it stands for. |
| Encoder.StreamRoundTrip | tools/mkelfImage/kunzip_src/lib/inflate.c:961-1004 | The same for the bytes of a stream, followed by any other bytes. |
| Encoder.StoredExpand | tools/mkelfImage/kunzip_src/lib/inflate.c:626-678 | Every byte string can be written as stored blocks. |
| CodeTables.HighestFirst | tools/mkelfImage/kunzip_src/lib/inflate.c:466-475 | A code is sent with its highest bit first. |
| CodeTables.ExampleCodes | tools/mkelfImage/kunzip_src/lib/inflate.c:388-475 | The example of RFC 1951 section 3.2.2: the codes of eight symbols in numbers. |
| CodeTables.FixedLitCode | tools/mkelfImage/kunzip_src/lib/inflate.c:697-704 | The fixed code of every literal and length symbol in numbers, as in RFC 1951 section 3.2.6: 0x30 + s in eight bits below 144, 0x190 + s - 144 in nine below 256, s - 256 in seven below 280, 0xc0 + s - 280 in eight. |
| CodeTables.FixedDistCode | tools/mkelfImage/kunzip_src/lib/inflate.c:714-717 | The fixed distance codes are the numbers 0 to 29 in five bits. |
| CodeTables.LengthEnds | tools/mkelfImage/kunzip_src/lib/inflate.c:171-177 | The lengths of no code go beyond 258. |
| CodeTables.NoExtra | tools/mkelfImage/kunzip_src/lib/inflate.c:175-177 | Code 285 takes no extra bits. |
| CodeTables.LengthUnique | tools/mkelfImage/kunzip_src/lib/inflate.c:171-177 | Which code and extra bits stand for a length: one pair for each from 3 to 257; for 258 only 284 with 31 and 285 with none. |
| CodeTables.DistanceUnique | tools/mkelfImage/kunzip_src/lib/inflate.c:178-185 | Which code and extra bits stand for a distance: one pair for each from 1 to 32768. |
| CodeTables.MatchMeans | tools/mkelfImage/kunzip_src/lib/inflate.c:568-610 | What a match stands for: as many bytes more as its length, each the one its distance back, or 0 from before the output. |
| CodeTables.MatchExists | tools/mkelfImage/kunzip_src/lib/inflate.c:568-610 | There is such a match for every length from 3 to 258 and distance from 1 to 32768. |
| CodeTables.CopyByte | tools/mkelfImage/kunzip_src/lib/inflate.c:585-610 | Each byte of a match, one by one. |
| CodeTables.BorderOrder | tools/mkelfImage/kunzip_src/lib/inflate.c:169-170 | The border order in numbers: 16, 17, 18, 0, then from 8 outwards, up and down in turn. |
| CodeTables.RunLengths | tools/mkelfImage/kunzip_src/lib/inflate.c:808-852 | What a code length symbol may say: one length below 16, the last again 3 to 6 times, or 3 to 10 or 11 to 138 zeros. |
| CodeTables.RunExists | tools/mkelfImage/kunzip_src/lib/inflate.c:808-852 | Every such run can be said. |
| CodeTables.SetsInOrder | tools/mkelfImage/kunzip_src/lib/inflate.c:867-880 | The two sets are the one list of lengths, the literals first. |
| CodeTables.PadsToByte | tools/mkelfImage/kunzip_src/lib/inflate.c:639-644 | The length of a stored block begins at the next byte boundary. |
| Worked.LetterA | tools/mkelfImage/kunzip_src/lib/inflate.c:682-732 | The bytes 73 04 00 are the letter A with the fixed codes, whatever follows. |
| Worked.LetterFile | tools/mkelfImage/kunzip_src/lib/inflate.c:1132-1176 | With the trailer 8b 9e d9 d3 01 00 00 00 they are the file of that letter. |
| Worked.FourLetters | tools/mkelfImage/kunzip_src/lib/inflate.c:568-610 | 4b 4c 4a 4e 19 c5 00 is abcd and a match of length 258 at distance 4, 55 bits in all. |
| Worked.ExtraBits | tools/mkelfImage/kunzip_src/lib/inflate.c:568-610 | 4b 84 83 24 6c 2c 00 is decoded with a match whose length and distance take two extra bits each, lowest bit first. |
| Worked.StoredAB | tools/mkelfImage/kunzip_src/lib/inflate.c:626-678 | 01 02 00 fd ff 41 42 is a stored block. |
| WorkedDynamic.DynamicA | tools/mkelfImage/kunzip_src/lib/inflate.c:736-910 | 05 c0 81 08 00 00 00 00 20 b6 fd a5 4e is a dynamic block: three counts, a code length code, runs of zeros, two sets and the letter A. |
| Parsing.ReadsSym | tools/mkelfImage/kunzip_src/lib/inflate.c:542-551 | A symbol is only decoded where its code stands. |
| Parsing.CodesRead | tools/mkelfImage/kunzip_src/lib/inflate.c:517-622 | Coded data that is decoded to its end is a list of literals and matches. |
| Parsing.LensRead | tools/mkelfImage/kunzip_src/lib/inflate.c:808-852 | Code lengths that are accepted are a list of lengths and repeats. |
| Parsing.DynamicRead | tools/mkelfImage/kunzip_src/lib/inflate.c:736-910 | A dynamic block that is accepted is a header and tokens that an encoder may write. |
| Parsing.BlocksRead | tools/mkelfImage/kunzip_src/lib/inflate.c:961-1004 | A stream that is accepted is a list of blocks. |
| Parsing.AcceptedIff | tools/mkelfImage/kunzip_src/lib/inflate.c:961-1004 | The decoder ends without error, at that bit and with that output, exactly when the bytes are a list of well-formed blocks up to that bit that stands for that output. |
| StreamErrors.SetErrors | tools/mkelfImage/kunzip_src/lib/inflate.c:278-492 | A set of code lengths gives code 2 exactly when its Kraft sum exceeds 2^16, and 1 exactly when the sum is less and some length exceeds 1. |
| StreamErrors.ReservedType | tools/mkelfImage/kunzip_src/lib/inflate.c:955-956 | Block type 3 is refused with code 2. |
| StreamErrors.StoredErrors | tools/mkelfImage/kunzip_src/lib/inflate.c:639-678 | A stored block is refused, with code 1, exactly when length and complement do not add up to 0xffff; otherwise it ends behind its bytes. |
| StreamErrors.CountErrors | tools/mkelfImage/kunzip_src/lib/inflate.c:766-781 | More than 286 literal and length codes or more than 30 distance codes give code 1. |
| StreamErrors.DynamicErrors | tools/mkelfImage/kunzip_src/lib/inflate.c:766-793 | Otherwise what is checked next is what the header of five, five and four bits says. |
| StreamErrors.CodedErrors | tools/mkelfImage/kunzip_src/lib/inflate.c:797-852 | First the code length code, code 2 or 1; then the lengths, code 1 for a repeat beyond their number. |
| StreamErrors.TreesErrors | tools/mkelfImage/kunzip_src/lib/inflate.c:867-905 | Then the two sets in order, each with code 2 or 1. |
| StreamErrors.RepeatErrors | tools/mkelfImage/kunzip_src/lib/inflate.c:820-847 | A repeat that goes past the number of lengths is refused, one that just fills it is not. |
| StreamErrors.CodeErrors | tools/mkelfImage/kunzip_src/lib/inflate.c:542-581 | Coded data is refused with code 1 where no code stands and at the symbols 286 and 287. |
| StreamErrors.FixedDistances | tools/mkelfImage/kunzip_src/lib/inflate.c:714-721 | With the fixed codes five bits are a distance code unless they are 30 or 31, which are refused. |
| StreamErrors.FixedReserved | tools/mkelfImage/kunzip_src/lib/inflate.c:697-708 | The codes 0xc6 and 0xc7 of eight bits are refused. |
| Bytes.StreamByte | tools/mkelfImage/kunzip_src/lib/inflate.c:219-230 | The bytes sit in the bit stream eight bits apart; past the end zeros are read. |
| BitBuffer.PeekIs | tools/mkelfImage/kunzip_src/lib/inflate.c:228-230 | The low bits of the buffer are the next bits of the stream. |
| BitBuffer.DumpIs | tools/mkelfImage/kunzip_src/lib/inflate.c:230 | DUMPBITS moves the position on and keeps the buffer exact. |
| BitBuffer.FetchIs | tools/mkelfImage/kunzip_src/lib/inflate.c:229 | One more byte goes above the bits there, and the buffer stays below 31 bits. |
| BitBuffer.Input.GetByte | tools/mkelfImage/kunzip_src/lib/kunzip.c:35 | Past the end 0 is returned and inptr stays. |
| BitBuffer.Input.NeedBits | tools/mkelfImage/kunzip_src/lib/inflate.c:229 | NEEDBITS: the buffer holds exactly the next stream bits, at least as many as asked for and no more than seven too many. |
| Window.SourceByte | tools/mkelfImage/kunzip_src/lib/inflate.c:585-591 | The slot that the masked index names holds the byte so many places back in the whole output. |
| Window.BlockCopy | tools/mkelfImage/kunzip_src/lib/inflate.c:593-598 | memcpy of bytes that are all in place is the byte-at-a-time copy. |
| Window.CopySplit | tools/mkelfImage/kunzip_src/lib/inflate.c:590-610 | A match copied in stretches is the match copied at once. |
| Window.WindowsAre | tools/mkelfImage/kunzip_src/lib/inflate.c:556-560 | Full windows and what is left over are the output, cut in one way only. |
| Window.WindowsFlatten | tools/mkelfImage/kunzip_src/lib/inflate.c:556-560 | Put together, the windows of an output and its rest are the output. |
| Window.Buffer.FlushIfFull | tools/mkelfImage/kunzip_src/lib/inflate.c:556-560 | A full window is sent and writing starts over; the output is the same. |
| Window.Buffer.Put | tools/mkelfImage/kunzip_src/lib/inflate.c:553-561 | One byte more of output. |
| Window.Buffer.SlowCopy | tools/mkelfImage/kunzip_src/lib/inflate.c:599-604 | The byte loop for overlapping matches. |
| Window.Buffer.CopyStretch | tools/mkelfImage/kunzip_src/lib/inflate.c:591-604 | One stretch, by either branch. |
| Window.Buffer.CopyBack | tools/mkelfImage/kunzip_src/lib/inflate.c:589-610 | The copy in the circular window, in stretches limited by the wrap and by the end of the window, is out[i] = out[i - dist] on an unbounded history that starts with zeros. |
| Inflate.LengthTable | tools/mkelfImage/kunzip_src/lib/inflate.c:171-177 | cplens and cplext are the lengths and extra bits of RFC 1951 section 3.2.5, which LengthUnique gives in numbers. |
| Inflate.DistTable | tools/mkelfImage/kunzip_src/lib/inflate.c:178-185 | cpdist and cpdext likewise for distances, with DistanceUnique. |
| Inflate.BackEnds | tools/mkelfImage/kunzip_src/lib/inflate.c:178-185 | The last distance of every code is within the window, so no match reaches further back. |
| Inflate.DecodeSymbol | tools/mkelfImage/kunzip_src/lib/inflate.c:542-551 | The table walk gives the symbol of the canonical code and takes its bits. |
| Inflate.Inflater.InflateMatch | tools/mkelfImage/kunzip_src/lib/inflate.c:568-610 | Length and distance with their extra bits, then the copy, as in the reference decoder; MatchMeans says what that is. |
| Inflate.Inflater.InflateCodes | tools/mkelfImage/kunzip_src/lib/inflate.c:517-622 | The coded data of a block, up to the end-of-block code, as in the reference decoder. |
| Inflate.Inflater.CopyRaw | tools/mkelfImage/kunzip_src/lib/inflate.c:657-668 | The bytes of a stored block. |
| Inflate.Inflater.StoredLength | tools/mkelfImage/kunzip_src/lib/inflate.c:642-654 | The length and its complement after skipping to a byte boundary. |
| Inflate.Inflater.InflateStored | tools/mkelfImage/kunzip_src/lib/inflate.c:626-678 | A stored block as in the reference decoder, its error code included. |
| Inflate.Inflater.InflateFixed | tools/mkelfImage/kunzip_src/lib/inflate.c:682-732 | A block with the fixed codes of FixedLitCode and FixedDistCode as in the reference decoder; neither table is refused. |
| Inflate.Inflater.ReadCodeLengthCode | tools/mkelfImage/kunzip_src/lib/inflate.c:785-793 | The code length code, in border order, the rest zero. |
| Inflate.Inflater.ReadCodeLengths | tools/mkelfImage/kunzip_src/lib/inflate.c:808-852 | Code lengths with the repeat codes 16, 17 and 18, across the boundary between literals and distances, as in the reference decoder. |
| Inflate.Inflater.ReadCounts | tools/mkelfImage/kunzip_src/lib/inflate.c:766-775 | The three counts. |
| Inflate.Inflater.InflateTrees | tools/mkelfImage/kunzip_src/lib/inflate.c:867-909 | Literal and distance tables, their error codes, and the data. |
| Inflate.Inflater.InflateDynamic | tools/mkelfImage/kunzip_src/lib/inflate.c:736-910 | A dynamic block as in the reference decoder, the limits on the counts and the error codes included. |
| Inflate.Inflater.InflateBlock | tools/mkelfImage/kunzip_src/lib/inflate.c:914-957 | One block: the last-block bit and the type. |
| Inflate.Inflater.UndoLookahead | tools/mkelfImage/kunzip_src/lib/inflate.c:989-995 | After the undo inptr is the bits consumed over 8, rounded up, exactly when no read has passed the end of the input; always when two bytes follow. |
| Inflate.Inflater.Inflate | tools/mkelfImage/kunzip_src/lib/inflate.c:961-1004 | Whole streams: the return code is the reference decoder's. On success the windows flushed are its output, cut into full windows and a rest; on an error they are the full windows of the output up to there. inptr is as after the undo. |
| Inflate.FixedSets | tools/mkelfImage/kunzip_src/lib/inflate.c:682-732 | The fixed codes meet the table condition; the literal code is complete and the distance code is not. |
| Inflate.LiteralFits | tools/mkelfImage/kunzip_src/lib/inflate.c:867-877 | Any literal code of a dynamic block meets the table condition. |
| Inflate.DistanceFits | tools/mkelfImage/kunzip_src/lib/inflate.c:879-894 | Any distance code of a dynamic block meets it. |
| Inflate.SmallSetFits | tools/mkelfImage/kunzip_src/lib/inflate.c:797-804 | Any code length code meets it. |
| Crc.StepLinear | tools/mkelfImage/kunzip_src/lib/inflate.c:1044-1049 | A step of the shift register is linear over exclusive or. |
| Crc.StepsLinear | tools/mkelfImage/kunzip_src/lib/inflate.c:1044-1049 | So are any number of steps. |
| Crc.HighPart | tools/mkelfImage/kunzip_src/lib/kunzip.c:120 | Bits that have not reached the low end are only shifted. |
| Crc.TableStep | tools/mkelfImage/kunzip_src/lib/kunzip.c:120 | Eight steps are a table value for the low byte and a shift for the rest. |
| Crc.MakePattern | tools/mkelfImage/kunzip_src/lib/inflate.c:1031-1037 | The terms of the polynomial make up 0xedb88320. |
| Crc.MakeCrc | tools/mkelfImage/kunzip_src/lib/inflate.c:1021-1055 | The table built from message bits holds, for each byte, eight steps of the bitwise register of RFC 1952 section 8. |
| Crc.UpdateIsCrc | tools/mkelfImage/kunzip_src/lib/kunzip.c:118-121 | The table-driven update is the bitwise one. |
| Crc.CrcSplit | tools/mkelfImage/kunzip_src/lib/kunzip.c:118-122 | The CRC does not depend on how the bytes are cut up. |
| Crc.Crc32Bound | tools/mkelfImage/kunzip_src/lib/kunzip.c:118-123 | The CRC is a 32-bit word. |
| Crc.CrcIsSteps | tools/mkelfImage/kunzip_src/lib/kunzip.c:118-122 | The CRC register after some bytes is so many steps of the shift register, begun with the bytes as one number exclusive-ored to the start. |
| Crc.Residue | tools/mkelfImage/kunzip_src/lib/inflate.c:1014 | The CRC of nothing is 0, and of any data followed by its own CRC it is 0x2144df1c: start and final complement are all ones. |
| Crc.CrcOfA | tools/mkelfImage/kunzip_src/lib/inflate.c:1021-1055 | The CRC of the letter A is 0xd3d99e8b. |
| Words.LongInStream | tools/mkelfImage/kunzip_src/lib/inflate.c:1156-1159 | A word is the number in 32 bits of the stream, its first byte lowest. |
| Scatter.EmitSplit | tools/mkelfImage/kunzip_src/lib/kunzip.c:98-136 | What is written, and whether the headers are proper, does not depend on how the stream is cut into windows. |
| Scatter.EmitCounts | tools/mkelfImage/kunzip_src/lib/kunzip.c:118-123 | Every byte is counted once and enters the CRC, in order. |
| Scatter.EmitStretch | tools/mkelfImage/kunzip_src/lib/kunzip.c:110-133 | Up to the end offset a stretch goes to consecutive addresses, and then the next header or region begins. |
| Scatter.LimitIs | tools/mkelfImage/kunzip_src/lib/kunzip.c:111-114 | The unsigned arithmetic finds the end of the stretch or of the window, unless the end offset lies so far behind or ahead that the sum wraps around. |
| Scatter.RoundStep | tools/mkelfImage/kunzip_src/lib/kunzip.c:110-134 | A round of the outer loop changes nothing exactly when that sum wraps around; otherwise it is the byte-at-a-time rule for a stretch, and the rest stays to be done. |
| Scatter.StuckIs | tools/mkelfImage/kunzip_src/lib/kunzip.c:111-114 | In plain numbers: the end lies behind by no more than the window index, or ahead by nearly 2^32. |
| Scatter.FlushEndsIff | tools/mkelfImage/kunzip_src/lib/kunzip.c:105-136 | The loop over a window comes to an end exactly when no header completed in it makes the sum wrap around. |
| Scatter.StopsAll | tools/mkelfImage/kunzip_src/lib/kunzip.c:98-136 | A window that the loop does not get past stops all that follow. |
| Scatter.RoomyEnds | tools/mkelfImage/kunzip_src/lib/kunzip.c:98-136 | Headers whose ends are neither behind nor nearly 2^32 ahead stop no window, however the stream is cut. |
| Scatter.Output.constructor | tools/mkelfImage/kunzip_src/lib/kunzip.c:139-154 | gunzip_setup: a header of eight bytes comes first, the CRC starts at 0xffffffff, the count at 0. |
| Scatter.Output.WriteStretch | tools/mkelfImage/kunzip_src/lib/kunzip.c:115-124 | The inner loop stores a stretch and brings CRC and count up to date. |
| Scatter.Output.NextRegion | tools/mkelfImage/kunzip_src/lib/kunzip.c:125-133 | At the end of a stretch a header or a region begins. |
| Scatter.Output.FlushWindow | tools/mkelfImage/kunzip_src/lib/kunzip.c:98-136 | For every header: the loop ends exactly when it should by FlushEndsIff, and then the window has been written by the byte-at-a-time rule; otherwise it is in a state that no further round changes. |
| Regions.HeaderLongs | tools/mkelfImage/kunzip_src/lib/kunzip.c:82-85 | The two words of a region header read back. |
| Regions.SegmentIn | tools/mkelfImage/kunzip_src/lib/kunzip.c:98-136 | One header and its region: the bytes come to its address and nothing else changes. |
| Regions.ImageLoads | tools/mkelfImage/kunzip_src/lib/kunzip.c:98-136 | An image of any regions is loaded with each region in place, and none of its headers stops the loop. |
| Regions.HeaderBehind | tools/mkelfImage/kunzip_src/lib/kunzip.c:110-121 | A header whose end lies inside itself, with a byte behind it, stops the loop. |
| Regions.PlacedLast | tools/mkelfImage/kunzip_src/lib/kunzip.c:98-136 | After loading, an address holds the byte of the last region that covers it. |
| Regions.PlacedElsewhere | tools/mkelfImage/kunzip_src/lib/kunzip.c:98-136 | Addresses outside all regions keep what they held. |
| Worked.TwoRegions | tools/mkelfImage/kunzip_src/lib/kunzip.c:82-136 | An image of two regions byte by byte, and the three bytes it puts into memory. |
| Gunzip.ReadLong | tools/mkelfImage/kunzip_src/lib/inflate.c:1156-1159 | Four bytes of the trailer, lowest first, zeros past the end. |
| Gunzip.CheckTrailer | tools/mkelfImage/kunzip_src/lib/inflate.c:1152-1175 | Success exactly when the stored CRC is the register complemented and the stored length is the count. |
| Gunzip.FailsNonzero | tools/mkelfImage/kunzip_src/lib/inflate.c:961-1004 | An error of the whole decoder is never code 0. |
| Gunzip.FlushAll | tools/mkelfImage/kunzip_src/lib/kunzip.c:98-136 | The windows one after the other are written as the whole stream, exactly when the loop gets past each of them. |
| Gunzip.AllWindowsFlatten | tools/mkelfImage/kunzip_src/lib/inflate.c:556-560 | The windows sent are the output of the run, cut up. |
| Gunzip.Gunzip | tools/mkelfImage/kunzip_src/lib/inflate.c:1132-1176 | From the end of the header on: it returns exactly when flush_window gets past every window sent, before an error too. Then it is -1 on any decoder error; otherwise memory is as the output says, and 0 is returned exactly when the trailer has the CRC-32 and the length of the output. |
| Gunzip.HeaderStops | tools/mkelfImage/kunzip_src/lib/kunzip.c:110-121 | Output that begins with such a header and goes on keeps the program in flush_window, whatever follows, also before an error. |
| Gunzip.StreamHangs | tools/mkelfImage/kunzip_src/lib/kunzip.c:105-136 | A stream on which it does so: nine zeros, stored. |
| Gunzip.FileRight | tools/mkelfImage/kunzip_src/lib/inflate.c:1152-1175 | However an image has been compressed, with its trailer it meets the conditions of Kunzip. |
| Gunzip.FileForImage | tools/mkelfImage/kunzip_src/lib/kunzip.c:157-170 | So there is a file for every list of regions. |
| Gunzip.Kunzip | tools/mkelfImage/kunzip_src/lib/kunzip.c:157-170 | A compressed image with the right trailer is unpacked to where its headers say. |
| Bitmap.MapAlloc | kernel/alloc.c:60-84 | Exactly the bits of the run are set, within a word, across words and up to a word boundary. |
| Bitmap.MapFree | kernel/alloc.c:86-108 | Exactly the bits of the run are cleared. |
| Bitmap.MaskBetween | kernel/alloc.c:73-76 | The masks for a run inside one word. |
| Bitmap.MaskFrom | kernel/alloc.c:78 | -(1UL << n) sets the bits from n on. |
| Bitmap.MaskBelow | kernel/alloc.c:82 | (1UL << n) - 1 sets the bits below n, none for n = 0. |
| Bitmap.KeepFrom | kernel/alloc.c:106 | The mask that clears the bits below n. |
| Bitmap.KeepBelow | kernel/alloc.c:102 | The mask that clears the bits from n on. |
| Bitmap.TakenIs | kernel/alloc.c:38-48 | 64 pages a word, the lowest bit first. |
| HostAlloc.TestIs | kernel/alloc.c:50-58 | allocated_in_map sees a taken page only in the low half of its word. |
| HostAlloc.NaiveAllocator.IsFreeContiguousRegion | kernel/alloc.c:241-250 | 1 exactly when no page of the run is seen as taken. |
| HostAlloc.FirstFitLowest | kernel/alloc.c:257-275 | The search gives the lowest multiple of the alignment that looks free, and none only if there is none. |
| HostAlloc.NaiveAllocator.AllocPages | kernel/alloc.c:257-275 | The grant is the first fit, and exactly its pages are marked. |
| HostAlloc.GrantsFreeIff | kernel/alloc.c:257-275 | For a given size and alignment, every bitmap is answered with free pages exactly when no admissible start has a page in the high half of a word. |
| HostAlloc.SafeRequestIff | kernel/alloc.c:257-275 | In numbers: exactly when the alignment is a multiple of 64 and the size at most 32. |
| HostAlloc.BadGrant | kernel/alloc.c:257-275 | For any other request there is a bitmap whose grant is taken already. |
| HostAlloc.Page32 | kernel/alloc.c:257-275 | Once the first 32 pages are taken, every request for one page is answered with page 32. |
| HostAlloc.EmptyFit | kernel/alloc.c:257-275 | With nothing taken the first fit is page 0, as long as there are more pages than asked for. |
| AllocRuns.StepKeepsIff | kernel/alloc.c:257-275 | A call keeps live ranges apart, and the taken pages accounted for, exactly when the pages granted were free. |
| AllocRuns.RunOrderlyIff | kernel/alloc.c:257-275 | The same for whole runs of grants and releases, up to any point. |
| AllocRuns.AlignedRuns | kernel/alloc.c:257-275 | With requests on word boundaries of at most half a word every run is in order. |
| AllocRuns.PagesOverlap | kernel/alloc.c:257-275 | Two requests for one page are granted the same page once the first 32 are taken. |
| AllocRuns.SuppliedIff | kernel/alloc.c:257-275 | So many single pages in a row are granted free exactly when so many of the first 33 pages are free. |
| AllocRuns.NextGrant | kernel/alloc.c:257-275 | A request for one page gets the lowest free page below 32, or else page 32. |
| AllocRuns.GrantTaken | kernel/alloc.c:257-275 | Taking it leaves the other free pages below 32 as they were. |
| MemMap.GetMaxPfn | kernel/e820.c:106-123 | One more than the last whole page of RAM, 0 if there is none. |
| MemMap.FreeRegion | kernel/alloc.c:110-121 | Exactly the whole pages between the addresses become free. |
| MemMap.InitHostAllocBitmap | kernel/alloc.c:132-156 | Exactly the whole RAM pages inside the heap become free. |
| MemMap.NaiveMemmapInit | kernel/alloc.c:194-239 | A page is free exactly when it is a whole page of some RAM entry inside the heap; the bitmap starts at 0x8100000, its size is the number of pages over 8, and 8 more, rounded up to a page, and it reaches one word past the last page. |
| MemMap.OnePageAfterInit | kernel/alloc.c:194-239 | From then on every request for one page gets page 32, which is taken. |
| MemMap.UsableMeans | kernel/alloc.c:132-156 | In bytes: a page becomes free exactly when all its 4096 bytes lie in one region of type 1 and in the heap. |
| Entries.SetFieldReads | include/page.h:107-124 | A bit field reads back and its neighbours keep their bits. |
| Entries.TableEntryReads | kernel/page.c:147-155 | An entry for a table is present and leads to that table, and its low twelve bits are 0x7: present, writable, for user. |
| Entries.PageEntryReads | kernel/page.c:132-137 | An entry for a page is present, large, and holds the page; its low 21 bits are 0x87 for user and 0x83 otherwise. |
| Entries.PresentIs | kernel/page.c:69-72 | Present is bit 0 of the word, and a large page bit 7. |
| Entries.MappedExactIff | kernel/page.c:184 | The address found is the one mapped exactly below 2 GiB. |
| PageTable.SamePageIff | kernel/page.c:32-45 | Below 2^48 two addresses take the same path exactly when they are in one 2 MiB page. |
| PageTable.LinkedTree | kernel/page.c:147-152 | A cleared page that is no table yet, linked behind an absent entry, keeps the tables a tree of distinct pages. |
| PageTable.LinkedWalk | kernel/page.c:147-152 | ... and changes no translation. |
| PageTable.LinkTreeIff | kernel/page.c:147-152 | After a table is linked the tables are a tree of distinct pages exactly when the page granted was not a table already. |
| PageTable.WroteTree | kernel/page.c:132-137 | Writing an entry of the last level keeps the tree. |
| PageTable.WroteWalk | kernel/page.c:132-137 | ... and changes the translation of that one page. |
| PageTable.LinkedFlags | kernel/page.c:149-151 | Linking a new table keeps the flags of all entries that lead to tables. |
| PageTable.WroteFlags | kernel/page.c:132-137 | Writing an entry of the last level keeps those and all other entries of the last level. |
| PageTable.TrailFlags | kernel/page.c:165-197 | A page that is translated is reached through three entries with these flags. |
| PageTable.MmapKeeps | kernel/page.c:125-158 | With as many pages to be granted that are no tables yet as tables are missing, whether free or not: the page is translated to where it was mapped, every other translation or absence stays, the tables stay a tree of distinct pages grown by the path, pages that are no tables keep their contents, entries that lead to tables keep the low bits 0x7, and the new entry of the last level has 0x87 or 0x83. |
| PageTable.PageTables.PgTableAlloc | kernel/page.c:17-25 | The page granted, cleared and marked; nothing else changes. |
| PageTable.AddTableKeeps | kernel/page.c:147-152 | A new table in a page that is none yet: the tree and all translations stay. |
| PageTable.PageTables.Mmap2mb | kernel/page.c:125-158 | Whatever memory holds, memory and bitmap change as in the function that MmapKeeps and CreateRightIff are about. |
| PageTable.PageTables.MmapPml4 | kernel/page.c:160-163 | The same from the root. |
| NestedPaging.SkippedIff | kernel/vm.c:113-130 | The two tests leave out the pages of the VMM, and the one just below when there are several. |
| NestedPaging.GuestAddress | kernel/vm.c:124 | The guest addresses used are 2 MiB pages below 2 GiB. |
| NestedPaging.NeedGrown | kernel/vm.c:122-134 | Mapping a page uses up the tables that were missing for it, and no others. |
| NestedPaging.IdentityStep | kernel/vm.c:132-133 | Mapping page i extends the identity map by it. |
| NestedPaging.MapPagesKeeps | kernel/vm.c:122-134 | The loop, page by page, from an empty root. |
| NestedPaging.CreateWorks | kernel/vm.c:106-141 | If as many different pages can be granted as the map needs tables: every guest page below 2 GiB that is not left out is mapped to itself, readable, writable and for user on the whole way, nothing else is mapped, and only pages that can be granted are written. |
| NestedPaging.IdentityMeans | kernel/vm.c:106-141 | What that map is, in numbers: below 2 GiB every page that is not left out is mapped to itself, through two entries with low twelve bits 0x7 and one with low 21 bits 0x87; nothing else below 2^48 is mapped. |
| NestedPaging.HiddenMeans | kernel/vm.c:113-130 | Which pages are left out, in bytes: those with a byte of the VMM, and the one below if it has bytes in more than one page. |
| NestedPaging.Create2mbNestedPagetable | kernel/vm.c:106-141 | Whatever memory and bitmap hold, they change as in the function that CreateWorks and CreateRightIff are about. |
| TooFewPages.LeadsOn | kernel/page.c:157 | In a memory full of stray entries every entry that is present leads to a page that can be granted, to a stray page, or to the first 4 KiB of a guest page mapped before. |
| TooFewPages.MmapStrewn | kernel/page.c:125-158 | Mapping a page keeps it so, and enters each guest page once. |
| TooFewPages.FinishedNeeds | kernel/vm.c:106-141 | If the map comes out as the identity in such a memory, its tables are as many different pages that can be granted. |
| TooFewPages.CreateFails | kernel/vm.c:106-141 | With fewer such pages than tables, that memory is one for which the map is wrong. |
| TooFewPages.CreateRightIff | kernel/vm.c:106-141 | The map is right for every memory exactly when the free pages below 32, and page 32, are as many as the tables needed: four, three if one GiB is left out entirely, one if everything is. |
| TooFewPages.WrongAfterInit | kernel/vm.c:106-141 | After naive_memmap_init, however much memory is free, there is a memory for which the map is wrong, unless everything is left out. |
| NestedPaging.SecondTableIsFirst | kernel/vm.c:109-133 | With the first 32 pages taken the first two tables are the same page, and no memory makes that a tree. |
| NestedPaging.NoneAfterInit | kernel/alloc.c:194-239 | After naive_memmap_init none of the first 32 pages is free. |
| Checksum.PartialSum | tools/mkelfImage/main/mkelfImage.c:50-64 | The loop that wraps each carry at once gives the ones'-complement sum of the 16-bit words. |
| Checksum.IpChksum | tools/mkelfImage/main/mkelfImage.c:41-66 | ipchksum is its complement; compute_checksum of the loaded image is the same. |
| Checksum.NormAdd | tools/mkelfImage/main/mkelfImage.c:80-83 | Sums of parts are added with one end-around carry. |
| Checksum.SwapNorm | tools/mkelfImage/main/mkelfImage.c:73-79 | Swapping the bytes of a sum is moving the data to an odd offset. |
| Checksum.AddExact | tools/mkelfImage/main/mkelfImage.c:68-85 | add_ipchksums gives exactly the checksum of the two strings put together, for every length of the first. |
| Checksum.ImageChecksum | tools/mkelfImage/main/mkelfImage.c:498-504 | The checksum loop of write_elf gives the checksum of the headers and of every segment padded with zeros. |
| Checksum.LoadedMore | tools/mkelfImage/main/mkelfImage.c:500-504 | A further segment counts behind those before it. |
| Checksum.StoredChecksum | tools/mkelfImage/linux-i386/convert_params.c:1180-1183 | A checksum stored in a zero half-word at an even offset makes the sum over all of it 0. |
| Checksum.ExampleSum | tools/mkelfImage/main/mkelfImage.c:41-66 | The example of RFC 1071 section 3, and the checksums of nothing and of a word of ones. |
| ElfNotes.SizeofNotes | tools/mkelfImage/main/mkelfImage.c:245-257 | sizeof_notes is the number of bytes that the notes take. |
| ElfNotes.PutNote | tools/mkelfImage/main/mkelfImage.c:312-325 | One note: header, name and descriptor, each padded to four. |
| ElfNotes.SerializeNotes | tools/mkelfImage/main/mkelfImage.c:295-328 | Exactly sizeof_notes bytes are written, they are the notes one after the other, and the rest of the buffer stays. |
| ElfNotes.SerializedMore | tools/mkelfImage/main/mkelfImage.c:310-327 | Notes are laid out one behind the other. |
| NoteWalk.CountElfNotes | tools/mkelfImage/linux-i386/convert_params.c:824-855 | The number of notes that end within the block. |
| NoteWalk.MemCmpI386 | tools/mkelfImage/linux-i386/convert_params.c:425-438 | This memcmp compares first bytes only. |
| NoteWalk.MemCmpIa64 | tools/mkelfImage/linux-ia64/convert_params.c:144-154 | This one compares all, and gives the difference at the first byte that differs. |
| NoteWalk.FindElfNote | tools/mkelfImage/linux-i386/convert_params.c:857-880 | The first note of that type whose name has that length and first byte. |
| NoteWalk.FirstTakenIs | tools/mkelfImage/linux-i386/convert_params.c:857-880 | It is the first such note of the block, and there is none exactly when nothing is found. |
| NoteWalk.FindsWantedIff | tools/mkelfImage/linux-i386/convert_params.c:857-880 | That is the note asked for, in every block of memory, exactly for names of at most one byte, among names that fit in a block. |
| NoteWalk.NoteFound | tools/mkelfImage/linux-i386/convert_params.c:837-840 | A note that was written is found with its name, type and descriptor. |
| NoteWalk.RoundWraps | tools/mkelfImage/linux-i386/convert_params.c:837-840 | Sizes within three of 2^32 are rounded to 0. |
| NoteWalk.NotePlaces | tools/mkelfImage/linux-i386/convert_params.c:834-853 | Where the parts of a written note are, in numbers: sizes and type in three words, the name with its zero at 12, the descriptor at the next multiple of four. |
| NoteWalk.WalkFinds | tools/mkelfImage/linux-i386/convert_params.c:834-853 | The walk over serialized notes finds each of them, in order. |
| NoteWalk.AcceptsElfBoot | tools/mkelfImage/linux-i386/convert_params.c:1176-1191 | A block is accepted exactly for the signature, a checksum that is 0 or sums to 0, and the right number of notes. |
| NoteWalk.BlockAccepted | tools/mkelfImage/linux-i386/convert_params.c:1176-1191 | A block of any notes with its checksum stored in it is accepted, and its notes are found. |
| NoteWalk.HalfInStream | tools/mkelfImage/linux-i386/convert_params.c:1180-1188 | A half-word is the number in 16 bits of the stream. |
| BootParams.StrAppend | tools/mkelfImage/linux-ia64/convert_params.c:156-176 | The string is appended, cut to the buffer with its zero. |
| BootParams.BootParam.AppendCommandLine | tools/mkelfImage/linux-ia64/convert_params.c:196-200 | A blank and the string are appended to the command line. |
| BootParams.BootParam.ConvertBhdrParams | tools/mkelfImage/linux-ia64/convert_params.c:229-303 | Every note that ends within the block has its effect on bp, the command line and the names, in order; what that comes to is LastWins, AbsentKeeps and CommandGrows. |
| BootParams.BootParam.ConvertNote | tools/mkelfImage/linux-ia64/convert_params.c:251-301 | The effect of one note, which OneNoteSets gives in numbers. |
| BootParams.OneNoteSets | tools/mkelfImage/linux-ia64/convert_params.c:251-301 | What one note sets, in numbers: for the name Etherboot type 1 efi_systab, 2 the memory map fields at their places in struct efi_mem_map, 3 fpswa, 4 console_info; without a name type 1 to 3 the names, 4 the command line. |
| BootParams.LastWins | tools/mkelfImage/linux-ia64/convert_params.c:244-303 | After all notes each of these has what the last note of its name and type says. |
| BootParams.AbsentKeeps | tools/mkelfImage/linux-ia64/convert_params.c:244-303 | What no note is about stays. |
| BootParams.CommandGrows | tools/mkelfImage/linux-ia64/convert_params.c:263-265 | The command line grows by a blank and the string of each unnamed note of type 4, in order, and only its end is cut. |
| BootParams.WrittenWins | tools/mkelfImage/linux-ia64/convert_params.c:267-301 | Of notes written by serialize_notes the last named Etherboot of each type sets its field to the number in its descriptor. |
| BootParams.WrittenAbsent | tools/mkelfImage/linux-ia64/convert_params.c:267-301 | Without such a note, and only then, the field keeps its value. |
| BootParams.QuadIs | tools/mkelfImage/linux-ia64/convert_params.c:270-297 | Eight bytes are the number in 64 bits of the stream. |
| BootParams.WrittenAreNamed | tools/mkelfImage/linux-ia64/convert_params.c:251-266 | Notes written by serialize_notes always have a name, if only its zero, so a reader takes neither a command line nor a loader or firmware name from them. |

## Left out

- Inflate.Inflater.Inflate: says nothing where C leaves the result open (the dummy code of a set with one code and unused symbols,
  which reads unset elements of v[], or a table that is null) and nothing for input on which the program never ends; the
  reference decoder says so with Undef and NoFuel.
- HuftBuild.Tables.HuftBuild: for incomplete sets that also have unused symbols only the direction from FitsLengths to right tables
  is stated, as the dummy entries there come from elements that were never written.
- Inflate.Inflater.UndoLookahead: where a read has passed the end of the input it says only that inptr is another number, and nothing
  once 2^32 bytes have been asked for.
- Scatter.Output.FlushWindow: pointer wrap-around is not modelled, and regions are taken to lie outside the decompressor's own memory.
- Gunzip.Gunzip: the windows are replayed after decoding; that the C program may stay in one of them for ever, before an error that
  would come later, is what its first result says.
- PageTable.PageTables.Mmap2mb: a read past the end of memory gives 0 and a write there is lost; the machine has more than 33 pages and
  less than 2^40 bytes, and the bitmap is kept apart from the rest of memory.
- TooFewPages.CreateRightIff: for machines of less than 2 GiB only the direction of CreateWorks is stated, as it would depend on what
  reads past the end of memory give.
- NoteWalk.CountElfNotes: addresses do not wrap around, as they could with 32-bit pointers and sizes near 4 GiB.
- BootParams.BootParam.ConvertBhdrParams: the names of loader and firmware are recorded, not printed, and the command line buffer does
  not overlap the notes.
- ElfNotes.SerializeNotes: the byte order of a big-endian target is left out.
- huft_free and the list cells it follows: free does nothing.
- The heap of malloc.c has no end, as error() returns and malloc gives a block all the same; alignment and addresses are left out.
- The gzip header and its optional fields: they are only skipped.
- serialize_ehdr and serialize_phdrs, and the file writing of write_elf: one assignment for each field.
- The guest's own translation with 4 KiB and 4 MiB pages, create_4mb_nested_pagetable, and the printing of tables.
- Interception, VMX and SVM set-up, serial output, hostfs, hide_memory, and all assembler.

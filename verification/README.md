# Firmware boot path and network cores: model and proofs

This project models the parts of the print-server firmware that compute something
intricate, and proves what they promise.

- **Boot path** (`loader/`): a DEFLATE decompressor with multi-level decoding tables, a bit
  buffer and a circular 32K window; the first-fit allocator its tables live on; the CRC that
  guards an image; the SPI flash driver that fetches it; and the loader that chooses an image
  and decompresses it.
- **Image maker** (`tool source/MAKEIMG/makimage.c`): the program that writes the 256-byte
  header the loader checks, and merges images into one.
- **Network** (`apps/mac`, `apps/ipxbeui`): the transmit and receive descriptor rings against
  a DMA engine, and IPX gathering and scattering.
- **Web server helpers** (`apps/http_zot`): base64 and calendar arithmetic.

Code that works by changing things is modelled by classes and methods with loops, each proved
against a function or a predicate that does not mention how the code does it. The references
are: canonical prefix codes of section 3.2.2 of RFC 1951 (`Canonical`), a bit-at-a-time
reading of DEFLATE (`Deflate`), a heap as a sequence of blocks (`HeapLayout`), division by
the CRC polynomial one bit at a time (`Crc32`), an encoder of DEFLATE written from the rules of
the format without the decoder's tables (`Encoding`, `BlockEncoding`), a flash device that answers byte exchanges
(`Flash`), queues of frames for the rings, a decoder of section 4 of RFC 4648 (`Base64`) and
the Gregorian calendar (`Calendar`).

| file | content |
|---|---|
| Bits | bit strings and the two ways of reading them as numbers |
| Canonical | prefix codes: uniqueness, completeness, Kraft sums |
| HeapLayout, FreeList, Alloc | the heap as blocks, the circular list in memory, malloc and free |
| Tables, BuildInvariant, BuildSteps, BuildHole, BuildLoop, HuftStore, Huffman | decoding tables and huft_build |
| Deflate, FixedCodes | the reference decoder, and the fixed codes as the format gives them |
| Encoding, BlockEncoding, Members | an encoder that the reference decoder reads back, up to whole gzip members |
| RamMemory, Window, BitReader, Pace, CodeTables, Inflate, Gzip | the decompressor, reading and writing one memory |
| Crc32, Image, Buffer, ImageMaker | checksums, the image format, the maker |
| Flash, Loader, Overrun | the flash device and driver, booting, and output that reaches its own input |
| RingIndex, NicTx, NicRx | descriptor rings |
| Ipx, Base64, Calendar | the smaller cores |

`dafny verify dfyconfig.toml` checks everything.

## Findings

Where the code does not do what its comments or its purpose suggest, the model follows the
code and says when.

- huft_build returns 0 for a set of all-zero lengths, where its comment says 2
  (`Huffman.HuftBuild`).
- huft_build can make a table below the first one wider than the lookup width. For complete
  sets its tables decode every code, whatever the memory held before, exactly when that does not
  happen, which is a condition on the counts of lengths (`BuildSteps.Snug`): if it holds the
  tables decode, and if it does not some string that starts with a code leads to an entry that
  was never written. In a memory whose old contents mean no symbol of the set, the tables decode if
  and only if it holds (`Huffman.HuftBuild`, `Huffman.SpoiledNeverDecodes`). The lengths 1, 2, 3, 3 with a
  width of 1 are an example (`CodeTables.WideSet`, `CodeTables.BuildWide`). None of the calls in
  inflate.c is (`CodeTables.TwoLevels`, `CodeTables.DistSnug`).
- Output is written over the compressed copy it is read from once it is longer than 0x550100
  bytes. Whatever the data, the copy stays intact if and only if the two areas are apart, which
  for the loader's addresses means exactly output of at most that length
  (`RamMemory.SafeIffApart`, `Loader.OutputRoom`). Decompression is right as long as no window of
  output is written over bytes that are still to be read (`Pace.InflatedKept`, the condition of
  `Inflate.Inflater.Run`). An image that passes all checks and on which the code itself comes to a
  state where an unread byte has another value in memory is in `Overrun.Swamped`, with
  `Overrun.SuchNumbers` and `Overrun.SoonestHere`.
- inflate leaves tables allocated exactly when an unused code turns up in a block, or a run of code
  lengths is too long (`Inflate.Leaks`, `Inflate.Inflater.Run`).
- write_buff stores its data exactly if and only if they start on a page or stay inside one
  (`Flash.ExactIffNoWrap`).
- The ALLFLASH merge takes a checksum over bytes outside its buffers exactly when the images fit but
  leave less than 256 bytes, that is when 256 + total < MEM_SIZE < 512 + total, or when one to three
  bytes are left for an EEPROM file (`ImageMaker.Maker.Merge`). Any single image of a size in a range of
  255 is an input of the first kind (`ImageMaker.OverreadImage`). Making a single EEPROM image does so exactly
  for files below four bytes (`ImageMaker.Maker.MakeSingle`).
- star_nic_receive_packet reads the DMA position and then the ownership bit, with the engine
  running. A pass that finds the ring empty at the first read and not at the second takes it for
  full; it then ends at the wrong descriptor unless it delivered 32 frames (`NicRx.MisreadPass`). From a
  driver at the right descriptor, a pass delivers in order whatever the engine does, if and only if
  the engine is halted, a frame was waiting before it, or its limit is below 3 (`NicRx.SafeIff`,
  `NicRx.Overtakes`). A full ring with a work limit between 1 and 31 also leaves the driver at the
  wrong descriptor (`NicRx.ReadyPass`). A driver n descriptors behind delivers out of order if more
  than 32 - n frames wait, does nothing if just as many do, and otherwise catches up
  (`NicRx.LagPass`, `NicRx.FullPass`). No frame is lost or delivered twice in any run
  (`NicRx.ExactlyOnce`).
- A pass restarts the receive engine exactly when it finds the ring full, or in mode 1 when it does
  not return early (`NicRx.RestartIff`). So the engine can be left halted on an empty ring, which no
  later pass mends: a pass that ends like that is one that found the engine halted, does not restart
  it and comes to all that is waiting, and no other (`NicRx.StallIff`, `NicRx.ReadyStall`). Two
  passes as the interrupt handler makes them are enough (`NicRx.StallRun`); if a queue-full pass is the
  first to follow each halt, it never happens (`NicRx.NeverStalls`).
- IPXSendPacket sums the fragment sizes in 16 bits: it lets exactly the allowed packets through
  if and only if the sizes sum to less than 64K or to something whose low 16 bits exceed the limit
  (`Ipx.SizeCheckExact`, `Ipx.WrapOverruns`).
- gmtimeX is right exactly for arguments before 1 March 2100 (`Calendar.GmTime`).

## Model

| member | source | states |
|---|---|---|
| Canonical.CodesUnique | loader/src/inflate.c:351-461 | no bit string starts with the codes of two symbols |
| Canonical.DecodeFinds | loader/src/inflate.c:563-572 | bit-at-a-time decoding returns a symbol and length exactly when that symbol's code comes next |
| Canonical.CompleteDecodes | loader/src/inflate.c:342-349 | a complete set of lengths decodes every string that is long enough |
| Canonical.OverByKraft | loader/src/inflate.c:342-348 | the running count of unused codes goes negative exactly when the Kraft sum exceeds one |
| Canonical.CompleteByKraft | loader/src/inflate.c:342-349 | nothing is left unused exactly when the Kraft sum is one |
| Canonical.CodesOrdered | loader/src/inflate.c:351-363 | codes of one length follow each other in the order of the symbols, and shorter codes come before longer ones |
| HeapLayout.TakeKeeps | loader/src/alloc.c:121-142 | taking a block keeps the arenas tiled and coalesced, and the free units drop by its size |
| HeapLayout.FreedKeeps | loader/src/alloc.c:172-197 | giving a block back keeps the arenas tiled, leaves no two free blocks touching, and adds its size to the free units |
| HeapLayout.Conservation | loader/src/alloc.c:98-200 | free and live units of a tiling add up to 8 * 682 |
| HeapLayout.RunInvariant | loader/src/alloc.c:98-200 | every sequence of malloc and free leaves a coalesced tiling with conserved units |
| HeapLayout.LiveDeterminesLayout | loader/src/alloc.c:154-200 | two coalesced tilings with the same live blocks are the same, whatever led to them |
| HeapLayout.AllFreedIsInitial | loader/src/alloc.c:42-95 | once all blocks are given back, in any order, the heap is the eight blocks of 682 units that mallocinit made |
| HeapLayout.StepOfFree | loader/src/alloc.c:172-197 | the run's free step, given a block's position, frees that very block |
| FreeList.LinkedRemove | loader/src/alloc.c:123-130 | unlinking a node leaves the address-ordered circular list of the other free blocks |
| FreeList.LinkedShrink | loader/src/alloc.c:131-136 | cutting the tail off a free block keeps the list |
| FreeList.LinkedInsert | loader/src/alloc.c:186-197 | linking a block behind the last lower free one keeps the list address-ordered |
| FreeList.LinkedFuse | loader/src/alloc.c:182-193 | joining two list neighbours that touch keeps the list |
| FreeList.FreedFrees | loader/src/alloc.c:172-197 | the free list after a free is the list of free blocks of the coalesced heap |
| Alloc.Allocator.MallocInit | loader/src/alloc.c:42-95 | eight free blocks on one circular list, Availmem and its minimum 8 * 682 |
| Alloc.Allocator.Malloc | loader/src/alloc.c:98-151 | NULL exactly for size 0 or when no free block has room for the bytes asked for behind its header; otherwise a block that was not in use, cut from the end of the lowest such block, with room for the bytes and less than two units more, or that whole block; the search ends |
| Alloc.FreshHeap | loader/src/alloc.c:37-95 | a fresh heap has room exactly for requests of up to 8172 bytes |
| Alloc.Allocator.Carve | loader/src/alloc.c:121-142 | the found block leaves the list whole or is cut from the end of its free block; Availmem is again the sum of the free sizes and not below its minimum |
| Alloc.Allocator.Free | loader/src/alloc.c:154-200 | a live block goes back as in the run's free step; NULL and blocks that fail the audit check change nothing |
| Alloc.Allocator.FindPlace | loader/src/alloc.c:172-181 | the search ends at the last free block below, or at Base |
| Alloc.Allocator.Splice | loader/src/alloc.c:182-197 | linking and joining on both sides gives the coalesced heap |
| Alloc.LayoutByLive | loader/src/alloc.c:154-200 | the blocks in use determine the whole heap and its free list |
| BuildSteps.CountLengths | loader/src/inflate.c:305-316 | the table of how many codes have each length |
| BuildSteps.Bounds | loader/src/inflate.c:326-340 | shortest and longest length in use, and the lookup bits bounded by them |
| BuildSteps.CheckKraft | loader/src/inflate.c:342-348 | refused exactly when oversubscribed; otherwise the number of unused codes |
| BuildSteps.SortValues | loader/src/inflate.c:351-363 | symbols in the order of their codes |
| BuildSteps.TableBits | loader/src/inflate.c:387-400 | the size of a new table: large enough for the codes below it, and wider than the lookup width exactly when the first code ends behind that width, or at it with too few codes of its length |
| Tables.BackIncrement | loader/src/inflate.c:449-452 | the loop on the bit-reversed counter is the increment of the code word |
| Tables.TraceIsLookup | loader/src/inflate.c:563-572 | a walk checked table by table against the prefixes they serve is the walk of inflate_codes |
| BuildInvariant.PlaceCode | loader/src/inflate.c:444-447 | writing the entries of a code makes every string that starts with it reach them, and disturbs no code placed before |
| BuildInvariant.AddDone | loader/src/inflate.c:384-425 | linking a new table disturbs no code placed before |
| BuildHole.HolePath | loader/src/inflate.c:402-425 | after the first wide table, the walk of the string that follows the current code and goes on with ones leads to the table's last entry, as memory left it |
| BuildHole.HoleOpen | loader/src/inflate.c:387-400 | a table is wide only if the counts say so, and then no code ends within the lookup width on that string |
| BuildHole.PathGrown | loader/src/inflate.c:402-425 | linking further tables writes neither that entry nor the links that lead to it |
| BuildHole.PathPlaced | loader/src/inflate.c:444-447 | neither does placing a code |
| BuildHole.PathMeets | loader/src/inflate.c:563-572 | looking that string up comes to the entry |
| BuildHole.SnugCode | loader/src/inflate.c:428-459 | as long as no table is wide, the codes placed so far satisfy the condition on the counts |
| BuildLoop.StepLevel | loader/src/inflate.c:380-426 | a new table on the stack keeps the invariant of the build |
| BuildLoop.StepCode | loader/src/inflate.c:428-459 | placing a code and backing up over finished tables keeps it |
| BuildLoop.DoneDecodes | loader/src/inflate.c:365-461 | finished tables find for every string the symbol whose code it starts with, dropping exactly its length |
| BuildLoop.DoneRejects | loader/src/inflate.c:428-430 | when every length is in use, strings that start with no code reach an unused entry |
| HuftStore.OwnedSwap | loader/src/inflate.c:783-791 | two chains of tables can be freed in either order |
| HuftStore.Store.NewTable | loader/src/inflate.c:402-410 | a table of its own on the heap, inside the block malloc gave, or nothing changed |
| HuftStore.Store.HuftFree | loader/src/inflate.c:495-510 | the chain through the dummy entries reaches every table of the set, and freeing it restores tables and heap |
| Huffman.NewLevel | loader/src/inflate.c:384-425 | one more table linked to its parent and to the chain; when memory runs out all tables of this set are freed |
| Huffman.Attach | loader/src/inflate.c:412-424 | chain, stack and link of a new table |
| Huffman.PopLevels | loader/src/inflate.c:454-459 | the stack is cut back to the tables the next code starts with |
| Huffman.PlaceNext | loader/src/inflate.c:428-459 | one code placed, the next one current |
| Huffman.BuildTables | loader/src/inflate.c:365-461 | tables on one chain, that decode the padded set if no table is wide and lead some string to an unwritten entry if one is; balanced when memory runs out |
| Huffman.HuftBuild | loader/src/inflate.c:276-465 | 2 exactly when the Kraft sum exceeds one; 3 exactly when malloc refused a table; otherwise 1 exactly when the sum is below one and some length is 2 or more, else 0; lookup bits as close to those asked for as the lengths in use allow; for sets without wide tables every symbol is decoded and, when every length is in use, every other string rejected; for complete sets with one, some string that starts with a code leads to an entry never written; over memory that means no symbol, complete sets are decoded if and only if no table is wide; failures leave no table behind |
| Huffman.SpoiledFails | loader/src/inflate.c:563-572 | unless that entry happens to mean the symbol, the symbol is not found |
| Huffman.SpoiledNeverDecodes | loader/src/inflate.c:563-572 | over memory whose entries mean no symbol, tables with an unwritten entry on the way of a code do not decode the set |
| CodeTables.TwoLevels | loader/src/inflate.c:386-400 | sets shorter than twice the lookup bits get no wide table |
| CodeTables.DistSnug | loader/src/inflate.c:945-946 | neither do the complete distance sets of a dynamic block |
| CodeTables.WideSet | loader/src/inflate.c:386-400 | the complete set 1, 2, 3, 3 with a lookup width of 1 gets one |
| CodeTables.BuildWide | loader/src/inflate.c:276-465 | what huft_build leaves for it: a string that starts with a code leads to an entry never written, and over memory that means no symbol the tables do not decode |
| CodeTables.FixedLitComplete | loader/src/inflate.c:758-768 | the fixed literal code is complete |
| FixedCodes.FixedCode | loader/src/inflate.c:758-768 | the lengths and codes of the fixed literal/length symbols, range by range as section 3.2.6 of RFC 1951 gives them |
| FixedCodes.FixedDistCode | loader/src/inflate.c:772-775 | fixed distance codes are five-bit numbers |
| CodeTables.FixedDistTable | loader/src/inflate.c:772-775 | the table of 30 five-bit codes finds the fixed distance codes and rejects the two that are left |
| Encoding.LengthTable | loader/src/inflate.c:126-131 | base lengths and extra bits in closed form |
| Encoding.DistanceTable | loader/src/inflate.c:132-139 | base distances and extra bits in closed form |
| Encoding.LengthRight | loader/src/inflate.c:126-131 | every length from 3 to 258 is base plus extra bits of its code, 258 of the code of its own |
| Encoding.LengthOnly | loader/src/inflate.c:126-131 | and of no other code, except 258 as the last length of the code before |
| Encoding.DistanceRight | loader/src/inflate.c:132-139 | every distance from 1 to 32768 is base plus extra bits of its code |
| Encoding.DistanceOnly | loader/src/inflate.c:132-139 | and of no other |
| Encoding.TokenRead | loader/src/inflate.c:560-629 | a literal, or a match of 3 to 258 bytes from 1 to 32768 back, is read back from its encoding under any proper sets of codes |
| BlockEncoding.RunRead | loader/src/inflate.c:889-926 | lengths, repetitions of 3 to 6, and zeros of 3 to 138 are read back |
| BlockEncoding.RunRefused | loader/src/inflate.c:889-926 | a run past the end is refused |
| BlockEncoding.ClRead | loader/src/inflate.c:863-871 | the lengths of the code length code are read back from their places |
| BlockEncoding.HeadRead | loader/src/inflate.c:842-964 | the header of a dynamic block is read back, for all sets that are complete or of one-bit codes |
| BlockEncoding.OneBitDistance | loader/src/inflate.c:464 | a distance set of one code of one bit is accepted |
| BlockEncoding.SizesRefused | loader/src/inflate.c:855-861 | of the 32 values either count can have, exactly 30 and 31 are refused |
| BlockEncoding.SymbolRefused | loader/src/inflate.c:126-131 | literal/length symbols 286 and 287 are refused |
| BlockEncoding.DistanceRefused | loader/src/inflate.c:772-775 | distance symbols 30 and 31 are refused |
| BlockEncoding.BlockRefused | loader/src/inflate.c:683-699 | stored blocks whose counts are not complements, and blocks of the fourth kind, are refused |
| BlockEncoding.StreamRead | loader/src/inflate.c:1059-1101 | every stream of stored, fixed and dynamic blocks the encoder writes is read back as what it means, wherever it starts |
| BitReader.Reader.NeedBits | loader/src/inflate.c:197 | the buffer holds the next bits of the stream, fewer than 24 of them, and the position does not move |
| BitReader.Reader.DumpBits | loader/src/inflate.c:198 | the position moves by the bits dropped, never more than are held |
| BitReader.Reader.GetBits | loader/src/inflate.c:846-854 | the value of the next n bits |
| BitReader.Reader.GiveBack | loader/src/inflate.c:1090-1093 | the input index is the consumed bits rounded up to bytes |
| Window.Output.FlushWindow | loader/src/inflate.c:55-78 | all output so far is in memory wherever the address is 0x20004000 or higher |
| RamMemory.WrittenAt | loader/src/inflate.c:63-74 | byte i of the output is at output + i if that is 0x20004000 or higher; every other address is untouched |
| RamMemory.SafeIffApart | loader/src/inflate.c:63-74 | bytes in memory survive the output, whatever both are, if and only if the areas are apart |
| Window.Output.Put | loader/src/inflate.c:575-580 | one more byte of output; the window holds the last 32K |
| Window.ForwardHolds | loader/src/inflate.c:620-622 | copying inside the window byte by byte is the LZ77 copy on the output |
| Window.AtOnceIsForward | loader/src/inflate.c:612-617 | where the code calls memcpy, copying at once equals copying byte by byte |
| Window.Output.CopyMatch | loader/src/inflate.c:605-628 | the chunked circular copy appends exactly the LZ77 copy, for every distance from 1 to 32768 |
| Pace.ApartInflated | loader/src/inflate.c:55-78 | output that as a whole stays clear of the input is never written over input still to be read |
| Inflate.Inflater.InputKept | loader/src/inflate.c:43 | while no flushed window lies over bytes still to be read, these are the input's |
| Inflate.Inflater.DecodeSymbol | loader/src/inflate.c:563-572 | the walk through the tables on the bit buffer is the lookup of the next bits, and drops the bits it used |
| Inflate.Inflater.DoMatch | loader/src/inflate.c:588-628 | a length and distance pair as the reference decoder reads it |
| Inflate.Inflater.CodesTurn | loader/src/inflate.c:560-629 | one code as the reference decoder reads it; the unread input is intact afterwards if the output has kept behind it |
| Inflate.Inflater.InflateCodes | loader/src/inflate.c:540-640 | literals and matches up to the end of the block, as the reference decoder |
| Inflate.Inflater.InflateStored | loader/src/inflate.c:669-718 | a stored block: byte aligned, checked against the complement, copied |
| Inflate.Inflater.FixedTables | loader/src/inflate.c:757-780 | the two tables find the fixed codes; 3 and no table left exactly when malloc refused one |
| Inflate.Inflater.InflateFixed | loader/src/inflate.c:748-792 | a block with the fixed codes; all tables freed when it succeeds, and both left allocated when it does not |
| Inflate.Inflater.ReadLengths | loader/src/inflate.c:879-927 | the code lengths with their runs, refused when a run is too long |
| Inflate.Inflater.CodeLengths | loader/src/inflate.c:873-934 | the code length table and the lengths it gives; unbalanced exactly when a run is too long |
| Inflate.Inflater.RunDynamic | loader/src/inflate.c:935-964 | the two tables of a dynamic block and its codes; balanced exactly on success and whenever huft_build fails |
| Inflate.Inflater.InflateDynamic | loader/src/inflate.c:820-964 | a dynamic block as the reference decoder reads it; of the data errors only bad counts leave it balanced |
| Inflate.Inflater.InflateBlock | loader/src/inflate.c:992-1030 | the last-block flag and one block of any type; the heap is exactly as before unless an unused code or a run that is too long was met, and then it is not |
| Inflate.Inflater.Run | loader/src/inflate.c:1059-1101 | 3 exactly when malloc refused a table; otherwise 0 exactly for data the reference decoder accepts, with its output in memory, the input index at the next byte and the heap as before, and the reference's error code for all other data, with tables left allocated exactly in the cases of `Leaks`; output may overwrite input that has been read |
| Gzip.HeaderSkipped | loader/src/inflate.c:1118-1160 | every well-formed header, whatever follows, is skipped exactly |
| Gzip.SkippedIsHeader | loader/src/inflate.c:1118-1160 | what is skipped is a well-formed header |
| Gzip.PassHeader | loader/src/inflate.c:1118-1160 | the header checks, and where the data start |
| Gzip.GzDecompress | loader/src/inflate.c:1103-1162 | 1 and untouched memory for a refused header; otherwise inflation of the data behind it, read from memory, to the given address of the same memory, and exactly when tables stay allocated |
| Members.MemberRead | loader/src/inflate.c:1103-1162 | so is every gzip member made of a header, such a stream and what follows |
| Members.Unpack | loader/src/inflate.c:1103-1162 | gz_decompress on such a member leaves in memory what its blocks mean, unless malloc refuses a table |
| Crc32.TableIs | loader/src/crc32.c:7-73 | every table entry is its index divided for eight steps |
| Crc32.TableCrc | loader/src/crc32.c:75-83 | the byte loop is the bit-at-a-time division, for every string and seed |
| Crc32.CrcAppend | loader/src/crc32.c:75-83 | the checksum of a concatenation continues from the checksum of its front |
| Crc32.BurstDetected | loader/src/crc32.c:75-83 | messages that differ only within 32 consecutive bits have different checksums |
| Crc32.FourByteBurst | loader/src/crc32.c:75-83 | byte strings of equal length that differ only within four consecutive bytes have different checksums |
| Image.NGet32 | loader/src/loader.c:47-50 | the number whose little-endian bytes these are |
| Image.RegOfCrcBytes | tool source/MAKEIMG/makimage.c:193 | a stored checksum is read back as it was |
| Image.SeedComplements | loader/src/crc32.c:75-83 | the checksums are the division from zero of the message with its first four bytes complemented |
| Image.CheckCopy | loader/src/loader.c:266-280 | the length of an image that is sound and within the limit, else 0 |
| Image.SoundAccepted | loader/src/loader.c:254-280 | a sound image within the limit is accepted wherever it lies |
| Image.DamageDetected | loader/src/loader.c:274-277 | damage within four consecutive bytes that spares the length and does not straddle the end of the checksum field is detected |
| ImageMaker.Maker.SetupHeader | tool source/MAKEIMG/makimage.c:164-195 | the buffer holds the complete header with its checksum in front of the payload and nothing else changes, exactly when the payload is inside the buffer |
| ImageMaker.BuiltSound | tool source/MAKEIMG/makimage.c:164-195 | such an image is sound, with its length, mark, type and flag |
| ImageMaker.BuiltFields | tool source/MAKEIMG/makimage.c:164-195 | every field of the header at its offset, and zeros elsewhere |
| ImageMaker.Maker.UpdateHeader | tool source/MAKEIMG/makimage.c:197-203 | flag and checksum of an image inside the buffer are brought up to date; nothing else changes |
| ImageMaker.StampedSound | tool source/MAKEIMG/makimage.c:197-203 | the updated image is sound and differs only in checksum and flag |
| ImageMaker.EepromChksum | tool source/MAKEIMG/makimage.c:205-214 | the last four bytes become the checksum of the others; the checksum stays inside the buffer exactly from four bytes on |
| ImageMaker.SealedResidue | tool source/MAKEIMG/makimage.c:205-214 | the checksum over a block sealed like that is zero, and its other bytes are as before |
| ImageMaker.Maker.MakeSingle | tool source/MAKEIMG/makimage.c:279-327 | the image of a file; refused exactly when it fills the buffer; outside its buffer exactly for EEPROM files below four bytes |
| ImageMaker.SinglePassesCheck | loader/src/loader.c:254-310 | a single image with 1 to limit bytes of payload is accepted by the loader with that length |
| ImageMaker.Maker.AddPart | tool source/MAKEIMG/makimage.c:364-422 | one file copied behind the others and stamped, or refused exactly when it does not fit; outside its buffer exactly for an EEPROM file when one to three bytes are left |
| ImageMaker.Maker.Merge | tool source/MAKEIMG/makimage.c:328-436 | the merged file: one image whose payload is the chain of stamped images and 256 bytes of 0xFF, exactly when that fits buffer and flash; outside its buffers exactly when the images fit and leave less than 256 bytes, or one to three bytes are left for an EEPROM file; refused otherwise |
| ImageMaker.OverreadImage | tool source/MAKEIMG/makimage.c:425-426 | every single image whose payload is 513 to 767 bytes below the buffer size is an input of that kind |
| ImageMaker.MergedChain | tool source/MAKEIMG/makimage.c:357-436 | walking the file from offset 256 by the length fields visits exactly the images, in order, all sound, flag 1 on all but the last, which has 100 |
| Flash.Driver.SetWriteEnable | loader/src/spiflash.c:190-204 | returns with the device idle and write-enabled, memory untouched |
| Flash.Driver.SectorErase | loader/src/spiflash.c:216-241 | the sector of the address is erased; the command came to an idle, enabled device |
| Flash.Driver.Erase | loader/src/spiflash.c:243-267 | the sectors in the range read 0xFF, all others are untouched |
| Flash.Driver.ReadFlash | loader/src/spiflash.c:275-333 | the bytes from the address on, rolling over at the end of the device |
| Flash.Driver.PageProgram | loader/src/spiflash.c:341-385 | the data are and-ed into the page with in-page wrap, on an idle, enabled device |
| Flash.Driver.WriteBuff | loader/src/spiflash.c:394-418 | the data are programmed page by page, every command on an idle, enabled device |
| Flash.WriteStores | loader/src/spiflash.c:394-418 | on an erased region the source bytes are stored and no other byte changes |
| Flash.WriteThenRead | loader/src/spiflash.c:330-333 | reading afterwards gives the source bytes |
| Flash.WrapDamages | loader/src/spiflash.c:356-368 | data that cross a page from its middle clear a byte in front of their start |
| Flash.ExactIffNoWrap | loader/src/spiflash.c:394-418 | writing is exact for all data and erased regions if and only if they start on a page or stay inside one |
| Loader.CodeChecksum | loader/src/loader.c:254-310 | the length of the sound image in flash at the area's offset and within its limit, else 0, and the image in SDRAM |
| Loader.WrittenImageAccepted | loader/src/loader.c:254-310 | an image the maker builds and the driver writes to an erased area is accepted and its payload is there |
| Loader.OutputRoom | loader/src/loader.c:25-45 | output stays clear of the compressed copy exactly when it is at most 0x550100 bytes long |
| Loader.SmallDecompressible | loader/src/loader.c:363-367 | members that inflate to no more than that meet the decompressor's condition |
| Loader.Boot | loader/src/loader.c:344-390 | Code2 if it checks, else Code1, else nothing; the result of decompressing the chosen image, and its bytes in memory as the reference decoder reads them |
| Overrun.AfterMatches | loader/src/inflate.c:748-792 | what the reference decoder has made of a member of one byte and n copies after j of them |
| Overrun.MemberInflates | loader/src/inflate.c:1103-1162 | the reference decoder inflates the whole member |
| Overrun.TooFast | loader/src/loader.c:363-367 | a family of members for which a window of output is written over bytes still to be read |
| Overrun.Drive | loader/src/inflate.c:560-629 | the turns of inflate_codes on such a member up to that point |
| Overrun.Swamped | loader/src/loader.c:363-367 | the code itself, run on such a member in the loader's memory, comes to a state in which a byte it has yet to read has another value in memory |
| Overrun.SuchNumbers | loader/src/loader.c:363-367 | one of them has 65021 bytes and fits both flash areas |
| Overrun.SoonestHere | loader/src/loader.c:363-367 | for it, everything before that point goes right, with output already over input that has been read |
| NicTx.NextKeeps | apps/mac/star_nic.c:2137-2196 | every step of send_frame or the engine keeps the ring invariant |
| NicTx.RunSafe | apps/mac/star_nic.c:2137-2196 | in every interleaving the device owns exactly the segment from the DMA pointer that holds accepted frames, and frames leave in the order of acceptance, unmodified |
| NicTx.TakenAtTest | apps/mac/star_nic.c:2150-2154 | a frame is refused exactly when all 16 descriptors are outstanding, and otherwise becomes the next accepted one, padded |
| NicTx.MeasuredIsPadded | apps/mac/star_nic.c:2172-2179 | the buffer holds the frame with zeros up to 60 bytes |
| NicTx.TxRing.SendFrame | apps/mac/star_nic.c:2137-2196 | the method with the engine running between its steps: 1 exactly on a full ring, otherwise the padded frame is accepted |
| NicTx.TxRing.FillBuffer | apps/mac/star_nic.c:2163-2179 | data, length and padding in a descriptor the CPU owns |
| NicTx.TxRing.HandOver | apps/mac/star_nic.c:2184-2192 | the descriptor goes to the device, the engine is started and the index moves on |
| NicTx.NeverAsleep | apps/mac/star_nic.c:2184-2186 | in every run, while a frame is outstanding the engine runs or the call under way is about to start it |
| NicTx.Drains | apps/mac/star_nic.c:2137-2196 | between calls, as many steps of the engine as frames are outstanding put all of them on the wire |
| NicRx.DepositKeeps | apps/mac/star_nic.c:1711-1803 | a deposit, or the engine stopping at a full descriptor, loses and duplicates nothing |
| NicRx.HandKeeps | apps/mac/star_nic.c:1776 | the frame handed to LanRecv was not handed over before |
| NicRx.GiveBackKeeps | apps/mac/star_nic.c:1777-1778 | its descriptor goes back to the engine |
| NicRx.HeadOf | apps/mac/star_nic.c:1751-1792 | while the order is kept, the filled descriptors are those of the deposits that are not delivered, at most 32 |
| NicRx.RxRing.Engine | apps/mac/star_nic.c:1711-1803 | the engine's deposits at one point of a pass |
| NicRx.RxRing.Turn | apps/mac/star_nic.c:1751-1792 | one turn delivers the frame at the driver's position and returns its descriptor, or passes an empty one, with deposits in between and afterwards in either case |
| NicRx.RxRing.Plan | apps/mac/star_nic.c:1726-1749 | how many turns to make, and whether the ring is taken for full |
| NicRx.RxRing.Pass | apps/mac/star_nic.c:1751-1792 | the loop as a run of turns |
| NicRx.RxRing.ReceivePacket | apps/mac/star_nic.c:1711-1803 | for every schedule of the engine, the pass of the state machine; from every state every frame is delivered at most once and none is lost; from a driver at the right descriptor, unless an empty ring was taken for full, the waiting ones are delivered in order, for wrapped, unwrapped and full rings, and exactly when the driver ends at the right descriptor; passes that restart the engine leave it running |
| NicRx.PassKeeps | apps/mac/star_nic.c:1711-1803 | no pass from any state loses a frame, delivers one twice or changes what was delivered |
| NicRx.ExactlyOnce | apps/mac/star_nic.c:1711-1803 | over every run of passes each deposit is waiting or was delivered once, with its own contents |
| NicRx.CleanRun | apps/mac/star_nic.c:1134-1170 | over every run of passes as the two callers make them without misreads, LanRecv has got a prefix of what arrived, in order |
| NicRx.TurnLag | apps/mac/star_nic.c:1751-1792 | how a turn changes the distance between the driver and the first frame not delivered; it breaks the order exactly when the engine has lapped the driver |
| NicRx.OrderIff | apps/mac/star_nic.c:1751-1792 | a run of turns keeps the order exactly when none of them starts lapped |
| NicRx.ReadyPass | apps/mac/star_nic.c:1711-1803 | how many frames a pass delivers, when the driver ends at the right descriptor, and when a queue-full pass restarts the engine |
| NicRx.MisreadPass | apps/mac/star_nic.c:1723-1740 | a pass that takes an empty ring for full ends where it started, so at the wrong descriptor unless it delivered 32 frames |
| NicRx.LagPass | apps/mac/star_nic.c:1726-1792 | a pass from a driver n descriptors behind: out of order with more than 32 - n frames waiting, nothing with just as many, otherwise it catches up and realigns if its limit allows and the engine does not lap it |
| NicRx.FullPass | apps/mac/star_nic.c:1744-1798 | a queue-full pass from there delivers everything in order and realigns exactly below 32 - n waiting frames |
| NicRx.Overtakes | apps/mac/star_nic.c:1723-1740 | the pass on every empty ring, under a schedule with a deposit between the two reads, delivers the third frame before the second |
| NicRx.SafeIff | apps/mac/star_nic.c:1711-1803 | a pass from a driver at the right descriptor keeps the order under every schedule if and only if the engine is halted, a frame is waiting or the limit is below 3 |
| NicRx.RestartIff | apps/mac/star_nic.c:1734-1748 | from every state, a pass that finds the ring full, or a mode 1 pass that does not return early, ends with the engine running at the descriptor RXSD gave; no other pass starts a halted engine |
| NicRx.StallIff | apps/mac/star_nic.c:1711-1803 | from every state, a pass ends with the engine halted on an empty ring exactly when it found it halted, does not restart it and comes to all that is waiting |
| NicRx.ReadyStall | apps/mac/star_nic.c:1711-1803 | from a driver at the right descriptor: exactly when the ring was empty already, or neither empty nor full and the pass is an ordinary one that delivers everything |
| NicRx.NeverStalls | apps/mac/star_nic.c:1134-1170 | if every pass that finds the engine halted is a queue-full one, no run leaves it halted on an empty ring |
| NicRx.StallRun | apps/mac/star_nic.c:1134-1170 | two ordinary passes with a limit of 32 can do so, and no pass after them receives anything |
| Ipx.Sender.Gather | apps/ipxbeui/ipx.c:256-264 | the fragments one behind the other in the packet buffer, the rest of it untouched |
| Ipx.Sender.FillHeader | apps/ipxbeui/ipx.c:266-280 | checksum, length, transport control and source address filled in, all else untouched |
| Ipx.Sender.SendPacket | apps/ipxbeui/ipx.c:150-296 | malformed exactly without fragments, with a first fragment below 30 bytes or with sizes whose sum exceeds 1470 in its low 16 bits; otherwise the packet is in the buffer |
| Ipx.PacketFields | apps/ipxbeui/ipx.c:256-280 | the header fields of what is sent; NetBEUI packets go as they are |
| Ipx.PourAt | apps/ipxbeui/ipx.c:389-401 | every fragment gets the bytes of its own place in the packet and their number, and keeps its other bytes; what the packet does not reach is untouched |
| Ipx.TallyIs | apps/ipxbeui/ipx.c:389-401 | the numbers add up to the size of the packet, or to the room there is |
| Ipx.PourFills | apps/ipxbeui/ipx.c:389-401 | the usable fragments together hold the packet as far as it and they last |
| Ipx.Input | apps/ipxbeui/ipx.c:387-406 | the loop, which advances by fragment sizes, scatters consecutive bytes; each fragment the packet reaches holds its place of it and the number of bytes, all others are as before |
| Ipx.EndToEnd | apps/ipxbeui/ipx.c:186-280 | a listener gets the sender's fragments in order, except for the header fields the sender rewrites |
| Ipx.Receiver.Dispatch | apps/ipxbeui/ipx.c:379-411 | the packet goes to the first block listening on the first socket with its number, which leaves the list; no other block changes |
| Ipx.SizeCheckExact | apps/ipxbeui/ipx.c:186-190 | the 16-bit size check accepts exactly the allowed packets if and only if the sum is below 64K or its low 16 bits exceed 1470 |
| Ipx.WrapOverruns | apps/ipxbeui/ipx.c:186-190 | every sum that wraps to an allowed size is reached by two fragments, which do not fit the buffer |
| Base64.Base64Encode | apps/http_zot/src/httpd.c:2149-2178 | the text, its zero, and the length 4 * ceil(n / 3) + 1 |
| Base64.RoundTrip | apps/http_zot/src/httpd.c:2149-2178 | decoding gives the input back, for every input |
| Base64.EncodeAppend | apps/http_zot/src/httpd.c:2149-2178 | whole groups of three bytes in front are encoded on their own |
| Base64.AdminPrefix | apps/http_zot/src/httpd.c:2192-2193 | "admin:" before anything encodes to "YWRtaW46" before its encoding |
| Calendar.MonthAndDay | apps/http_zot/src/gmtime.c:86-101 | the month and day of a day of the year, in leap years and others |
| Calendar.GmTime | apps/http_zot/src/gmtime.c:52-103 | the time whose count of seconds is the argument, in a calendar where every fourth year is a leap year, with weekday and day of the year; negative arguments count as 0; it is the Gregorian time exactly for arguments before 1 March 2100 |
| Calendar.RightBefore2100March | apps/http_zot/src/gmtime.c:52-103 | a time of that calendar is the Gregorian one exactly before 1 March 2100 |
| Calendar.MonthStarts | apps/http_zot/src/gmtime.c:86-101 | the first day of each month in closed form |
| Calendar.DaysFormula | apps/http_zot/src/gmtime.c:52-103 | the days before a year of the Gregorian calendar in closed form |
| Calendar.SameSeconds | apps/http_zot/src/gmtime.c:52-103 | no other time has that count of seconds |

## Left out

- Huffman.HuftBuild: for incomplete sets with a wide table nothing is claimed, because the string that meets the unwritten entry may start with no code of the set.
- BuildLoop.DoneRejects: an incomplete set with zero lengths is not claimed to reject strings without a code, because the code compares its position with the number of lengths instead of the number of codes and then reads values it never wrote.
- Huffman.HuftBuild: result 3 is tied to a request malloc refused, not to a bound on the memory a set of lengths needs. The counter hufts is not modelled.
- Inflate.Inflater.Run: data that end early, start with no code or refer back before their beginning are excluded, because the code does not look for them; so is memory that ends less than three bytes behind the data.
- Window.Output.FlushWindow: addresses do not wrap at 32 bits, and zbytes_out is not modelled.
- BitReader.Reader.NeedBits: the or of disjoint bits is an addition; the local register copies of the globals are the globals.
- Alloc.Allocator.Malloc: sizes above 2^32 - 12 are excluded, where rounding up overflows; Base is not directly in front of the first arena.
- Alloc.Allocator.Free: a pointer that passes the audit check must be a live block; the code has no other defence.
- Image.DamageDetected: damage across the end of the checksum field, or in the length field, is not claimed to be detected.
- ImageMaker.Maker.SetupHeader: the printed version and date are a parameter of at most 214 bytes; fields are written in address order.
- ImageMaker.Maker.Merge: sub-images are as long as their headers say; what the code makes of bytes outside its buffers is not modelled.
- Flash.Driver.ReadFlash: a length of 0 is excluded, which the code turns into a count of 2^32. SPI register polling is one exchange of a byte each way.
- Gzip.GzDecompress: output that overtakes the reading of the input is excluded; so are, with the addresses of the loader, the heap and the window, which lie behind the input.
- Loader.Boot: buttons, lights, delays, remapping and the jump to the firmware are not modelled.
- NicTx.TxRing.SendFrame: frames longer than the 1536-byte buffers are excluded, because the code does not check; checksum and segment flags are not modelled.
- NicRx.ReadyPass: the order of a queue-full pass (mode 1) is claimed for a halted engine, as the queue-full interrupt finds it.
- Ipx.Sender.SendPacket: sizes that pass the check although they exceed the buffer (`Overruns`) are excluded; the link-level header and the sending itself are not modelled.
- Stack arrays of huft_build, inflate_fixed and inflate_dynamic are sequences; their loops reassign them.
- The rest of httpd.c, text formatting of dates, PHY, interrupt and chip set-up code, NetBEUI, and code that is compiled out would add members without hard properties.

# Verification model of UDFS

UDFS gives a BBC Micro a disk drive made of three parties: a DFS ROM on the BBC, an AVR that
bridges the user port to USB, and a server on a PC that holds the disk image. This directory
models that chain, the DFS algorithms that stand on it, and two of the repository's tools, in
Dafny, and proves what each promises.

- `Bytes`, `Layout`, `Bits`, `Flags` - 8-bit arithmetic with its carries, the address space, the
  EOR/AND/EOR idiom, and the flag byte of an open file.
- `Usb`, `Firmware`, `Lockstep` - the endpoints' bank semantics, the AVR's 13-state machine as a
  class over its registers and as a step function, and its joint runs with the ROM.
- `Server` - the host's request execution and main loop.
- `Transfer`, `Blocks`, `Cable` - `send_msg` as an imperative method over memory, with the firmware
  and host classes at the other end of the cable, the block reads built on it, and files and blocks
  read through all of that.
- `Uptx` - the command-line ROM's transfer, which stores each byte through the ROM latch.
- `Catalogue`, `CatalogueEdit`, `Device`, `Extension`, `Mover`, `Compaction` - allocation, deletion,
  extension, shrinking, chunked moves and `*COMPACT` on the catalogue pages and on a disk.
- `Channels`, `Reading`, `Opening` - BGET and PTR# through one-sector buffers, down to the disk
  image, and OSFIND for input from the point where the file and a free handle have been found.
- `Writing`, `Updating` - BPUT through a buffer that is written back, closing, and whole sessions of
  BGET, BPUT and PTR# on a file open for writing.
- `CatListing` - the selection sort of `*CAT`.
- `Opcodes`, `Operands`, `Assembly`, `Disassembler` - the disassembler's output and a reader for it
  that knows the symbols.
- `Xbm` - the bitmap conversion.

`dafny verify dfyconfig.toml` checks everything.

## How the model is made

The 6502 routines are methods over a 64K array of bytes with the source's addresses, variable by
variable; carries, borrows, page loops and byte wrap-around are explicit. Registers are locals and
the stack is not modelled. Two's-complement, 16-bit and C conversions are written out.

- A strobe and its acknowledgement are one atomic step; waiting loops on hardware flags end with
  the flag set, the event they wait for being a precondition of the step (`Enabled`).
- The host runs while the AVR waits in `SEND_RETCODE`; the reply may then reach the AVR in any
  split into packets. In `Lockstep` the split is arbitrary, in `Transfer` it is the one the host's
  64-byte endpoint makes.
- The byte on an undriven bus is arbitrary. Reading the port needs the other side to drive it.
- Memory is one flat array, with sixteen banks beside it in `Uptx`, whose latch reads back as it was
  written. The user port's registers are fields. A block that would lie in the I/O
  pages, wrap round the top of memory or cover the variables that walk it is excluded.
- The AVR's reset pulse is the one `send_msg` issues before each message; `ResetReleasesBus` says
  what a pulse does in any state.
- In `Extension`, `Mover`, `Compaction`, `Writing` and `Updating` the block device keeps what is written to it. The build
  in the repository stubs its two write entries (udfs_rom/udfs_rom.s:3728-3737), so these results
  are about the routines with a device that writes; its reads are those of the whole chain
  (`Cable.LoadBlock`, `LoadPages`). The claims about catalogue pages in memory need no such
  assumption.
- C leaves the order of the two `getByte` calls in one expression open (d6502/main.c:690); the low
  byte is taken first, as the printed addresses require. Plain `char` is taken as signed.
- The reader of listings takes what the printed syntax means to an assembler: punctuation is
  required, an empty string stands for no bytes, only printable characters stand in quotes, and an
  address below 256 that is not written in four digits is in page zero if the mnemonic allows it.
- What the device routines write besides a block (`Device.IsDeviceByte`) is given arbitrary values,
  so that nothing depends on it.
- A refused extension stores new high bits in memory before it finds out. `RefusalKeeps` and
  `RefusalOverruns` speak of that moment; `Extension.BputExtend` of what is left when BPUT ends.
- The source's catalogue entries are read off memory as `Entry` values with their eight name and
  eight information bytes; nothing of an entry is abstracted away.

Where a promise fails, the exact condition under which it holds is proved, with an example that
breaks it: the SEND_PREP reset (`Lockstep.ResetReleasesBus`), the ten-bit sector
(`Blocks.ServerSeesStart`, `DiskInImage`), the unchecked first file (`Catalogue.Create`,
`FirstFileOverruns`), empty files under compaction (`Compaction.CompactKeeps`,
`EmptyFileDisplaced`), a seek beyond the end of a file open for writing (`Updating.AtEndOk`,
`StaleLoses`, `StaleFile`), and reassembly (`Assembly.TextReads` and `LineReads` for a line,
`Disassembler.Disassemble` for an image; `QuotationMarkLost`, `QuotationMarkRefused`,
`StrayRefused`, `SymbolShortens` and `Opcodes.NineMore` are the examples).

## Model

| member | source | states |
|---|---|---|
| `Usb.Registers.RecvByte` | firmware/usbio.h:60-67 | the receive loop, acknowledging packets while the bank is empty, takes one byte as the specification `Recv` does |
| `Usb.RecvTakesNextByte` | firmware/usbio.h:60-67 | for every split of the reply into packets, empty ones included, the byte received is the next byte of the stream; no packet is lost or repeated and the IN side is untouched |
| `Usb.RecvWord` | firmware/main.c:303-304 | two received bytes are the next two of the stream, low byte first |
| `Usb.FinishAcknowledgesAll` | firmware/main.c:352-355 | once the whole reply is read, the last acknowledgement leaves no packet unacknowledged, and the count equals the number of packets |
| `Usb.ChunksFrame` | firmware/main.c:266-285 | the packets of a transfer concatenate to it, none is empty, all but the last are full |
| `Usb.PutOne` | firmware/main.c:269-273 | flushing only when the next byte finds the bank full moves exactly one full packet out of the bank |
| `Usb.FlushLast` | firmware/main.c:279-282 | the flush after the last byte completes exactly the packets of the transfer |
| `Usb.Registers.PutByte` | firmware/usbio.h:55-58 | a byte is appended to the selected IN bank |
| `Usb.Registers.FlushPacket` | firmware/usbio.h:40-43 | the IN bank goes onto the cable as one packet |
| `Usb.Registers.AckPacket` | firmware/usbio.h:35-38 | the OUT bank is handed back and counted |
| `Firmware.Bridge.DoMessaging` | firmware/main.c:148-364 | one call on the fields, port registers and endpoints, reset pulse or not, is the function `Step` |
| `Firmware.RequestStep` | firmware/main.c:171-286 | for every request, byte i takes the AVR from place i to place i + 1: header registers, down-counter, endpoint bank and packets sent |
| `Firmware.PutBody` | firmware/main.c:266-286 | the packets formed after j + 1 body bytes follow from those after j, with the final flush at the last |
| `Firmware.ResponseStep` | firmware/main.c:297-362 | from the strobe that turns the bus to the last, whatever the other side leaves in its latch, the byte on the bus is the next byte of the response and all OUT packets stay accounted for |
| `Lockstep.Lockstep` | firmware/main.c:148-364 | after any prefix of a message the AVR's state, counter, bus direction and bus byte are those the ROM's position requires; the two never both drive the bus |
| `Lockstep.SessionLockstep` | udfs_rom/udfs_rom.s:3762-3848 | the same at every moment of every sequence of complete messages, for any packet split of each reply, with the reset pulse send_msg issues before each |
| `Lockstep.MessageCompletes` | udfs_rom/udfs_rom.s:3780-3837 | a message with N body and M reply bytes takes 6 + N + 1 + 3 + M + 1 strobes; both ends finish idle and each reply packet has been acknowledged once |
| `Lockstep.SessionCompletes` | firmware/main.c:352-361 | every session of complete messages ends idle with clean endpoints |
| `Lockstep.RequestFraming` | firmware/main.c:227-286 | when the host answers, the cable holds the six-byte header alone and then the body in 64-byte packets, only the last possibly shorter |
| `Lockstep.ResetAtIdle` | firmware/main.c:148-182 | a reset pulse at idle changes nothing but the channel register, which the next message overwrites |
| `Lockstep.ResetReleasesBus` | firmware/main.c:148-164 | anywhere else the pulse restarts the state machine; it fails to release the bus if and only if it arrives in SEND_PREP |
| `Server.Host.ReadBlock` | server/main.c:70-82 | the copy loop leaves the numBytes bytes at 256 * block of the image in the response buffer |
| `Server.Host.ExecuteRequest` | server/main.c:55-107 | return code, length and bytes for READ_BLOCK, CALC and both errors |
| `Server.Host.BulkRead` | server/main.c:173-185 | reading off the cable reassembles the transfer whose packets are there |
| `Server.Host.BulkWrite` | server/main.c:190-198 | writing cuts a transfer into packets |
| `Server.Host.Serve` | server/main.c:172-199 | one turn of the main loop takes exactly one request off the cable and adds the answer: header packet, then body packets |
| `Server.AnswerPrefix` | server/main.c:179-188 | the answer depends only on the bytes the request carries, not on what earlier requests left in the buffer |
| `Server.CalcMeans` | server/main.c:58-65 | the four results are sum, difference and product modulo 256 and the whole quotient, stated without computing them |
| `Server.CalcExamples` | server/main.c:58-65 | for example 7 and 3 give 10, 4, 21, 2; 3 and 7 give 10, 252, 21, 0 |
| `Server.BlockAnswer` | server/main.c:70-82 | the bytes s % 256, s / 256 with anything in its upper six bits, n % 256, n / 256 are answered 0 with the n bytes from sector s |
| `Server.ErrorAnswers` | server/main.c:96-105 | any other channel is answered 2 and any other command 1, both with no bytes, whatever else the request says |
| `Transfer.FlatAddress` | udfs_rom/udfs_rom.s:3786-3801 | as long as a block does not wrap, the paged pointer and index are the flat address |
| `Transfer.Beeb.SendPages` | udfs_rom/udfs_rom.s:3786-3796 | the page loop sends 256 bytes a page at consecutive addresses, for every page count including none, and terminates on (pages, index) |
| `Transfer.Beeb.SendFinalPage` | udfs_rom/udfs_rom.s:3797-3801 | the low-byte loop sends the rest |
| `Transfer.Beeb.SendRequest` | udfs_rom/udfs_rom.s:3758-3808 | reset pulse, header, body and turn of the bus: the AVR holds exactly the request; only the send_msg variables change |
| `Transfer.Beeb.ReceiveByte` | udfs_rom/udfs_rom.s:3821-3824 | each strobe of the receive phase is followed by reading the byte the AVR placed for it |
| `Transfer.Beeb.ReceiveReply` | udfs_rom/udfs_rom.s:3809-3837 | memory at the receive address equals the reply, status and length are stored, nothing else changes |
| `Transfer.Beeb.SendMsg` | udfs_rom/udfs_rom.s:3752-3842 | end to end through ROM, AVR, USB and host: status, length and memory are the host's answer to the message in the parameter block, all three are idle again, pcr and acr are restored, the reset line was pulsed exactly once and the strobes are counted |
| `Transfer.ResponseDone` | firmware/main.c:352-361 | after the last strobe the AVR is clean: both endpoints empty, nothing arriving |
| `Blocks.DiskBase` | udfs_rom/udfs_rom.s:4152-4187 | the base sector is 800 times the nine-bit disk number, computed by shifts and adds; no disk leaves memory unchanged |
| `Blocks.SetupBlock` | udfs_rom/udfs_rom.s:4204-4247 | the request is refused for no disk, more than 255 sectors, or an end past sector 800, and otherwise yields base plus start, sector count and last-sector length that re-encode to the exact byte length |
| `Blocks.CheckLength` | udfs_rom/udfs_rom.s:4222-4235 | sector count and last-sector length stand for the 16-bit length, or the block is too big |
| `Blocks.CheckWindow` | udfs_rom/udfs_rom.s:4236-4247 | the end of the block is compared with $320 exactly |
| `Blocks.MmcReadBlock` | udfs_rom/udfs_rom.s:3554-3623 | the bytes asked for arrive at data_ptr; only the message variables change |
| `Blocks.MmcReadCat` | udfs_rom/udfs_rom.s:3625-3705 | the catalogue pages receive the first 512 bytes of the image |
| `Blocks.MmcLoadMemBlock` | udfs_rom/udfs_rom.s:4286-4291 | on every disk: the request is refused with nothing but block variables touched, or memory receives exactly the length asked for from the sector the host sees, which is (800*disk + start) mod 1024; the block must then lie in the host's image |
| `Blocks.DiskInImage` | server/main.c:51-78 | every block the ROM accepts on a disk lies inside the host's 204800 bytes if and only if the disk number is a multiple of 32; on disk 1, sector 0 is beyond it already |
| `Blocks.InImageMeans` | server/main.c:71-78 | one request stays inside the image if and only if the whole block fits below sector 800 where the host sees it |
| `Blocks.AcceptedFits` | udfs_rom/udfs_rom.s:4236-4247 | on disk 0, and any multiple of 32, an accepted block lies inside the image at the sector asked for |
| `Blocks.ServerSeesStart` | server/main.c:71-71 | because only ten bits of the sector travel, the host reads the sector asked for if and only if the disk number is a multiple of 32 |
| `Cable.InfoMeans` | udfs_rom/udfs_rom.s:4204-4247 | with the information bytes of an entry in $be to $c5 the block asked for is the file of that entry, and it is refused for want of a disk, for more than $ff00 bytes, or for an end beyond sector 800, in that order |
| `Cable.LoadFile` | udfs_rom/udfs_rom.s:4286-4291 | loading a file by its entry: refused exactly in those cases with nothing but block variables touched, or every byte of it, from its first sector on, arrives at its load address and no other byte changes but the message variables |
| `Cable.BlockMeans` | udfs_rom/udfs_rom.s:4204-4247 | every block module `Device` reads is one the ROM accepts, for the same bytes |
| `Cable.LoadBlock` | udfs_rom/udfs_rom.s:4286-4291 | what `Device` takes for granted of reading a block is what the whole chain to the host does |
| `Cable.LoadPages` | udfs_rom/udfs_rom.s:3625-3705 | and so is reading the catalogue pages |
| `Uptx.Micro.SendPages` | uptx_rom/uptx_rom.s:173-183 | the page loop sends whole pages from consecutive addresses as the selected bank shows them |
| `Uptx.Micro.SendRequest` | uptx_rom/uptx_rom.s:145-202 | the AVR holds exactly the request, the latch is saved, the storing code is in main memory and only working variables have changed |
| `Uptx.Micro.StoreByte` | uptx_rom/uptx_rom.s:240-245 | one byte goes to its address in the bank asked for and the latch is back at its saved value |
| `Uptx.StoringCode` | uptx_rom/uptx_rom.s:240-245 | the fifteen bytes installed are LDX dest_rom, STX ROM, STA (data_ptr),Y, LDX command, STX ROM and RTS, read by the opcode table |
| `Uptx.Micro.ReceiveBodyByte` | uptx_rom/uptx_rom.s:215-217 | after every byte of the reply the latch is what it was, the bytes so far lie at consecutive addresses of the bank, and nothing else has changed |
| `Uptx.Micro.ReceivePages` | uptx_rom/uptx_rom.s:214-223 | the same over the page loop, for every number of pages including none |
| `Uptx.Micro.ReceiveFinalPage` | uptx_rom/uptx_rom.s:225-230 | and over the low-byte loop |
| `Uptx.Micro.RunTransfer` | uptx_rom/uptx_rom.s:145-238 | end to end: the reply lies in the bank asked for, every other byte of every bank and of main memory is unchanged but for the working variables, all parties are idle and the strobes are counted as for send_msg |
| `Bits.EorAndEor` | udfs_rom/udfs_rom.s:1215-1217 | EOR, AND mask, EOR replaces exactly the masked bits |
| `Bits.MergeTopSix` | udfs_rom/udfs_rom.s:1215-1217 | the idiom with mask $fc |
| `Bits.MergeBits45` | udfs_rom/udfs_rom.s:1776-1778 | the idiom with mask $30 |
| `Bits.AndNot` | udfs_rom/udfs_rom.s:1340-1342 | EOR #$ff and AND take one file's bit out of the open-file byte and leave every other bit test as it was |
| `Bits.AndOrLowPair` | udfs_rom/udfs_rom.s:2870-2873 | AND #$fc and ORA replace the lowest two bits of a byte |
| `Flags.TestedBits` | udfs_rom/udfs_rom.s:1713-1715 | the tests of the flag byte are AND with $80, $40, $20 and $10 giving nonzero |
| `Flags.SetBits` | udfs_rom/udfs_rom.s:1705-1707 | setting a flag is ORA with that mask |
| `Flags.ClearedBits` | udfs_rom/udfs_rom.s:1708-1710 | clearing flags is AND with $7f, $bf and $6f |
| `Catalogue.WellFormedMeans` | udfs_rom/udfs_rom.s:1161-1208 | the layout invariant is: descending start, pairwise disjoint, from sector 2, within the disk |
| `Catalogue.GetFirstBlock` | udfs_rom/udfs_rom.s:779-793 | the borrow-chain comparison is: 256 times the gap is at least the three-byte length |
| `Catalogue.FindGap` | udfs_rom/udfs_rom.s:1161-1176 | the search stops at the lowest gap that fits, and reports full only if none does |
| `Catalogue.EntryFields` | udfs_rom/udfs_rom.s:1211-1229 | a concrete entry whose length, start and end use every field of the packed byte |
| `Catalogue.HeaderFields` | udfs_rom/udfs_rom.s:779-793 | a concrete header: number of files, disk size, and where the entries are |
| `Catalogue.CycleCounts` | udfs_rom/udfs_rom.s:1282-1287 | adding one to the sequence number in decimal mode: for all digits t and o, $to becomes the digits of (10 * t + o + 1) modulo 100 |
| `Catalogue.CycledDecimal` | udfs_rom/udfs_rom.s:1282-1287 | after n writes a decimal sequence number is decimal and has advanced by n modulo 100 |
| `Catalogue.NewEntryBytes` | udfs_rom/udfs_rom.s:1176-1229 | where each byte of a new entry comes from: the name from $c7, six bytes from $be, four pairs of bits |
| `Catalogue.OpenSlot` | udfs_rom/udfs_rom.s:1176-1185 | the copy loop moves the entries from the insertion point up by one slot |
| `Catalogue.Pack` | udfs_rom/udfs_rom.s:1211-1229 | the four pairs of high bits share a byte |
| `Catalogue.FillSlot` | udfs_rom/udfs_rom.s:1176-1198 | opening a slot and filling it is insertion into the file list |
| `Catalogue.Create` | udfs_rom/udfs_rom.s:1161-1210 | first fit exactly: the new entry is inserted at the lowest gap that fits, the others keep order and contents and the layout stays sound; full list, full disk and the unchecked empty catalogue, for which soundness holds if and only if the file fits |
| `Catalogue.FirstFileOverruns` | udfs_rom/udfs_rom.s:1165-1166 | a length, 204545 bytes, that an empty catalogue of 800 sectors accepts and that runs past them |
| `Catalogue.InsertKeeps` | udfs_rom/udfs_rom.s:1174-1185 | a file at the bottom of a gap keeps the layout if and only if it fits the gap |
| `Catalogue.BasesDescend` | udfs_rom/udfs_rom.s:1169-1176 | gaps met later in the search are higher on the disk |
| `CatalogueEdit.Delete` | udfs_rom/udfs_rom.s:458-470 | the entry is removed, the rest keeps order, contents and layout; no other byte changes |
| `CatalogueEdit.Extend` | udfs_rom/udfs_rom.s:1762-1803 | an extension takes all the room up to the upper neighbour and is refused if and only if the file has it already; what a refusal leaves in the length is stated too |
| `CatalogueEdit.ExtendKeeps` | udfs_rom/udfs_rom.s:1796-1803 | an extended file ends exactly where its neighbour starts, and the layout stays sound |
| `CatalogueEdit.RefusalKeeps` | udfs_rom/udfs_rom.s:1772-1785 | between the store of the new high bits and the close that follows a refusal, the entry in memory keeps the layout if and only if the length modulo 65536 is at most $ff00 |
| `CatalogueEdit.RefusalOverruns` | udfs_rom/udfs_rom.s:1772-1794 | a concrete file whose entry runs past the end of the disk in that interval |
| `CatalogueEdit.SetLength` | udfs_rom/udfs_rom.s:1350-1361 | closing writes EXT into the entry, counts the catalogue write and changes no other byte |
| `CatalogueEdit.SetLengthKeeps` | udfs_rom/udfs_rom.s:1350-1361 | closing keeps the layout if and only if the length fits the room; shrinking always does |
| `Extension.BputExtend` | udfs_rom/udfs_rom.s:1761-1803 | BPUT to a full file, with the reads and writes around it: granted or refused, the catalogue in memory and on the disk gives the file exactly the room up to its neighbour, every other entry is as it was and the layout is sound; refused if and only if the file had the room already, and then it is closed and the disk holds what was seen of it through the buffer, so that no byte written before is lost and no sector outside the file's room changes |
| `Extension.CloseRefused` | udfs_rom/udfs_rom.s:1793-1794 | the close after a refusal replaces what had been stored early, the catalogue being read again and EXT written if the file has grown, and writes the buffer if it has changed |
| `Extension.NothingStored` | udfs_rom/udfs_rom.s:1772-1779 | in a file that has not grown the bits stored early were there already |
| `Extension.Close` | udfs_rom/udfs_rom.s:1336-1365 | a close gives up the handle's bit, reads the catalogue again if the file has changed, writes EXT into it and onto the disk if it has grown, and writes a changed buffer to the sector it records; every other byte of data stays |
| `Extension.FlushBuffer` | udfs_rom/udfs_rom.s:1713-1742 | a changed buffer goes to the sector it records and is no longer marked changed; otherwise nothing is written |
| `Extension.OthersKept` | udfs_rom/udfs_rom.s:1713-1742 | if that sector is one of a file's own, no data outside that file's sectors changes |
| `Mover.ChunkSize` | udfs_rom/udfs_rom.s:3114-3121 | the chunk is the smaller of the sectors left and the buffer |
| `Mover.ReadChunk` | udfs_rom/udfs_rom.s:3114-3132 | the buffer holds the chunk at the source |
| `Mover.WriteChunk` | udfs_rom/udfs_rom.s:3140-3148 | the destination receives the buffer, that is the source chunk as it was before |
| `Mover.CountDown` | udfs_rom/udfs_rom.s:3161-3168 | the 16-bit count goes down by the chunk and the loop ends at zero |
| `Mover.MoveChunk` | udfs_rom/udfs_rom.s:3114-3148 | one pass moves one chunk, the source read before the destination is written |
| `Mover.MoveFile` | udfs_rom/udfs_rom.s:3110-3169 | for a destination below the source, any count above zero and any buffer size above zero, the destination range ends as the source was, the rest of the disk is unchanged and the pointer has advanced by the count; bit 7 of $a8, which asks for the file to be created first, is clear as *COMPACT leaves it |
| `Compaction.Compact` | udfs_rom/udfs_rom.s:2797-2882 | the sound catalogue read from the disk becomes the packed list, on disk and in memory; every file's sectors hold what they held; title, boot option and size stay and the sequence number has gone up once for each file moved; the free count is the size less the used prefix |
| `Compaction.CompactFile` | udfs_rom/udfs_rom.s:2828-2882 | the loop body keeps the stage invariant: files from k on packed, their data carried, the others where they were, title and boot option kept and the sequence number up by one for each file moved |
| `Compaction.CountSectors` | udfs_rom/udfs_rom.s:2839-2850 | the carry chain rounds the 18-bit length up to sectors |
| `Compaction.StoreStart` | udfs_rom/udfs_rom.s:2868-2873 | the new start replaces the old in the packed byte and leaves its other bits |
| `Compaction.FreeSectors` | udfs_rom/udfs_rom.s:2814-2823 | the number reported is the disk size less the used prefix |
| `Compaction.CompactedContiguous` | udfs_rom/udfs_rom.s:2854-2873 | files with data are contiguous from sector 2 in the same order with the same names and lengths |
| `Compaction.CompactKeeps` | udfs_rom/udfs_rom.s:2831-2835 | the layout stays sound if and only if no empty file directly below a file with data has free space under it |
| `Compaction.EmptyFileDisplaced` | udfs_rom/udfs_rom.s:2831-2835 | two files for which it does not |
| `Compaction.CarryMove` | udfs_rom/udfs_rom.s:2868-2879 | moving one file down preserves its data and all data not yet moved |
| `Channels.RunOps` | udfs_rom/udfs_rom.s:1644-1742 | any interleaving of BGET and PTR#= on any open files, over the whole transfer stack, returns what plain arrays return; every flag-7 buffer still holds the sector it records |
| `Channels.Bget` | udfs_rom/udfs_rom.s:1651-1694 | one BGET: the byte at PTR and PTR moved on; at EXT $fe with carry once and then the EOF error; a bad handle the channel error |
| `Channels.SetPtr` | udfs_rom/udfs_rom.s:1856-1889 | one PTR#=: the new PTR, the EOF report cleared, the buffer revalidated exactly if it holds the new sector; beyond EXT the read-only error with PTR left at EXT |
| `Channels.GetFrom` | udfs_rom/udfs_rom.s:1654-1694 | BGET on one file's block is the read of a plain array, its block and buffer still describing the file |
| `Channels.SeekFrom` | udfs_rom/udfs_rom.s:1858-1889 | PTR#= on one file's block is the seek on a plain array |
| `Channels.FillBuffer` | udfs_rom/udfs_rom.s:1695-1742 | the buffer receives the sector PTR is in and the handle records it |
| `Channels.TakeByte` | udfs_rom/udfs_rom.s:1671-1694 | the byte at PTR comes from the buffer; crossing a page makes it not current |
| `Channels.Revalidate` | udfs_rom/udfs_rom.s:1876-1889 | flag 7 is set if and only if the recorded sector is the one of PTR |
| `Channels.ExtentReaches` | udfs_rom/udfs_rom.s:1900-1906 | the borrow chain is the comparison of two 24-bit numbers |
| `Channels.FindHandle` | udfs_rom/udfs_rom.s:1592-1646 | a handle selects an offset and tests the bit of that file |
| `Channels.AllStillOk` | udfs_rom/udfs_rom.s:1695-1742 | work on one file leaves every other file's block and buffer as they were |
| `Channels.ReadsOn` | udfs_rom/udfs_rom.s:1651-1694 | reading a file from PTR gives its bytes in order whatever other files are read or moved in between |
| `Channels.FiveHandles` | udfs_rom/udfs_rom.s:1592-1646 | handle $11 is bit 7, the block at $1120 and the buffer at $1200, and so on to $15 |
| `Reading.ReadsFrom` | udfs_rom/udfs_rom.s:1651-1694 | n calls of BGET from PTR p return bytes p to p + n of the file and leave PTR at p + n; no other file moves |
| `Reading.SeekReads` | udfs_rom/udfs_rom.s:1856-1889 | PTR#= inside the file or at its end and n BGETs return done and then the n bytes from there; no other file moves |
| `Reading.SeekEnd` | udfs_rom/udfs_rom.s:1856-1889 | PTR#= to the end and two BGETs return the end of the file once and then the error, whatever was reported before |
| `Reading.SeekBeyond` | udfs_rom/udfs_rom.s:1856-1889 | beyond the end of a read-only file: the read-only error with PTR at EXT, and no other file moves |
| `Opening.OpenInput` | udfs_rom/udfs_rom.s:1439-1494 | the handle block is the catalogue entry's start, length and drive with PTR zero, no buffer and no flags; the sectors allocated are recorded; no byte outside the block, the mask and a counter changes |
| `Opening.RoundedUp` | udfs_rom/udfs_rom.s:1465-1474 | the carry chain through ORA #$0f rounds the 18-bit length up to sectors |
| `Opening.BitSet` | udfs_rom/udfs_rom.s:1461-1464 | setting one file's bit leaves the test of every other file's bit as it was |
| `Opening.Open` | udfs_rom/udfs_rom.s:1439-1494 | opening a file of a sound catalogue for input adds it, at its first byte, to the open files and disturbs no other |
| `Opening.OpenedReads` | udfs_rom/udfs_rom.s:1651-1694 | an opened file read to the end gives byte by byte the sectors its catalogue entry names, then $fe with carry once, then the EOF error |
| `Writing.SeenBytes` | udfs_rom/udfs_rom.s:1713-1742 | the sector a changed buffer is written to is the one the last fill recorded, and what a user sees of a file is what `Extension` writes |
| `Writing.FilledAndWritten` | udfs_rom/udfs_rom.s:1695-1742 | a buffer filled and marked as changed is written to the sector of PTR it was read from and leaves every sector of the file as it was |
| `Writing.MakeCurrent` | udfs_rom/udfs_rom.s:1808-1819 | unless the buffer is PTR's sector, a changed one is written and the sector of PTR loaded, or only noted at the end of the file; what is seen of the file stays |
| `Writing.PutAllMeans` | udfs_rom/udfs_rom.s:1749-1855 | bytes put one after the other replace those that were there and go on at the end |
| `Writing.PutByte` | udfs_rom/udfs_rom.s:1808-1855 | BPUT inside the sectors a file owns: its contents as seen through the buffer have the byte at PTR or are longer by it; only sectors of the file and its own variables change |
| `Writing.Bput` | udfs_rom/udfs_rom.s:1749-1855 | the whole of BPUT: it succeeds if and only if PTR is below the end of the file's room, the entry on the disk still the file's; otherwise the file is closed and its sectors hold what was seen of it |
| `Writing.CloseFile` | udfs_rom/udfs_rom.s:1336-1365 | closing: the entry on the disk has the file's length, its sectors hold what was seen of it, every other entry is as it was |
| `Updating.GetByte` | udfs_rom/udfs_rom.s:1651-1694 | BGET on a file open for writing, with changed buffers written first, is the read of an array of bytes |
| `Updating.SetPtr` | udfs_rom/udfs_rom.s:1856-1889 | PTR#= on a file open for writing: inside it PTR moves; beyond it the file is padded with zeros up to there, or up to its room, where it is closed; the condition on the buffer is the one of `AtEndOk` |
| `Updating.AtEndOk` | udfs_rom/udfs_rom.s:3520-3526 | PTR is set to EXT without its flag 7: what BPUT relies on holds after that if and only if the buffer is not current or is the sector of EXT, as it is whenever PTR was in that sector |
| `Updating.StaleLoses` | udfs_rom/udfs_rom.s:1865-1868 | otherwise the first zero of the padding replaces a byte inside the file and is missing at its end |
| `Updating.StaleFile` | udfs_rom/udfs_rom.s:1856-1868 | a concrete file of 300 bytes for which it happens |
| `Updating.RunOps` | udfs_rom/udfs_rom.s:1651-1889 | any sequence of BGET, BPUT and PTR# on a file open for writing returns what an array of bytes returns, as long as every seek beyond the end starts in the sector where the file ends; it ends early if and only if the file's room is full; no data outside that room changes |
| `Updating.Session` | udfs_rom/udfs_rom.s:1336-1889 | and when it is closed the disk holds that array: the entry's length, the file's sectors; the other entries are as they were |
| `Updating.PutsReadBack` | udfs_rom/udfs_rom.s:1651-1889 | bytes put from any place in the room on are read back from there, a gap reads as zeros and every other byte as before |
| `Updating.EndReported` | udfs_rom/udfs_rom.s:1651-1664 | the end is reported once and is an error after that; BPUT does not clear the report, PTR# does |
| `Updating.FullStops` | udfs_rom/udfs_rom.s:1791-1796 | a full file takes nothing more and is as it was |
| `CatListing.Cat` | udfs_rom/udfs_rom.s:692-764 | *CAT prints every file once: those of the current directory first, the others by directory, each directory by name and ties by position, stated on the bytes of the catalogue; the copy in memory is marked stale |
| `CatListing.PrintFiles` | udfs_rom/udfs_rom.s:704-764 | repeated selection terminates because each pass marks one more file, and prints the whole order |
| `CatListing.SelectLeast` | udfs_rom/udfs_rom.s:716-744 | from the first unmarked file the scan finds the least of all unmarked ones |
| `CatListing.FindUnmarked` | udfs_rom/udfs_rom.s:710-715 | the next unmarked file from an offset on, with only marked ones passed over |
| `CatListing.MarkLeast` | udfs_rom/udfs_rom.s:741-744 | marking changes bit 7 of one name and no file's key |
| `CatListing.Precedes` | udfs_rom/udfs_rom.s:727-738 | the borrow left by subtracting two names from the last character up is their dictionary order |
| `CatListing.ClearCurrentDir` | udfs_rom/udfs_rom.s:692-703 | the directory of a file is blanked exactly if its low seven bits are the current directory's; the lock bit stays |
| `CatListing.OneOrder` | udfs_rom/udfs_rom.s:704-764 | only one order of the files meets the specification |
| `CatListing.ClearedFirst` | udfs_rom/udfs_rom.s:692-703 | files of the current directory come before all others |
| `CatListing.ListedBytes` | udfs_rom/udfs_rom.s:692-764 | on the catalogue's bytes: every file once, the current directory first, then by directory and name, ties by position |
| `CatListing.CurrentDirFirst` | udfs_rom/udfs_rom.s:692-703 | whenever one file is printed before another: if the second is of the current directory so is the first, unless its directory is zero; of two other directories the lesser comes first |
| `CatListing.NamesInOrder` | udfs_rom/udfs_rom.s:727-738 | and of two files of one directory the earlier has the lesser character where their names first differ |
| `Bits.EorAgrees` | udfs_rom/udfs_rom.s:695-698 | EOR and a mask of low bits give zero exactly when the low bits agree |
| `Opcodes.TableCode` | d6502/main.c:599-671 | every entry of the opcode table that assembles stands where the 6502's encoding scheme puts its mnemonic and mode |
| `Opcodes.CodeInTable` | d6502/main.c:599-671 | and the converse: a mnemonic and mode that encode anything are those of the table entry they encode |
| `Opcodes.NineMore` | d6502/main.c:599-671 | the legal entries whose printed operand no assembler has are $12, $32 and so on to $f2, printed with a four-digit address in parentheses, and $7c, printed without its parentheses; no others |
| `Opcodes.WrittenOneWay` | d6502/main.c:599-671 | no mnemonic has two modes that are printed alike |
| `Operands.OperandReads` | d6502/main.c:677-789 | printed operand syntax, punctuation included, and mnemonic determine mode and operand bytes, with symbols in place of values; except that a symbol below 256 reads as page zero where the mnemonic has that mode, and a name of several values as none |
| `Operands.ShownReads` | d6502/main.c:677-789 | a value shown in digits or by a name of its own is the value read, and whether it takes two bytes is known except of a symbol below 256 |
| `Operands.BranchBack` | d6502/main.c:779-789 | a signed, 16-bit wrapping branch target determines the offset byte |
| `Operands.WordNotation` | d6502/main.c:689-738 | the notation of each mode with a two-byte operand, a symbol or four digits |
| `Operands.ByteNotation` | d6502/main.c:680-778 | of each direct mode with a one-byte operand, a symbol or two digits |
| `Operands.IndirectNotation` | d6502/main.c:739-758 | and of the two indirect ones |
| `Operands.BranchNotation` | d6502/main.c:779-789 | a branch shows its target |
| `Operands.DigitsShown` | d6502/main.c:680-789 | numbers in lower-case hexadecimal, upper digit first |
| `Assembly.TextReads` | d6502/main.c:812-874 | a printed run of text reads back as its bytes if and only if no byte is a quotation mark; otherwise it is refused or reads as other bytes, on the same line |
| `Assembly.MarkLost` | d6502/main.c:834-850 | with a quotation mark it cannot: reading uses a dollar sign for each byte that is written in hexadecimal, and the text has too few |
| `Assembly.LineReads` | d6502/main.c:796-922 | a printed line reads back as its label and bytes, whatever follows it, if and only if it is text without quotation marks, data with its directive, or an instruction an assembler has whose symbol, if any, is the only one of its name and does not shorten it; otherwise it is refused or, for text and instructions, gives other bytes on the same line |
| `Assembly.ListingReads` | d6502/main.c:796-922 | any listing reads back as its lines if and only if each of them does |
| `Assembly.QuotationMarkLost` | d6502/main.c:834-850 | a text run with quotation marks that reads back as different bytes |
| `Assembly.QuotationMarkRefused` | d6502/main.c:834-850 | one that does not read back at all |
| `Assembly.CodeReads` | d6502/main.c:875-921 | exactly what a complete instruction reads back as: itself; with a symbol below 256 in place of a whole address, the page-zero instruction if there is one; nothing if its symbol shares its name or no assembler has the instruction, as for every illegal opcode |
| `Assembly.SymbolShortens` | d6502/main.c:689-698 | a three-byte instruction that reads back as two bytes, because of a symbol for $70 |
| `Assembly.StrayRefused` | d6502/main.c:804-809 | a label inside a run of data starts a line without a directive, which is refused |
| `Assembly.CommentMeans` | d6502/main.c:920-920 | the comment is "; 0x" and four digits that read back as the address in sixteen bits |
| `Assembly.TextShown` | d6502/main.c:812-874 | two runs of text as they look |
| `Assembly.DataShown` | d6502/main.c:801-811 | a run of data as it looks |
| `Assembly.CodeShown` | d6502/main.c:739-758 | an instruction as it looks |
| `Assembly.LinesShown` | d6502/main.c:796-922 | directives and comments around them |
| `Disassembler.Disassembler.PrintTextByte` | d6502/main.c:833-868 | in every state of inQuotes and needComma the characters printed extend the list by the byte, and the flags describe the text so far |
| `Disassembler.Disassembler.DoText` | d6502/main.c:812-874 | a run of text prints as whole lines, one for each label in it, which read back if and only if none of its bytes is a quotation mark |
| `Disassembler.Disassembler.DoData` | d6502/main.c:801-811 | a run of data prints as whole lines, one for each label in it, which read back if and only if there is no label inside it |
| `Disassembler.Disassembler.DoOperand` | d6502/main.c:677-789 | each mode consumes its operand bytes, low byte first, and prints its syntax, with a symbol in place of a value that has one |
| `Disassembler.Disassembler.DoCode` | d6502/main.c:875-921 | an instruction, legal or not, with or without a symbol in its operand, prints as one line and is consumed whole; the line reads back if and only if an assembler has the instruction and its symbol, if any, is the only one of its name and does not shorten it |
| `Disassembler.Disassembler.Disassemble` | d6502/main.c:796-922 | for a whole image of code, text and data and any symbol table the output is lines that hold every byte in order, consumed once, with the labels at their places; given what the symbols stand for it reads back as those lines if and only if no text byte is a quotation mark, no label stands inside a run of data, every instruction met is one an assembler has, and every symbol in an operand is the only one of its name and shortens nothing |
| `Disassembler.LineHolds` | d6502/main.c:791-922 | each byte of each line is the byte of the image at its place; a line has the symbol of its address, none of its later bytes has one unless it is an instruction, and it is text, data or code as its region says |
| `Xbm.Flip` | xbm2bbc/main.c:20-31 | the byte comes back mirrored and complemented |
| `Xbm.FlippedTwice` | xbm2bbc/main.c:20-31 | flipping twice changes nothing |
| `Xbm.FlippedEnds` | xbm2bbc/main.c:20-31 | for example 01 becomes 7f and 80 becomes fe |
| `Xbm.Convert` | xbm2bbc/main.c:40-53 | the pointer walk fills every output byte from the bitmap byte the closed form names |
| `Xbm.PixelOnScreen` | xbm2bbc/main.c:40-53 | pixel (x, y) is at byte (y/8)*320 + (x/8)*8 + y%8, bit 7 - x%8, complemented |
| `Xbm.ScreenInverse` | xbm2bbc/main.c:40-53 | the byte map has an inverse from the bitmap side |
| `Xbm.BitmapInverse` | xbm2bbc/main.c:40-53 | and from the screen side |
| `Xbm.Recoverable` | xbm2bbc/main.c:20-53 | the bitmap is recovered from the screen |

## Left out

- Server.Host.ExecuteRequest: RW_FILE is file I/O; CALC needs a nonzero divisor, as the C does; READ_BLOCK needs the block inside the image, beyond which the C reads past its array; `Blocks.DiskInImage` says for which disks the ROM guarantees that.
- Transfer.Beeb.SendMsg: a reset in the middle of a message, after which the code does not clean the endpoints in every state; signal timing and delays.
- Blocks.MmcLoadMemBlock: a block beyond the host's image, for which the C has no meaning (`Blocks.InImageMeans` is the exact condition); the Tube hand-off after the read.
- Catalogue.Create: writing the pages to the disk, and the catalogue-full and disk-full error texts.
- Extension.BputExtend: the search for the name and the comparison of the entry with the open file (setup_save_to_media), which find the entry taken here; the locked-file and read-only checks before it; the refusal's check whether the file is being EXECed or SPOOLed to, which is an operating-system call.
- Mover.MoveFile: the creation of the destination file that *COPY asks for through bit 7 of $a8 before the first chunk; two different drives, and the prompts to change disks in one.
- Compaction.Compact: printing, and re-reading a catalogue that another program changed meanwhile.
- Channels.RunOps: runs that mix files open for input with files open for writing (`Updating.RunOps` has one of those at a time, on a disk that keeps what is written); the Tube addresses.
- Updating.SetPtr: what the file becomes after more than the first zero of a seek that destroys bytes (`StaleLoses`).
- Writing.Bput: the read-only and locked checks before it, and OSGBPB's loops over BGET and BPUT.
- Opening.Open: the search for the name and for a free handle, the refusal of files already open, and opening for output or update, which leaves the handle block `Writing` and `Updating` start from.
- CatListing.Cat: the two-column layout, the title line and the characters printed for each name.
- Disassembler.Disassembler.Disassemble: names that an assembler resolves by distance, + and -, which the reader refuses as names of several values; symbols whose names hold a comma, a closing bracket, a tab or a line end, or begin with $, # or a bracket; an instruction cut off by the end of the image, where the C reads past it; the hard-coded symbol and region tables, which are parameters; the symbol definitions printed first.
- Xbm.Convert: reading the bitmap from a header and writing the file.
- Uptx.Micro.RunTransfer: reading the parameters in hexadecimal from the command line, and restoring the port's control register, which this ROM does not do.
- USB enumeration, descriptors, watchdog and interrupt set-up; bulk-transfer time-outs.
- The Tube host code, MMC and MMB leftovers the patched ROM bypasses, sideways-RAM probing.
- Operating-system calls, message printing, filename parsing and wildcard matching.
- The bank registers of the USB controller beyond one bank per endpoint.

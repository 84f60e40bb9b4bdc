# LiteDroid: verified models of the device, boot, protocol and lifecycle code

LiteDroid runs Android guests from a small Rust code base: a KVM machine monitor with a virtio block device, an
ADB endpoint, a framebuffer, an MMIO bus, and a daemon that owns one emulator process and talks JSON over framed
sockets. This project models the parts of it that carry state or a format, and proves what they promise.

Verify everything with `dafny verify dfyconfig.toml`.

| files | what they model |
|---|---|
| `Bytes`, `Bits`, `Results`, `Constants` | byte strings, little- and big-endian integers, wrapping 64-bit arithmetic, bitwise operators, errors and panics, MMIO windows |
| `GuestMemory`, `Disk` | bounds-checked guest RAM as an array; the raw image as a byte sequence |
| `VirtioSpec`, `VirtioBlock` | one queue notification as a function of memory, disk and registers; the device object that updates them in place |
| `VirtioFrame`, `VirtioQueue`, `VirtioRun`, `VirtioBatch`, `VirtioRunBatch` | framing, prefix semantics, lock-step over whole runs, refinement of an abstract disk by one notification and by whole runs |
| `VirtioLayout`, `VirtioDriver`, `VirtioRegisters` | the driver's side: what it lays out and what it finds, in literal addresses and bytes; what the registers hold |
| `Paging`, `BootTables`, `Boot`, `BootMachine`, `BootProofs`, `Segments` | a page walk written from section 4.5 of the Intel SDM volume 3A, the boot structures, the object that builds them, what memory holds afterwards, and a descriptor decoder written from section 3.4.5 |
| `Streams`, `Adb`, `AdbSession`, `AdbAnswers`, `IpcFrames` | the ADB codec and connection loop, and what its peer reads; IPC framing |
| `Framebuffer`, `FramebufferProofs` | blits as row loops; blits as rectangles of pixels |
| `Daemon`, `DaemonState`, `DaemonReplies`, `AvdConfig` | the emulator lifecycle as a state machine and as an object; the configuration rewriter |
| `VirtioBus` | routing of MMIO accesses to devices |

Each object method is proved equal to a specification function on values; the theorems are about those functions, and
end in statements that do not name them: literal addresses, sectors, bytes, texts and runs.
Integer arithmetic wraps, as in the release profile. A Rust panic is the error `Panicked`, or `false` from a blit.

## Findings

- The block device reads the available ring at the start of the queue page, so its index lies inside descriptor 0
  and its entries inside the descriptor table, while the used ring is placed as if the available ring followed the
  table (section 2.7.6 of VIRTIO 1.2). The model keeps the code's base; `VirtioLayout.AvailOverlapsTable` states it.
- A notification of a queue whose size register was set to 0 divides by zero: `VirtioRun.NotifyPanicsIff`.
- Completions stay in distinct slots across the wrap of the 16-bit index only for sizes that divide 65536, which the
  size register does not enforce: `VirtioBatch.SlotsDistinctIff`.
- A sector number from 2^55 up wraps in `sector * 512` and addresses the disk from its start:
  `VirtioDriver.SectorReachedIff`.
- A request of an unsupported type is answered with status 1, which section 5.2.6 of VIRTIO 1.2 calls an I/O error;
  unsupported would be 2: `VirtioDriver.BuffersShowReplies`.
- With an odd RAM size below 1 GiB the last large page maps past the end of RAM: `BootTables.MapStaysInRamIff`.
- A kernel, plain or bzImage, that reaches the initramfs address is overwritten without an error, and setup sectors longer than 64 KiB
  are overwritten by the command line: `BootProofs.KernelSurvivesIff`, `BootProofs.SetupSectorsSurviveIff`. A short
  bzImage panics the loader: `BootProofs.LoadKernelPanicsIff`.
- The comment on `blit_from` says the copy is clamped to the framebuffer. A left edge past the right border is not:
  the row spills onto later rows or the copy panics. A visible row that starts past the end of the source panics
  too, wherever the rectangle is, since the length left over wraps. `GraphicsProofs.ClampsIff` gives the exact
  condition over all arguments, `GraphicsProofs.ToClampsIff` that of `blit_to`, whose buffer must likewise reach
  the start of every visible row; `GraphicsProofs.ShortBufferPanics` is a concrete input for both.
- The daemon can report a running device with no process behind it: `Daemon.PhantomIff` says after which runs,
  `Daemon.FalseRunningReachable` gives one.
- Rewriting the AVD configuration twice differs from rewriting it once when an unmanaged line still ends in a
  carriage return after splitting: one that ends in two or more, or an unterminated last line that ends in one.
  `AvdConfig.LastWriterWinsIff`.

## Model

| member | source | states |
|---|---|---|
| VirtioSpec.AlignUpLeast | crates/vmm/src/lib.rs:817-819 | the bit-mask align_up is the least multiple of a power-of-two alignment not below its argument, short of overflow |
| VirtioSpec.UsedBaseBounds | crates/vmm/src/lib.rs:801-804 | for every queue page and size up to 128 the used ring is page-aligned and past every descriptor and every available-ring byte the device reads |
| VirtioSpec.ChainBounds | crates/vmm/src/lib.rs:745-773 | every number of an accepted chain fits its field, and the status descriptor index is below the queue size |
| GuestRam.GuestMemory.ReadGuest | crates/memory/src/lib.rs:81-96 | fills the caller's buffer with the guest range exactly when the range neither overflows nor leaves RAM, and otherwise leaves the buffer alone |
| GuestRam.GuestMemory.WriteGuest | crates/memory/src/lib.rs:104-124 | overwrites exactly the range when it is in RAM, and otherwise changes nothing |
| GuestRam.GuestMemory.Create | crates/memory/src/lib.rs:35-73 | a new region is zero-filled and of the requested size; a size of zero and a refused mapping are errors |
| GuestRam.GuestMemory.ReadInt | crates/vmm/src/lib.rs:821-837 | the little-endian integer at an address, or the out-of-range error |
| Disk.RawDiskImage.Read | crates/storage/src/lib.rs:89-105 | returns the bytes up to the end of the file, and an error for an offset pread refuses |
| Disk.RawDiskImage.Write | crates/storage/src/lib.rs:108-124 | overwrites in place, zero-fills up to a start past the end, and changes nothing when refused or empty |
| Disk.WriteThenRead | crates/storage/src/lib.rs:89-124 | reading the range just written returns the data, wherever the file ended before |
| Disk.ReadBytes | crates/storage/src/lib.rs:89-105 | a read returns as many bytes as the file has from its offset, each from its own place |
| Disk.WriteBytes | crates/storage/src/lib.rs:108-124 | a write sets each byte of its range, keeps every other, and grows the file just to the end of its range |
| Bytes.LeDigits | crates/vmm/src/lib.rs:821-837 | the 2-, 4- and 8-byte numbers of guest memory, digit by digit from the low end |
| VirtioDevice.VirtioBlock.ReadChain | crates/vmm/src/lib.rs:746-782 | reads and checks the three descriptors and the header without changing anything; which error comes first is the specification's |
| VirtioDevice.VirtioBlock.TransferData | crates/vmm/src/lib.rs:775-798 | the disk transfer of one chain and the status it reports, on memory and file in place |
| VirtioDevice.VirtioBlock.PublishUsed | crates/vmm/src/lib.rs:801-813 | the used-ring update in place, including where it stops when a write is out of range |
| VirtioDevice.VirtioBlock.ProcessRequest | crates/vmm/src/lib.rs:745-814 | one request in place leaves memory, file and result as specified, on success and on every error path |
| VirtioDevice.VirtioBlock.ProcessQueue | crates/vmm/src/lib.rs:733-743 | the loop terminates and leaves registers, memory, file and result as the drain of the queue does |
| VirtioDevice.VirtioBlock.Write | crates/vmm/src/lib.rs:717-731 | a register write updates exactly its register, or drains the queue, and lets only a panic out |
| VirtioRun.RunLoop | crates/vmm/src/lib.rs:516-646 | the run loop over any exits leaves device, memory and file as the run of those exits, stopping at a stop exit or a panic |
| VirtioLayout.PlacedChainIsRead | crates/vmm/src/lib.rs:745-773 | over descriptors at 4096 * pfn + 16 * i and a header laid out as the standard says, the device accepts exactly the linked, correctly directed chains with a status address, reads back every field the driver wrote, and refuses any other with the error of its first fault |
| VirtioLayout.PlacedRingIsRead | crates/vmm/src/lib.rs:733-738 | over an available ring laid out as the standard says at 4096 * pfn, the device sees the driver's index and the head in the slot of its own index |
| VirtioLayout.FlagBits | crates/vmm/src/lib.rs:750-788 | the flag masks test bit 0 and bit 1 of the descriptor flags |
| VirtioLayout.AvailOverlapsTable | crates/vmm/src/lib.rs:734-738 | the available ring the code reads lies inside the descriptor table, its index inside descriptor 0, although the used ring leaves room for it after the table |
| VirtioDriver.DriverBatchIsGood | crates/vmm/src/lib.rs:733-804 | a batch described in the driver's terms, by literal addresses, is a good batch: its chains, heads and requests, at 512 * sector, are those the device finds |
| VirtioDriver.BatchIsServed | crates/vmm/src/lib.rs:717-743 | a zero stored to 0xfea00050 serves such a batch whole, moves only the device's own index and lets the run go on |
| VirtioDriver.CompletionsListed | crates/vmm/src/lib.rs:800-813 | with the old used index u, completion i stands at used + 4 + 8 * ((u + i) mod 65536 mod num) as its head and then its length, and the index stands at u plus the size of the batch, for the used ring at the least page boundary past the table and the available ring |
| VirtioDriver.DiskShowsWrites | crates/vmm/src/lib.rs:785-796 | byte b of sector s of a write ends at 512 * s + b of the disk, the last write winning; every other byte stays, and the file grows just to the end of its writes |
| VirtioDriver.BuffersShowReplies | crates/vmm/src/lib.rs:776-799 | byte b of a read buffer is byte 512 * sector + b of the disk as the earlier chains left it, and past the end of the disk it is unchanged; a status byte is 0 for reads and writes and 1 for every other type |
| VirtioDriver.OthersKept | crates/vmm/src/lib.rs:745-815 | every byte of guest memory outside the offered buffers, the status bytes, the used index and the listed slots stays as it was |
| VirtioDriver.SectorReachedIff | crates/vmm/src/lib.rs:783-794 | a request addresses the sector it asks for exactly below sector 2^55; sector 2^55 addresses the start of the disk |
| VirtioDriver.DriverBatchWraps | crates/vmm/src/lib.rs:733-815 | a write and then a read of sector 3 across the wrap of both indices is such a batch |
| VirtioDriver.GoodBatchWraps | crates/vmm/src/lib.rs:733-815 | the batch hypotheses are met by a write and then a read of sector 3 with both 16-bit indices at 65535 |
| VirtioDriver.GoodRunWraps | crates/vmm/src/lib.rs:717-815 | notifying that queue is a run the whole-run theorems apply to, with both requests in it |
| VirtioFrame.RequestFrame | crates/vmm/src/lib.rs:745-815 | a request, successful or not, changes no guest byte outside its own read buffer, its status byte and the used ring |
| VirtioFrame.RequestDisk | crates/vmm/src/lib.rs:776-798 | a request changes the disk exactly when it is an accepted write from readable guest memory whose range, from 512 * sector modulo 2^64, ends at or before 2^63 - 1 |
| VirtioFrame.PublishEffect | crates/vmm/src/lib.rs:801-813 | publishing advances the used index by one and fills the entry it names with head and length, or leaves the index alone; no other byte moves |
| VirtioQueue.OkCountIs | crates/vmm/src/lib.rs:736-741 | the count of leading successes stops exactly at the first failing turn |
| VirtioQueue.DrainPrefix | crates/vmm/src/lib.rs:733-743 | prefix semantics: a drain serves exactly the requests before the first failure, all (avail_idx - last_avail) mod 2^16 of them when none fails, advances last_avail by that number, and a request rejected before its transfer leaves precisely its predecessors' state |
| VirtioQueue.DrainFrame | crates/vmm/src/lib.rs:733-815 | framing of a notification: a changed guest byte lies in the used ring or a buffer of a request that was reached, a changed disk byte in the range of a write that was reached; the file never shrinks and grows with zeros |
| VirtioRun.NotifyPanicsIff | crates/vmm/src/lib.rs:717-738 | a register write panics exactly when it notifies a configured queue of size zero with an entry outstanding |
| VirtioRegisters.RunRegisters | crates/vmm/src/lib.rs:717-731 | after any run, queue page and status are the last values written to 0xfea00040 and 0xfea00060 modulo 2^32, the queue size the last one written to 0xfea00038 modulo 2^16 and at most 128; a register never written is as it was |
| VirtioRegisters.RunEnds | crates/vmm/src/lib.rs:516-646 | a run handles every event up to a stop, or up to a notification that brings it down |
| VirtioRegisters.QuietRunKeeps | crates/vmm/src/lib.rs:717-731 | without a zero stored to 0xfea00050 no run touches the disk or last_avail, and without a guest store none touches memory |
| VirtioRun.StepGap | crates/vmm/src/lib.rs:736-741 | one turn of the queue loop moves last_avail and the used index by one when it succeeds, and neither when it fails |
| VirtioRun.LockStep | crates/vmm/src/lib.rs:578-597 | over every trace of guest stores and register writes that leaves the queue registers and the used index alone, used index minus last_avail modulo 2^16 is constant, also when requests fail midway |
| VirtioBatch.SlotsDistinctIff | crates/vmm/src/lib.rs:805-812 | a batch of up to queue_num completions never reuses a slot, wherever the index stands, exactly when queue_num divides 2^16 |
| VirtioBatch.ValidateSame | crates/vmm/src/lib.rs:746-774 | any memory with the same descriptor and header bytes accepts an accepted chain and reads the same chain |
| VirtioBatch.RequestServes | crates/vmm/src/lib.rs:745-815 | one well-formed request succeeds, is served as an abstract disk would serve it, is listed once with its length, and touches nothing else |
| VirtioBatch.NextIsQueued | crates/vmm/src/lib.rs:736-739 | after any number of served requests the next one is still the one the driver queued, with its outgoing data |
| VirtioBatch.QueueRefinesDisk | crates/vmm/src/lib.rs:733-815 | refinement and completion: a batch of well-formed, non-aliasing chains succeeds; the disk is the left fold of the abstract requests; every buffer and status byte shows its own reply; the used slots from the old index hold heads and lengths in available order, none overwritten, across either wrap; every byte outside the buffers, status bytes, used index and those slots is unchanged |
| VirtioBatch.BatchReadsItsWrites | crates/vmm/src/lib.rs:776-796 | a read returns in guest memory what an earlier write of the same batch sent from guest memory, unless a write between them hit the range |
| VirtioBatch.WriteSurvives | crates/storage/src/lib.rs:89-124 | written data stays on the abstract disk through any requests that miss it |
| VirtioRunBatch.RunRefinesDisk | crates/vmm/src/lib.rs:578-597 | over every run whose notifications each find a good batch, with any guest stores and register writes between them, the disk is the left fold of all batches in order and last_avail has moved by the number of their requests |
| VirtioRunBatch.RunDelivers | crates/vmm/src/lib.rs:733-815 | a later notification delivers to each of its requests the reply it gets after all requests of its own and every earlier batch |
| VirtioRunBatch.RunReadsItsWrites | crates/vmm/src/lib.rs:776-796 | the guest reads back what it wrote under any earlier notification, unless a request between them hit the range |
| VirtioRunBatch.RunCounts | crates/vmm/src/lib.rs:801-813 | over such a run that leaves the queue registers and the used index alone, the used index has moved by exactly the number of requests, modulo 2^16 |
| BootTables.PdEntryValue | crates/vmm/src/lib.rs:425-427 | the flag bits or-ed into a 2 MiB-aligned address add to it without carry |
| BootTables.TablesAreIdentity | crates/vmm/src/lib.rs:406-431 | over zeroed pages the three tables hold the identity entries for the computed number of pages and nothing else |
| BootTables.WalkIsIdentity | crates/vmm/src/lib.rs:403-438 | an independent 4-level walk of such tables is the identity below the limit and faults at every other 48-bit address |
| BootTables.PageTablesMapIdentity | crates/vmm/src/lib.rs:406-438 | for every accepted RAM size the walk maps v to v, writable and supervisor-only, exactly when v < min(ceil(ram / 2 MiB), 512) * 2 MiB |
| BootTables.MapStaysInRamIff | crates/vmm/src/lib.rs:407-424 | every mapped address is backed by RAM exactly when the RAM size is even or at least 1024 MiB |
| BootMachine.VirtualMachine.Create | crates/vmm/src/lib.rs:84-139 | a new machine has zeroed RAM of the configured size and nothing loaded, exactly when the configuration passes `validate` and RAM can be mapped |
| BootMachine.VirtualMachine.LoadKernel | crates/vmm/src/lib.rs:142-189 | loading in place, with each refusal, an unreadable file, each partial copy and the panic of a short bzImage |
| BootMachine.VirtualMachine.LoadInitramfs | crates/vmm/src/lib.rs:192-207 | loading in place, with a missing and an unreadable file; the size is recorded only on success |
| BootMachine.VirtualMachine.SetupPageTables | crates/vmm/src/lib.rs:406-438 | the entry loop leaves memory as the tables over the old memory |
| BootMachine.VirtualMachine.SetupGdt | crates/vmm/src/lib.rs:441-458 | four separate entry writes amount to one 32-byte table |
| BootMachine.VirtualMachine.SetupGdt32 | crates/vmm/src/lib.rs:317-342 | the 32-bit table is stored at its address or the range error is returned |
| BootMachine.VirtualMachine.SetupBzImageBoot | crates/vmm/src/lib.rs:243-291 | command line, zero page and descriptor table are stored in order, with both refusals |
| BootMachine.VirtualMachine.SetupBoot | crates/vmm/src/lib.rs:211-222 | the path is chosen by the kernel kind and leaves memory as specified for it |
| BootProofs.BootedIff | crates/vmm/src/lib.rs:142-315 | preparation succeeds exactly for kernels and initramfs that exist, fit, pass the header checks, and on the bzImage path have a short enough command line |
| BootProofs.LoadKernelPanicsIff | crates/vmm/src/lib.rs:149-180 | with room in RAM, loading panics exactly on a bzImage with its payload fields, a payload offset of at least 0x200 and bytes after its setup sectors that ends before byte 0x290 |
| BootProofs.LoadErrors | crates/vmm/src/lib.rs:142-207 | which error each kernel or initramfs gives that is missing, unreadable, malformed or too large |
| BootProofs.BzImageIff | crates/vmm/src/lib.rs:149-155 | a file is a bzImage exactly when it has "HdrS" at 0x202, and then has one more setup sector than byte 0x1f1 counts |
| BootProofs.PayloadFollowsSetup | crates/vmm/src/lib.rs:150-168 | the payload of setup sectors followed by a payload is that payload |
| BootProofs.LoadKernelIs | crates/vmm/src/lib.rs:142-189 | a loaded kernel reads back exactly; a bzImage also keeps its setup sectors and header, and a plain kernel leaves the low megabyte zero |
| BootProofs.PlainBootIntegrity | crates/vmm/src/lib.rs:211-240 | after the whole plain path kernel, initramfs and descriptor table read back exactly and the walk of the finished memory is the identity map |
| BootProofs.BzImageBootIntegrity | crates/vmm/src/lib.rs:243-291 | after the whole bzImage path kernel payload, initramfs, NUL-terminated command line, zero page and descriptor table read back exactly |
| BootProofs.ZeroPageFields | crates/vmm/src/lib.rs:244-273 | the zero page points at and measures the stored command line and initramfs, sets the loader flags, equals the retained header elsewhere in it and is zero outside; the initramfs length is true exactly below 4 GiB |
| BootProofs.KernelSurvivesIff | crates/vmm/src/lib.rs:142-205 | for every kernel the loader takes, plain or bzImage, what runs of it survives every initramfs of a given length exactly when it ends at or below the initramfs address |
| BootProofs.SetupSectorsSurviveIff | crates/vmm/src/lib.rs:164-262 | the setup sectors survive every accepted command line exactly when they end at or below its buffer |
| Segments.Gdt64Reads | crates/vmm/src/lib.rs:441-458 | an independent decoder reads two null entries, a 64-bit code segment and a writable data segment at base 0 and privilege 0 from the table at 0x80000 |
| Segments.Gdt32Reads | crates/vmm/src/lib.rs:317-342 | the same for flat 4 GiB code and data segments of the 32-bit table |
| Adb.ConstructorsWellFormed | crates/adb/src/lib.rs:61-124 | every constructor yields matching length and checksum for payloads below 2^32 bytes |
| Adb.EncodingFields | crates/adb/src/lib.rs:129-141 | command, arg0, arg1, length, checksum and magic sit at 0, 4, 8, 12, 16 and 20, little-endian, and the payload at 24 |
| Adb.MagicIs | crates/adb/src/lib.rs:129-141 | the magic is the bitwise complement of the command |
| Adb.ChecksumAdds | crates/adb/src/lib.rs:30-32 | the checksum of two byte strings together is the sum of theirs modulo 2^32 |
| Adb.ChecksumOfByte | crates/adb/src/lib.rs:30-32 | the checksum of nothing is 0 and of one byte that byte |
| Adb.DecodeRefuses | crates/adb/src/lib.rs:143-183 | which error bytes that do not decode give: the first check of length, magic, completeness and checksum that fails |
| Adb.DecodeOfEncode | crates/adb/src/lib.rs:129-183 | decoding an encoding, whatever follows it, returns the message |
| Adb.EncodeOfDecode | crates/adb/src/lib.rs:129-183 | what decodes is well formed and encodes to the 24 + length bytes that were consumed |
| Adb.DamageUnnoticedIff | crates/adb/src/lib.rs:143-173 | one damaged byte goes unnoticed exactly in the two arguments, or in the length when it names a shorter prefix with the same checksum; so command, checksum, magic and payload damage is always detected |
| AdbSession.ReadMessage | crates/adb/src/lib.rs:204-227 | one message is taken from the stream exactly when all its bytes are there and decode |
| AdbSession.Dispatch | crates/adb/src/lib.rs:230-281 | the replies sent, the next local id and whether to go on |
| AdbSession.HandleClient | crates/adb/src/lib.rs:195-285 | the bytes sent are the banner and then the encoded transcript of what was received |
| AdbSession.ReceivedOfEncodings | crates/adb/src/lib.rs:203-227 | from concatenated encodings, whatever follows, the loop recovers exactly the list up to its stop |
| AdbSession.ReceivedIsMaximalPrefix | crates/adb/src/lib.rs:203-281 | from any bytes, what is received encodes to a prefix of the stream, stops only at its end, and is followed by nothing that decodes unless it stopped |
| AdbSession.PeerDecodesTranscript | crates/adb/src/lib.rs:195-281 | every reply decodes: the same reader run on the output recovers the banner and the replies, and nothing follows the stop |
| AdbSession.KthOpenGetsIdK | crates/adb/src/lib.rs:231-256 | below the 32-bit wrap the k-th OPEN is answered, right after the replies before it, with local id k and the sender's arg0 |
| AdbSession.TranscriptSplit | crates/adb/src/lib.rs:200-281 | the ids of later replies depend only on how many OPEN messages came before, modulo 2^32 |
| AdbAnswers.PeerSeesAnswers | crates/adb/src/lib.rs:195-281 | what the peer decodes from everything sent is the banner and then, for each message received, its own answer at its place: OKAY and "00040024" for host:version, OKAY and "LITEDROID001\tdevice" for host:devices, CLSE for host:kill, OKAY for any other OPEN, the banner for CNXN, nothing for the rest, under ids that count the OPENs from 1 |
| AdbAnswers.StopsIff | crates/adb/src/lib.rs:246-277 | the loop stops at CLSE and at an OPEN of host:kill, and at nothing else |
| AdbAnswers.ClientMessages | crates/adb/src/lib.rs:61-86 | the fields of the CNXN and OPEN messages a client builds |
| Graphics.Framebuffer.constructor | crates/graphics/src/lib.rs:19-26 | a new framebuffer is zero and of the stated size |
| Graphics.Framebuffer.BlitFrom | crates/graphics/src/lib.rs:88-113 | the row loop in place equals the row-copy specification, including skipped rows, the early break and panics |
| Graphics.Framebuffer.BlitTo | crates/graphics/src/lib.rs:118-143 | the same for the copy out of the framebuffer |
| GraphicsProofs.BlitFromIsClipped | crates/graphics/src/lib.rs:88-113 | for every source length, with the left edge at or before the right border: no pixel outside the clipped rectangle changes, panic or not, and if the blit comes through each byte of a pixel inside is its source byte as far as the source reaches |
| GraphicsProofs.BlitFromPanicsIff | crates/graphics/src/lib.rs:96-111 | for every source length and left edge, `blit_from` panics exactly when some visible row starts past the end of the source, short of one exception at the very end of the screen, or has bytes to copy and starts past the end of the screen |
| GraphicsProofs.BlitToReads | crates/graphics/src/lib.rs:118-143 | each byte of a visible row lands at its place in the buffer, the last row winning where rows overlap; every byte outside the rows is unchanged, panic or not |
| GraphicsProofs.BlitToPanicsIff | crates/graphics/src/lib.rs:126-141 | for every buffer length and left edge, `blit_to` panics exactly when some visible row has bytes to copy and starts past the end of the buffer, or starts past the end of the screen, short of one exception |
| GraphicsProofs.BlitRoundTrip | crates/graphics/src/lib.rs:88-143 | for any two strides, blitting in and out again returns the source bytes of the visible rectangle when neither panics |
| GraphicsProofs.ClampsIff | crates/graphics/src/lib.rs:84-112 | for every screen, rectangle, stride and source length: over all pixel and source contents the blit never panics and changes nothing outside its rectangle exactly when every visible row starts at or before the end of the source (one exception at the very end of the screen aside) and, with a left edge past the right border, copies nothing |
| GraphicsProofs.ToClampsIff | crates/graphics/src/lib.rs:115-142 | the same for `blit_to`: it never panics and changes no buffer byte outside its rows exactly when every visible row with bytes to copy starts at or before the end of the buffer and, with a left edge past the right border, no row copies or starts past the end of the screen (one exception aside) |
| GraphicsProofs.ShortBufferPanics | crates/graphics/src/lib.rs:98-141 | on a 1x2 screen with the whole rectangle visible, both blits panic on an empty buffer |
| DaemonObject.DaemonState.TakeEmulator | apps/daemon/src/main.rs:64-67 | drops the held child after trying to end it |
| DaemonObject.DaemonState.StopEmulator | apps/daemon/src/main.rs:207-215 | the state after stopping, with the child reaped or abandoned |
| DaemonObject.DaemonState.LaunchDevice | apps/daemon/src/main.rs:217-273 | each outside call in order with its own error, the default device created when missing; all four fields change together and only when a child was spawned, with the wipe flag on its command line |
| DaemonObject.DaemonState.EmulatorState | apps/daemon/src/main.rs:416-450 | the power state and fields after looking at the child |
| DaemonObject.DaemonState.AdbBytes | apps/daemon/src/main.rs:280-306 | refreshes first, then refuses unless running |
| DaemonObject.DaemonState.Dispatch | apps/daemon/src/main.rs:42-205 | one request in place gives the specified state, children and reply |
| Daemon.StepKeeps | apps/daemon/src/main.rs:42-205 | every request and exit keeps the account of children and the power invariant |
| Daemon.RunKeeps | apps/daemon/src/main.rs:30-205 | so does every run: each spawned child is exactly one of held, reaped, abandoned; a held or powered device has its name and adb path |
| Daemon.AtMostOneEmulator | apps/daemon/src/main.rs:63-118 | while kills succeed, in every reachable state the children not yet reaped are exactly the held one |
| Daemon.AbandonedIff | apps/daemon/src/main.rs:63-213 | over whole runs a child is lost exactly when some shutdown, stop, restart or wipe drops it and the kill fails |
| Daemon.RunningIsUsable | apps/daemon/src/main.rs:121-291 | in every reachable state the "ADB is unavailable" error cannot follow the running check, and a status reply of booting or running names its device |
| Daemon.StartIff | apps/daemon/src/main.rs:73-89 | start succeeds exactly when nothing is held, or the held child is seen to have exited, and every outside call works; its child keeps the device's data; otherwise no child is made |
| Daemon.StopAndRestart | apps/daemon/src/main.rs:90-118 | stop ends off; restart and wipe bring the same device back up or end off, and only the child of a wipe has the wipe flag |
| Daemon.LaunchFailsFirst | apps/daemon/src/main.rs:217-258 | a launch that fails reports its first outside call that failed and changes nothing |
| Daemon.RestartsDefault | apps/daemon/src/main.rs:101-118 | restart and wipe with no device start the one called "default" |
| Daemon.WipedIff | apps/daemon/src/main.rs:101-118 | over whole runs some emulator is started with the wipe flag exactly when a wipe request was handled whose launch worked |
| Daemon.BecomesPhantomIff | apps/daemon/src/main.rs:79-88 | the state comes to claim a device without a process exactly when a start drops an exited child, fails to launch, and the power state was not refreshed |
| Daemon.PhantomIff | apps/daemon/src/main.rs:63-118 | after any run the state claims a device without a process exactly when some start failed in that way and no shutdown, stop, restart, wipe or successful start came after it |
| Daemon.RunningReplyIsTrueIff | apps/daemon/src/main.rs:121-124 | after any run, a status reply of running is backed by a live child exactly when no start failed in that way since the power state was last set anew |
| Daemon.FalseRunningReachable | apps/daemon/src/main.rs:79-124 | a concrete run ends with no process and a status reply of running |
| DaemonReplies.PowerIsLastSet | apps/daemon/src/main.rs:42-215 | after any run the power state is the one its events last set, by a table of what each request sets, or off |
| DaemonReplies.StatusReplyIs | apps/daemon/src/main.rs:121-124 | after any run a status reply with a child held is running, booting, off or an error exactly as the wait, the child, its exit code and adb say; with none held it is the power state last set; it names the device last named, or none when it finds the child gone |
| DaemonReplies.AdbReachesIff | apps/daemon/src/main.rs:280-306 | after any run an adb command reaches adb exactly when a status request in its place would say running, and leaves the same state |
| DaemonReplies.HeldDeviceIsNamed | apps/daemon/src/main.rs:217-273 | after any run the held child is the newest, and the device named is the one it was started for |
| DaemonReplies.DeviceIsLastNamed | apps/daemon/src/main.rs:42-215 | after any run the device in the state is the one its events last named or cleared, or none |
| DaemonReplies.PlainReplies | apps/daemon/src/main.rs:60-205 | ping, daemon status, shutdown, stop and unsupported requests have fixed replies |
| AvdConfig.LinesOfUnlines | apps/daemon/src/main.rs:399-403 | splitting undoes joining, but for one carriage return at each line end |
| AvdConfig.LineSplits | apps/daemon/src/main.rs:388-391 | a line ends at its newline, with or without a carriage return before it; the last needs none |
| AvdConfig.LinesOfConfigure | apps/daemon/src/main.rs:388-414 | the rewritten file has the unmanaged lines in order and then the five settings |
| AvdConfig.EachKeyOnce | apps/daemon/src/main.rs:392-411 | whatever the text, each managed key starts exactly one line of the result, with the device's value |
| AvdConfig.SettingsRead | apps/daemon/src/main.rs:404-411 | the last five lines are the five named settings, each followed by digits that read back as the device's value |
| AvdConfig.DecimalReadsBack | apps/daemon/src/main.rs:404-411 | a number is written in digits, without leading zeros, that read back as it |
| AvdConfig.LastWriterWinsIff | apps/daemon/src/main.rs:388-414 | configuring over another configuration equals configuring alone exactly when no unmanaged line still ends in a carriage return once split |
| AvdConfig.LastWriterWins | apps/daemon/src/main.rs:388-414 | in particular for every text without carriage returns, whose unmanaged lines survive exactly |
| Bus.VirtioBus.AddDevice | crates/devices/src/lib.rs:42-54 | appends below sixteen devices and refuses at sixteen |
| Bus.VirtioBus.Read | crates/devices/src/lib.rs:57-72 | the device states and value after routing a read |
| Bus.VirtioBus.Write | crates/devices/src/lib.rs:75-92 | the device states after routing a write |
| Bus.VirtioBus.ResetAll | crates/devices/src/lib.rs:100-106 | every device is reset once |
| Bus.TraceProjects | crates/devices/src/lib.rs:57-106 | after any trace each device is where its own projected trace, run on it alone, leaves it |
| Bus.ReadAfterTrace | crates/devices/src/lib.rs:57-72 | a read after any trace returns what the addressed device alone would return at offset (a - START) mod 0x200; outside the mapped windows it returns 0 and changes nothing |
| Bus.DeviceIsCalled | crates/devices/src/lib.rs:57-106 | over any trace device i is called exactly with the accesses to the 512 addresses from 0xfea00000 + 512 * i, each at its offset with its size and value, and with every reset, in order; a read returns its answer |
| Ipc.IpcStream.WriteFrame | crates/ipc/src/lib.rs:55-62 | appends exactly one frame |
| Ipc.IpcStream.ReadFrame | crates/ipc/src/lib.rs:64-73 | takes exactly one frame off the stream when it is complete |
| Ipc.FrameBytes | crates/ipc/src/lib.rs:55-62 | a frame is the length in four bytes, most significant first, and then the payload |
| Ipc.ParseAllOfFrames | crates/ipc/src/lib.rs:55-73 | reading concatenated frames returns exactly the payloads and consumes every byte |
| Ipc.FramesInjective | crates/ipc/src/lib.rs:55-73 | equal byte streams come from equal lists of payloads |
| Ipc.FramesOfParseAll | crates/ipc/src/lib.rs:64-73 | any stream is the frames of what was read followed by a rest that is no frame |
| Ipc.FrameRoundTripIff | crates/ipc/src/lib.rs:55-73 | a payload comes back from its frame exactly when its length fits the four-byte prefix |

## Left out

- KVM calls, vCPU registers, segment and control registers, CPUID: foreign calls. A run is an arbitrary sequence of exits and guest stores.
- Disk.RawDiskImage.Read: `pread` returns the whole range inside the file or refuses it; a failing device and the host's per-call size cap belong to the host.
- Disk.RawDiskImage.Write: `pwrite` takes the whole range or refuses it; partial writes, a full disk and the host's per-call size cap belong to the host.
- Flushing the image, and its `size`, which is not updated when the file grows: not modelled.
- Register reads of the block device, its serial and random-number siblings, and the unused `VirtioBlkDevice`: single-register answers.
- Device reset, feature negotiation and interrupts: the code does not implement them.
- Blits on buffers of 2^56 bytes or more, beyond the address space of a process: there the 64-bit products could wrap differently.
- `set_pixel`, `get_pixel` and `fill`: single-step accessors of the framebuffer.
- Sockets, threads and timeouts: streams are byte sequences and writes succeed. `send_msg` drops write errors in the source.
- JSON and TOML, logging, the command line, the GUI, diagnostics, networking, audio and input.
- The files that `launch_device` prepares, and the arguments of the emulator other than the device and the wipe flag: each outside call of a launch works or fails.
- The files around ADB commands: a missing parameter, APK or screenshot directory is one refusal before the command, a failed write one failure after it.
- VirtualMachine creation: KVM calls are taken to work; opening the disk image is left to the block device.
- `stop_handle` of the daemon state: it is never set in the source.
- The daemon's accept loop and signals: requests may still arrive after a shutdown request, which the runs allow.
- Text is a sequence of characters; reading and writing the configuration file itself is not modelled.

# Verification of the image writer, the GPS link and the device models

A Dafny model of four parts of the repository, with proofs of what they promise.

- **FAT32 images** (`tools/mkfatimg.py`). Geometry, short and long names, allocation, the sequence of seeks and
  writes, and the strict reader, all on bytes. The main result, `FullVolume.VerifyPassesExactly`, says of the image
  written from any tree on any volume when the reader accepts it: exactly when every name below the root took the
  long-name path and, on the sizes whose FAT comes out one sector short (`Geometry.Exceptional`), the root is empty
  or the volume is filled into the clusters without an entry and no directory lies across the end of the FAT.
- **RCIF over UART** (`tools/teseo_gps.py`). The incremental parser, the slave with its waits in the middle of a
  reply, and the composition with a stop-and-wait master over byte queues that cut messages anywhere.
- **Devices** (`qemu/hw/arm/garmin_gpsmap.c`). The general-purpose timer against a counter counted tick by tick, the
  fake SGX microkernel's completion counters, the mailbox responder, the touch controller and the DMA engine.
- **Deferred GL** (`qemu/hw/arm/garmin_gl.c`). The order in which calls are executed, the texels they are replayed
  with, and draws rewritten into float arrays.

Code that changes objects in place is a class whose methods are proved against functions of the old state; what the
source promises is proved about those functions. `dafny verify dfyconfig.toml` checks everything.

## How the files fit together

| part | files, lower layers first |
|---|---|
| shared | `Wrappers`, `Numbers`, `Bytes` |
| FAT32 | `Geometry`, `ShortNames`, `LongNames`, `Tree`, `Directory`, `Allocator`, `Runs`, `Volume`, `Layout`, `Writer`; `Reader`, `ChainReads`, `RoundTrip`, `FullVolume` |
| RCIF | `RcifFrames`, `RcifSlave` (the slave as a step function), `Rcif` (the object), `RcifLink` (master and slave) |
| Devices | `GpTimer`; `SgxSync`, `SgxCommands`, `SgxKicks`, `Sgx`, `SgxLayout` (what the host stores), `SgxRun` (host and microkernel together), `SgxRing`; `Mailbox`; `EgalaxTouch`, `Egalax`; `Sdma` |
| GL | `GlFrame`, `GlDraw` |

## Where the code departs from what its texts say

These are stated and proved as they are in the code.

- `_fat_sectors` sizes the FAT for the largest fitting cluster count, `_clusters` recomputes the count without it; on
  exceptional sizes the FAT is too short and its second copy overwrites the root directory, which then reads as empty
  unless the volume is full (`Geometry.FatHoldsAllExactly`, `Volume.DataClobbered`, `FullVolume.VerifyPassesExactly`).
- The reader finds plain 8.3 names only by their padded form, so never (`RoundTrip.PlainNotSeen`).
- `short_name` renames a clean name whose key is taken, or with nothing before its last dot, and asks for no long name
  (`ShortNames.RenamedSilently`).
- A first request whose id has low byte 0x55 loses that byte to the start byte (`RcifFrames.RecognisedExactly`).
- The size call accepts chunks below 8 bytes, with which a call can stick (`RcifLink.SmallChunksStick`).
- Timer deadlines are rounded down and each fold drops a fraction of a tick, so callbacks exactly on time may never
  reach an overflow (`GpTimer.RunOnTime`). Re-arming after an overflow that was not yet flagged forgets it
  (`GpTimer.OverflowForgottenExactly`). A match is flagged again by the next callback if the first found the count equal
  to the match value (`GpTimer.MatchFlaggedTwiceExactly`), and a match that a late callback finds reached only behind a
  reload is never flagged (`GpTimer.MatchMissedExactly`). A device reset leaves interrupt lines of the timer and the
  mailbox at their levels (`GpTimer.Timer.Reset`, `Mailbox.Mailbox.Reset`).
- A command of size 0x10000, TA or transfer, does not move the read offset and is taken up to 64 times
  (`SgxKicks.StaysExactly`, `SgxKicks.TakenOverAndOver`).
- The bytes of a sub-image are counted by its y offset and width instead of its width and height: at offset 0 it is
  dropped, at small offsets only part of it is copied and the host reads on behind it
  (`GlFrame.SubImageDroppedExactly`, `GlFrame.SubImageWholeExactly`).
- Of client arrays, stride times vertices is copied. With a stride below a vertex the last vertices are converted from
  what lies behind the copy; a vertex that starts inside a buffer object but ends outside likewise
  (`GlDraw.GuestsExactly`). A negative count of indices aborts (`GlDraw.Request.MarshalElements`).
- Level 0 of a watched texture makes uploads to its higher levels swap-time as well (`GlFrame.RereadExactly`).
- If the repeat timer runs out between a button event and its sync, the contact is left without a timer and a release
  can be forgotten (`EgalaxTouch.TimerLostExactly`).
- A memory-to-memory DMA transfer of more than 2^31 - 1 elements stays active without a tick (`Sdma.Dma.Start`).

## Model

| member | source | states |
|---|---|---|
| `Geometry.FatSectorsIsLargest` | tools/mkfatimg.py:252-260 | the descending search yields the FAT size of the largest cluster count that fits, and fails exactly when none does |
| `Geometry.FindFatSectors` | tools/mkfatimg.py:254-260 | the counting-down loop computes that search |
| `Geometry.DataAreaInVolume` | tools/mkfatimg.py:262-264 | the recomputed clusters end inside the volume |
| `Geometry.ClusterExcess` | tools/mkfatimg.py:252-264 | the recomputed count is the largest fitting one unless the size is 32 + 2k + (128k - 1) spc or one more; then it exceeds it by one, or for one-sector clusters by one or two |
| `Geometry.ExceptionalSizes` | tools/mkfatimg.py:252-264 | the remainder test for exceptional sizes says exactly that such a k exists |
| `Geometry.FatHoldsAllExactly` | tools/mkfatimg.py:262-264 | the FAT has an entry for every cluster if and only if the size is not exceptional |
| `Geometry.ExceptionalExample` | tools/mkfatimg.py:254-264 | on a volume of 268972032 bytes with 4 KiB clusters the FAT has 65536 entries and its 65535 clusters need 65537 |
| `Geometry.PickClusterSize` | tools/mkfatimg.py:212-236 | the automatic choice is the largest cluster size within both bounds, else the smallest reaching the FAT32 minimum, else nothing |
| `Writer.NewVolume` | tools/mkfatimg.py:205-250 | no volume results exactly when no cluster size reaches the FAT32 minimum or, with a forced size, when that is less than a sector or no cluster fits; otherwise the volume has the geometry of its size and cluster size |
| `ShortNames.FirstFreeIsFirst` | tools/mkfatimg.py:138-144 | the numeric tail found is the first free one and is reached within |taken| + 1 attempts (pigeonhole) |
| `ShortNames.ChooseWellformed` | tools/mkfatimg.py:122-146 | stem and extension of the name chosen consist of allowed characters only, fit 8 and 3, and its key was free |
| `ShortNames.ChooseAllFresh` | tools/mkfatimg.py:171-172 | over a whole directory the names chosen are well formed and their keys distinct |
| `ShortNames.RawInjective` | tools/mkfatimg.py:145-146 | names with different keys have different padded 11-byte forms |
| `ShortNames.ShortNamesDistinct` | tools/mkfatimg.py:122-146 | the 11-byte names of a directory are pairwise distinct, have no space before the padding, and start neither with 0x00, a dot nor 0xE5 |
| `ShortNames.RenamedSilently` | tools/mkfatimg.py:133-146 | a name that would lose nothing gets no long-name entry, and is stored under another name exactly when nothing comes before its last dot or its key is taken |
| `ShortNames.RenamedEmptyBase` | tools/mkfatimg.py:133-136 | ".TXT" becomes "_.TXT" with nothing taken |
| `ShortNames.RenamedTaken` | tools/mkfatimg.py:137-146 | "A" becomes "A~1" when the key of "A" is taken |
| `ShortNames.ShortName` | tools/mkfatimg.py:122-146 | the loop computes the first free name, the lossy flag and the new taken set |
| `ShortNames.NameSplits` | tools/mkfatimg.py:124-126 | a name is its base, its last dot and its extension, which has no dot; or all base |
| `ShortNames.CharacterKept` | tools/mkfatimg.py:128-132 | exactly the allowed characters are kept; a letter comes out the same in either case; every other character becomes an underscore |
| `ShortNames.LossyExactly` | tools/mkfatimg.py:133 | a long name is needed exactly unless base and extension have at most 8 and 3 characters and only allowed ones |
| `ShortNames.DecimalIs` | tools/mkfatimg.py:140 | the digits of the numeric tail stand for its number and have no leading zero |
| `ShortNames.TailedIs` | tools/mkfatimg.py:139-141 | a tailed stem is as much of the base as leaves room, a tilde and the number |
| `ShortNames.LowerCaseExample` | tools/mkfatimg.py:122-146 | "a.txt" is stored as "A~1     TXT" and needs a long name |
| `LongNames.LongNameRoundTrip` | tools/mkfatimg.py:183-197 | sorting, joining, cutting at NUL and dropping filler gives back every admissible name, multiples of 13 included |
| `LongNames.NulEnds` | tools/mkfatimg.py:452-453 | the reader ends a long name at its first NUL |
| `LongNames.FillerDropped` | tools/mkfatimg.py:452-453 | it drops U+FFFF wherever it stands, and nothing else |
| `LongNames.LongEntriesShape` | tools/mkfatimg.py:187-197 | exactly ceil(len / 13) entries, last first, ordinals n..1, only the first stored one flagged, all carrying the checksum |
| `LongNames.StoredUnits` | tools/mkfatimg.py:183-197 | unit by unit at its place in the entries: the name, then, if there is room, a NUL and 0xFFFF; type and cluster bytes are zero |
| `LongNames.LfnChecksum` | tools/mkfatimg.py:55-59 | the checksum loop computes the checksum of all bytes |
| `LongNames.ChecksumStep` | tools/mkfatimg.py:55-59 | every further byte is added modulo 256 to the checksum so far turned right by one bit, said bit by bit |
| `LongNames.ChecksumExample` | tools/mkfatimg.py:55-59 | "A~1     TXT" has checksum 0x9D |
| `LongNames.ChecksumSwapped` | tools/mkfatimg.py:55-59 | with its first two bytes swapped it is 0x8E: order matters |
| `LongNames.EncodeLongName` | tools/mkfatimg.py:183-197 | the encoding loop produces those entries |
| `Directory.DirSlotsLive` | tools/mkfatimg.py:149-201 | no entry of a directory starts with the byte that would end it |
| `Directory.DirEntries` | tools/mkfatimg.py:149-201 | label or dot entries, then for every child its long-name entries if needed and its short entry with the same checksum |
| `Directory.AppendNode` | tools/mkfatimg.py:171-200 | one child: the long-name entries carry the checksum of the short entry behind them |
| `Directory.WithCluster` | tools/mkfatimg.py:336-344 | packing the first cluster in two halves is undone by the reader and leaves name, attribute and size alone |
| `Directory.HeadFields` | tools/mkfatimg.py:163-170 | field by field: the label entry of the root; "." and ".." elsewhere, ".." with cluster 0 for the root |
| `Directory.ChildFields` | tools/mkfatimg.py:154-161 | field by field: where the short entry of each child stands, with its raw name, attribute, first cluster, size and time stamps |
| `RoundTrip.ChildListed` | tools/mkfatimg.py:334-355 | when the FAT fits, the listing read from the image has for each child such an entry, with the cluster its run starts at |
| `RoundTrip.DotsLead` | tools/mkfatimg.py:336-342 | there "." of a directory leads to its own listing, and ".." to cluster 0 or to where the run of the directory above starts |
| `Allocator.RunsPartition` | tools/mkfatimg.py:270-281 | every allocated cluster lies in exactly one run |
| `Allocator.ChainOfRun` | tools/mkfatimg.py:270-281 | following the links of a run visits its clusters once, in order, and ends |
| `Allocator.ChainsPartition` | tools/mkfatimg.py:270-281 | the chains of all directories and non-empty files partition clusters 2 .. next_free - 1 |
| `Allocator.FreeCount` | tools/mkfatimg.py:307-314 | clusters + 2 - next_free is the number of zero FAT entries |
| `Writer.Fat32.Alloc` | tools/mkfatimg.py:270-281 | a run of n linked clusters from next_free on, earlier links untouched; fails exactly when too few are left |
| `Writer.Fat32.LayOut` | tools/mkfatimg.py:322-332 | clusters for every directory and non-empty file in order; fails exactly when the tree needs more than the volume has |
| `Volume.BootSectorParses` | tools/mkfatimg.py:286-305 | the fields the reader takes from the boot sector are those of the volume |
| `Volume.BootSectorBytes` | tools/mkfatimg.py:286-305 | the bytes the reader does not look at: jump, names, media, geometry, backup sector, signature, label |
| `Volume.InfoSectorCounts` | tools/mkfatimg.py:307-314 | the FSInfo fields hold the free count and the next free cluster, and its three signatures are there |
| `Volume.HeadReads` | tools/mkfatimg.py:360-371 | boot and FSInfo sectors, and their copies from sector 6 on, are read back from the image as written, whatever the data |
| `Volume.FatEntryReads` | tools/mkfatimg.py:356-371 | entry c of the first FAT is read back for every c the FAT has room for |
| `Volume.SecondFatReads` | tools/mkfatimg.py:356-371 | every entry is read back from the second copy |
| `Volume.DataReads` | tools/mkfatimg.py:345-355 | when the FAT fits, every blob is read back where its run starts |
| `Volume.DataClobbered` | tools/mkfatimg.py:360-371 | when it does not, the second copy overwrites the first byte of cluster 2 |
| `Volume.FatFitsExactly` | tools/mkfatimg.py:246-250 | for a volume the FAT fits if and only if its size is not exceptional |
| `Layout.RootAtTwo` | tools/mkfatimg.py:322-327 | the root directory is laid out first, at cluster 2 |
| `Layout.WalkClosed` | tools/mkfatimg.py:115-119 | the walk visits every directory of the tree below the start |
| `Runs.RunReadBack` | tools/mkfatimg.py:345-355 | of a sequence of seeks and writes, one per run, each is still there at the end |
| `Writer.Fat32.FillEntries` | tools/mkfatimg.py:334-344 | first-cluster fields are filled from the nodes, ".." of a directory in the root with 0 |
| `Writer.Fat32.PutData` | tools/mkfatimg.py:345-355 | one seek and one write per directory and non-empty file, in order |
| `Writer.Fat32.PutMeta` | tools/mkfatimg.py:356-372 | boot, FSInfo and FAT copies are written over what is there |
| `Writer.Fat32.Write` | tools/mkfatimg.py:316-372 | the method succeeds exactly when the tree fits, and then the image is the one its layout determines |
| `Reader.VerifyImage` | tools/mkfatimg.py:404-481 | the recursive reader with its loops computes the verdict function |
| `Reader.ReadEntries` | tools/mkfatimg.py:422-431 | the generator over a chain yields its live entries |
| `Reader.HighBitsIgnored` | tools/mkfatimg.py:418-420 | the high four bits of a FAT entry do not count |
| `Reader.PassedOver` | tools/mkfatimg.py:438-462 | labels, dot entries and deleted ones are passed over, any other short entry is seen and counted |
| `Reader.CountedStrictly` | tools/mkfatimg.py:449-457 | a long name is reported exactly unless it has as many entries as its characters need, 13 to an entry |
| `Reader.LabelIs` | tools/mkfatimg.py:442-444 | a label has the volume and not the directory bit |
| `Reader.FileChecked` | tools/mkfatimg.py:460-477 | a file is reported exactly when it is not found or the size in its entry is not its own |
| `ChainReads.StreamOfRun` | tools/mkfatimg.py:422-431 | following a directory run in an image yields exactly its entries |
| `ChainReads.BytesOfRun` | tools/mkfatimg.py:345-355 | following a file run yields its bytes first, although only one seek placed them |
| `RoundTrip.StepsDir` | tools/mkfatimg.py:438-462 | scanning the entries of a directory recovers a name per child and reports nothing |
| `RoundTrip.RecoveredNames` | tools/mkfatimg.py:438-462 | with long names throughout, the names recovered are exactly the names stored |
| `RoundTrip.PlainNotSeen` | tools/mkfatimg.py:460-468 | a child without a long-name entry is never found under its name |
| `RoundTrip.DirVerdict` | tools/mkfatimg.py:436-478 | by induction over the tree: a directory passes if and only if all names below it took the long-name path |
| `FullVolume.PartFails` | tools/mkfatimg.py:438-468 | a proper beginning of a directory shows fewer names than the directory has children, so one is reported missing |
| `FullVolume.FailsUp` | tools/mkfatimg.py:436-478 | a directory that fails fails every directory above it |
| `FullVolume.LateEntry` | tools/mkfatimg.py:416-418 | an entry past the end of the first FAT is read from the start of the second, which ends any chain |
| `FullVolume.VerifyPassesExactly` | tools/mkfatimg.py:404-481 | for the image written from any tree on any volume: the reader reports no problem if and only if all names below the root took the long-name path and, if the size is exceptional, the root is empty or the clusters without FAT entry are in use and no directory lies across the end of the FAT; it then checked every node but the root |
| `FullVolume.FilesReadBack` | tools/mkfatimg.py:345-355 | on any volume, the chain of a stored file, from the cluster in its entry, yields the file's bytes first, if and only if the file does not lie across the end of the FAT |
| `RoundTrip.FreeCountIsExact` | tools/mkfatimg.py:307-314 | the free count in the image is the number of zero FAT entries |
| `RcifFrames.ChecksumZero` | tools/teseo_gps.py:104-108 | a frame sums to zero exactly when its last byte is the sum of the others |
| `RcifFrames.ComputeXorSum` | tools/teseo_gps.py:104-108 | the loop computes the sum |
| `RcifFrames.XorDigit` | tools/teseo_gps.py:102-108 | a bit of the exclusive or is set exactly where the two bytes differ |
| `RcifFrames.XorSumDigit` | tools/teseo_gps.py:102-108 | each bit of the sum is the parity of that bit over all bytes |
| `RcifFrames.FrameFields` | tools/teseo_gps.py:238-240 | a frame built for an id and a payload reads back as that id and payload, and sums to zero |
| `RcifFrames.ParseStreams` | tools/teseo_gps.py:142-184 | cutting a byte stream anywhere changes neither its frames, nor the rest, nor the start flag |
| `RcifFrames.ParseSettles` | tools/teseo_gps.py:142-184 | what is left holds no complete frame and nothing to drop; every frame taken has the length its header announces |
| `RcifFrames.RecognisedExactly` | tools/teseo_gps.py:142-168 | a frame on its own is recognised exactly unless its first byte is 0x55 and the start byte has not been seen |
| `RcifSlave.RunStreams` | tools/teseo_gps.py:142-184 | in every run, also in the middle of a reply, frames handled followed by the parse of the buffer are the parse of all bytes received |
| `RcifSlave.CuttingMakesNoDifference` | tools/teseo_gps.py:142-184 | two runs that brought the same bytes have handled the same frames and hold the same rest and start flag |
| `RcifSlave.FirstRequestHandledExactly` | tools/teseo_gps.py:142-168 | so the first request of a fresh slave is handled, however cut, exactly unless its id has low byte 0x55 |
| `RcifSlave.RunAcked` | tools/teseo_gps.py:151-184 | the acknowledged count is a multiple of the chunk size, and at rest exactly the whole chunks of the frame at the head |
| `RcifSlave.AckedOnlyWhileIncomplete` | tools/teseo_gps.py:164-184 | it is non-zero only while a possible, incomplete frame heads the buffer |
| `RcifSlave.PairRoundTrip` | tools/teseo_gps.py:215-218 | the pair set last is the pair read back, cut to its fields |
| `RcifSlave.HelloAnswered` | tools/teseo_gps.py:36-38 | the first call of the file's own header, byte for byte: acknowledged 0xBB and answered with the same id and a zero return code; with any other last byte answered 0xEF |
| `RcifSlave.SizesTaken` | tools/teseo_gps.py:210-218 | the sizes of a call to 0x2303 are taken over exactly when both are usable, the pair of one to 0x1031 always |
| `RcifSlave.TimeTold` | tools/teseo_gps.py:215-216 | a call to 0x102D returns the milliseconds since the start in 32 bits |
| `RcifSlave.EpochsApart` | tools/teseo_gps.py:223-231 | of two polls of 0x1026 the second is granted exactly when a second has passed since the first was; a refused one changes nothing |
| `RcifSlave.VersionTold` | tools/teseo_gps.py:221-222 | a call to 0x103C returns the text at offset 4, zeros elsewhere |
| `RcifSlave.ZeroReplies` | tools/teseo_gps.py:204-232 | all other replies are zero, with the out-data lengths of their ids |
| `Rcif.Rcif.Feed` | tools/teseo_gps.py:142-168 | the object with its nested loops and re-entrant waits does what the step function does with the same reads |
| `Rcif.Rcif.AckChunks` | tools/teseo_gps.py:176-184 | one ACK per further whole chunk |
| `Rcif.Rcif.HandleFrame` | tools/teseo_gps.py:187-202 | a bad checksum is answered 0xEF; otherwise 0xBB and the reply |
| `Rcif.Rcif.MakeReply` | tools/teseo_gps.py:204-232 | the reply payload and the remembered sizes, pair and epoch |
| `Rcif.Rcif.SendFrame` | tools/teseo_gps.py:238-256 | the first M bytes, then M - 9 bytes per acknowledgement or timeout |
| `Rcif.Rcif.WaitMasterAck` | tools/teseo_gps.py:260-275 | everything but the acknowledgement itself is kept for the parser |
| `RcifLink.SlavePart` | tools/teseo_gps.py:176-184 | part of a chunk draws an ACK exactly when the chunk becomes complete and is not the last |
| `RcifLink.SlaveWhole` | tools/teseo_gps.py:187-202 | the last byte of a request draws the final ACK and the first part of the reply |
| `RcifLink.SlaveNextPart` | tools/teseo_gps.py:246-255 | an acknowledgement draws the next part of the reply |
| `RcifLink.InvNext` | tools/teseo_gps.py:27-36 | every step of master, slave or queue keeps the invariant of the call |
| `RcifLink.RankFalls` | tools/teseo_gps.py:27-36 | every step brings the call closer to its end |
| `RcifLink.CallCompletes` | tools/teseo_gps.py:27-36 | however bytes are cut in transit: no run sticks before the end, runs are bounded, the master gets ceil(L/S) ACKs and one reply with the same id and zero sum, nothing else is sent, and it sends the ceil((L'-9)/(M-9)) - 1 ACKs the slave waits for |
| `RcifLink.ReadyAgain` | tools/teseo_gps.py:142-168 | after a call the slave is ready for the next |
| `RcifLink.SmallChunksStick` | tools/teseo_gps.py:208-214 | with S below 8, which the size call accepts, there is a run that sticks |
| `GpTimer.ClosedIsIterated` | qemu/hw/arm/garmin_gpsmap.c:667-684 | the closed form equals counting tick by tick, for every start, reload value, mode and duration |
| `GpTimer.ControlBits` | qemu/hw/arm/garmin_gpsmap.c:564-568 | which bits of the control register start, reload, prescale, compare and hold the ratio |
| `GpTimer.RateIs` | qemu/hw/arm/garmin_gpsmap.c:647-657 | the rate is the input clock divided by 2^(ratio + 1), rounded down, at least 1; the input clock without prescaler |
| `GpTimer.CausesAre` | qemu/hw/arm/garmin_gpsmap.c:570-572 | a register value stands for the causes of its three low bits |
| `GpTimer.Timer.Current` | qemu/hw/arm/garmin_gpsmap.c:667-684 | the value read is that counter |
| `GpTimer.Timer.Schedule` | qemu/hw/arm/garmin_gpsmap.c:686-712 | re-arming leaves the value read now unchanged |
| `GpTimer.Timer.Fold` | qemu/hw/arm/garmin_gpsmap.c:714-738 | the ticks since the last time are folded into the value; an overflow is flagged if one of them was made from the top, a match if the stored value was not past it and these ticks, without a reload, reach it; a one-shot timer stops |
| `GpTimer.Timer.Tick` | qemu/hw/arm/garmin_gpsmap.c:714-739 | the callback leaves the value read now unchanged, flags what `Fold` flags, and re-arms |
| `GpTimer.OverflowFlaggedExactly` | qemu/hw/arm/garmin_gpsmap.c:725-734 | an overflow is flagged exactly when the counter, counted tick by tick, made a tick from the top |
| `GpTimer.MatchMissedExactly` | qemu/hw/arm/garmin_gpsmap.c:721-723 | a flagged match was reached by the counter counted tick by tick; one that was reached is not flagged exactly when it was reached only behind a reload within the span folded, with the stored value already past it |
| `GpTimer.MatchMissedRun` | qemu/hw/arm/garmin_gpsmap.c:714-739 | a callback 7 ns late at 1 GHz: from the top with reload value 5 the counter is at the match value 10 after 6 ns, but after 8 ns only the overflow is flagged |
| `GpTimer.Timer.WriteTclr` | qemu/hw/arm/garmin_gpsmap.c:816-823 | a control write keeps the value read now |
| `GpTimer.Timer.WriteTmar` | qemu/hw/arm/garmin_gpsmap.c:835-838 | a match write keeps the value read now |
| `GpTimer.Timer.Reset` | qemu/hw/arm/garmin_gpsmap.c:874-882 | a device reset clears the state but leaves the interrupt line as it was |
| `GpTimer.QuietBeforeDeadline` | qemu/hw/arm/garmin_gpsmap.c:686-712 | no overflow, and no match with a value ahead, before the deadline |
| `GpTimer.TicksSplit` | qemu/hw/arm/garmin_gpsmap.c:667-684 | counting two spans apart loses at most one tick |
| `GpTimer.DriftBounded` | qemu/hw/arm/garmin_gpsmap.c:692-712 | while rate, mode and reload stay, the value read lags an ideal counter by between 0 and k ticks after k folds |
| `GpTimer.OnTimeReachesExactly` | qemu/hw/arm/garmin_gpsmap.c:692-739 | of an event n ticks away, callbacks exactly on time leave nothing missing if n ticks are a whole number of nanoseconds, and one tick for ever otherwise |
| `GpTimer.TickOnTime` | qemu/hw/arm/garmin_gpsmap.c:692-739 | the timer's callback exactly at its deadline flags the event in exactly that case, and else leaves it one tick away |
| `GpTimer.RunOnTime` | qemu/hw/arm/garmin_gpsmap.c:692-739 | so do any number of callbacks, each exactly at the deadline the one before has set |
| `GpTimer.RearmThenTick` | qemu/hw/arm/garmin_gpsmap.c:816-838 | after a control or match write the callback flags an overflow exactly when the value left by the write overflows after it, whatever overflowed before |
| `GpTimer.OverflowForgottenExactly` | qemu/hw/arm/garmin_gpsmap.c:667-739 | an overflow before the write is thereby missed exactly when the reloaded count has not overflowed again by the callback or, in one-shot mode, no tick has passed |
| `GpTimer.OverflowForgottenRun` | qemu/hw/arm/garmin_gpsmap.c:835-838 | a run in which an overflow is never flagged, with its callback on time |
| `GpTimer.MatchFlaggedTwiceExactly` | qemu/hw/arm/garmin_gpsmap.c:721-723 | a match flagged by one callback is flagged again by the next, before any overflow, exactly when the first found the count equal to the match value |
| `GpTimer.MatchTwice` | qemu/hw/arm/garmin_gpsmap.c:714-739 | the same of two callbacks with an acknowledgement between them |
| `GpTimer.MatchTwiceRun` | qemu/hw/arm/garmin_gpsmap.c:714-739 | a run in which a match is flagged twice, both callbacks on time |
| `GpTimer.OnTimeAtTheBoardsRates` | qemu/hw/arm/garmin_gpsmap.c:4184-4195 | at 38.4 MHz that is every 24th count, at 32768 Hz every 64th |
| `SgxSync.CounterMovesForward` | qemu/hw/arm/garmin_gpsmap.c:3131-3137 | no write moves a completion counter backwards in 32-bit serial order |
| `SgxSync.CounterEndsAtLargest` | qemu/hw/arm/garmin_gpsmap.c:3131-3137 | written counts within a window of 2^31 in any order, a counter ends at the largest of them and its own |
| `SgxCommands.TaCommandCompletes` | qemu/hw/arm/garmin_gpsmap.c:3345-3412 | a TA command whose words no write touches is completed by exactly the writes its slots ask for, the word below a render target's "in use" word included |
| `SgxCommands.TransferCommandCompletes` | qemu/hw/arm/garmin_gpsmap.c:3436-3473 | the same for a transfer command |
| `SgxCommands.ValuesPending` | qemu/hw/arm/garmin_gpsmap.c:3352-3397 | the values asked for a counter are one more than the pending words of its operations, in order |
| `SgxLayout.TaRead` | qemu/hw/arm/garmin_gpsmap.c:3345-3408 | of a TA command laid out as the host does, field by field, the microkernel takes exactly the operations the host wants |
| `SgxLayout.TransferRead` | qemu/hw/arm/garmin_gpsmap.c:3418-3469 | and of a transfer command |
| `SgxLayout.TaAdvances` | qemu/hw/arm/garmin_gpsmap.c:3352-3397 | a counter that shows its pending value p, and that the command advances once, reads p + 1 afterwards |
| `SgxLayout.TaTaken` | qemu/hw/arm/garmin_gpsmap.c:3334-3350 | a TA command is taken exactly when it is marked ready and 1 to 0x10000 bytes long; the next follows it |
| `SgxLayout.TransferTaken` | qemu/hw/arm/garmin_gpsmap.c:3433-3443 | a transfer command always is; of an odd size it counts as 0x180 bytes |
| `SgxKicks.TakenIsLongest` | qemu/hw/arm/garmin_gpsmap.c:3326-3350 | the commands taken by a kick are the longest ready, well-formed run, at most 64 |
| `SgxKicks.KickCompletes` | qemu/hw/arm/garmin_gpsmap.c:3315-3420 | a kick makes every write the commands it takes ask for, in order and once each time one is taken, and moves the read offset behind the last |
| `SgxKicks.CommandAdvances` | qemu/hw/arm/garmin_gpsmap.c:3352-3408 | one command of either kind takes a counter from its pending value one further |
| `SgxKicks.StaysExactly` | qemu/hw/arm/garmin_gpsmap.c:3409-3411 | the read offset stays exactly behind a command of size 0x10000, TA or transfer |
| `SgxKicks.TakenOverAndOver` | qemu/hw/arm/garmin_gpsmap.c:3323-3411 | such a command is taken as often as the limit allows and is still first then |
| `SgxKicks.NotTwiceInARow` | qemu/hw/arm/garmin_gpsmap.c:3323-3411 | no other command is taken twice in a row |
| `Sgx.Microkernel.Advance` | qemu/hw/arm/garmin_gpsmap.c:3131-3137 | the conditional counter write |
| `Sgx.Microkernel.CompleteTa` | qemu/hw/arm/garmin_gpsmap.c:3352-3408 | the loops over syncs and statuses of a TA command |
| `Sgx.Microkernel.CompleteTransfer` | qemu/hw/arm/garmin_gpsmap.c:3450-3473 | those of a transfer command |
| `Sgx.Microkernel.WorkOff` | qemu/hw/arm/garmin_gpsmap.c:3324-3414 | the guarded loop over a client queue computes the kick |
| `Sgx.SlotsAt` | qemu/hw/arm/garmin_gpsmap.c:3201-3213 | the slots between read and write offset are (R + i) mod 256, all different |
| `Sgx.Microkernel.ConsumeCcb` | qemu/hw/arm/garmin_gpsmap.c:3185-3214 | device and kernel memory end as the (W - R) mod 256 slots leave them, one command after another, each read when its turn comes; the read offset ends at W and every command raised one event |
| `Sgx.Microkernel.ProcessCommand` | qemu/hw/arm/garmin_gpsmap.c:3498-3545 | what each kind of kernel command does to device and kernel memory; each raises an event |
| `Sgx.MiscInfoAnswers` | qemu/hw/arm/garmin_gpsmap.c:3474-3497 | the words the host finds in its block after a request for information |
| `SgxLayout.ContextRead` | qemu/hw/arm/garmin_gpsmap.c:3310-3321 | the queue a hardware context describes, under the kernel's directory if it has none |
| `SgxLayout.KickUnmarks` | qemu/hw/arm/garmin_gpsmap.c:3413-3415 | after a TA kick the context is no longer marked new; a transfer kick leaves its context alone |
| `SgxLayout.RingFound` | qemu/hw/arm/garmin_gpsmap.c:3185-3203 | the ring is found exactly when its four pointers are usable, with the low bytes of its offsets |
| `SgxLayout.KindFound` | qemu/hw/arm/garmin_gpsmap.c:3499-3509 | a command is of the first kind whose kick address it carries |
| `SgxLayout.AnswerIs` | qemu/hw/arm/garmin_gpsmap.c:3517-3531 | power-off, idle and clean-up requests set one bit each of the host control block, nothing else does |
| `SgxLayout.CommandAnswers` | qemu/hw/arm/garmin_gpsmap.c:3499-3531 | they are told by the fourth word of a command, and answered in the block the driver's private data names |
| `SgxLayout.SlotTaken` | qemu/hw/arm/garmin_gpsmap.c:3202-3213 | of the slots, 32 bytes and eight words each, the first is carried out first and the others see what it leaves |
| `SgxRun.KickKeeps` | qemu/hw/arm/garmin_gpsmap.c:3315-3471 | a kick keeps the invariant of a run: its queue loses the commands it takes, all others stay queued with what they ask for, and the counter shows a count no smaller than before |
| `SgxRun.RunKeeps` | qemu/hw/arm/garmin_gpsmap.c:3185-3471 | in every state of a run of submissions, stores and kicks the counter shows a count given out, and every operation with a later one is still between read and write offset of its queue |
| `SgxRun.DrainedMeansPending` | qemu/hw/arm/garmin_gpsmap.c:3185-3471 | with pending words stored in order of submission, the j-th operation's holding the number of those before it, what is read apart from what is written, and operations outstanding less than 2^31 apart: when every queue's read offset equals its write offset, the counter shows the number of operations issued |
| `SgxRing.WorkContinues` | qemu/hw/arm/garmin_gpsmap.c:3185-3214 | working off the ring after a run goes on with a run, one kick or store for every slot in order, and leaves in memory what that run leaves |
| `SgxRing.QuietWhen` | qemu/hw/arm/garmin_gpsmap.c:3499-3545 | commands other than kicks leave queues and counters alone, requests for information if their block lies elsewhere |
| `SgxRing.ConsumedMeansPending` | qemu/hw/arm/garmin_gpsmap.c:3185-3471 | so when the microkernel has consumed its ring and every client queue is drained then, the counter shows the number of operations issued |
| `GlFrame.LastUploadReplays` | qemu/hw/arm/garmin_gl.c:1815-1829 | at the swap the last level 0 upload of a texture that is not deleted is replayed with swap-time texels if large and not the GPU's, else with those of the call; `ReplayedTexels` says what large is |
| `GlFrame.OncePerFrame` | qemu/hw/arm/garmin_gl.c:1809-1829 | if no texture is uploaded twice at level 0, or deleted afterwards, every level 0 upload of the frame is such a last upload, whatever happens to higher levels and framebuffers |
| `GlFrame.RereadExactly` | qemu/hw/arm/garmin_gl.c:1815-1829 | a queued upload to any level is re-read at the swap exactly when the call that settled its texture last (level 0 or texel-less upload, deletion, attachment, new name) was a large level 0 upload of a texture not the GPU's, that is, not attached since its name was last given out or deleted |
| `GlFrame.ReplayedTexels` | qemu/hw/arm/garmin_gl.c:2144-2147 | on the calls' own arguments: a last level 0 upload of GL_ALPHA or of fewer than 65536 texels is replayed with the texels of the call; one of at least as many in another format, and not the GPU's, with those of the swap |
| `GlFrame.AlphaRun` | qemu/hw/arm/garmin_gl.c:2144-2147 | a run in which a 256 x 256 alpha image is replayed as it was |
| `GlFrame.HigherLevelRun` | qemu/hw/arm/garmin_gl.c:2123-2267 | a run in which a small level 1 upload is replayed with what the guest wrote later |
| `GlFrame.NamedAnewRun` | qemu/hw/arm/garmin_gl.c:2274-2281 | a run in which a name was the GPU's, is given out anew, and its next large upload is re-read |
| `GlFrame.UnchangedReplaysExactly` | qemu/hw/arm/garmin_gl.c:1815-1829 | if guest memory did not change, the replay is exactly the calls made |
| `GlFrame.Server.Dispatch` | qemu/hw/arm/garmin_gl.c:1992-2281 | executed requests followed by the queue are the forwarded calls in order, with the texels copied for them; a query runs after all of them, a swap after their refreshed form |
| `GlFrame.TexelSizes` | qemu/hw/arm/garmin_gl.c:1473-1488 | the bytes of a texel for every format and packed type |
| `GlFrame.RowsPadded` | qemu/hw/arm/garmin_gl.c:1490-1497 | rows are padded to the next multiple of the alignment; which arguments count them |
| `GlFrame.ImageWhole` | qemu/hw/arm/garmin_gl.c:1490-1497 | of an image every byte OpenGL ES reads is copied, at every alignment |
| `GlFrame.SubImageDroppedExactly` | qemu/hw/arm/garmin_gl.c:2123-2151 | a sub-image with texels is dropped exactly when its y offset is 0 |
| `GlFrame.SubImageWholeExactly` | qemu/hw/arm/garmin_gl.c:2123-2129 | every byte OpenGL ES reads of a sub-image is copied exactly when the bytes counted by y offset and width reach its end; with texels that fill the alignment, exactly when the offset is at least the height |
| `GlFrame.SubImageExamples` | qemu/hw/arm/garmin_gl.c:2123-2129 | of two sub-images of 64 x 64 RGBA texels the one at y offset 0 is dropped, and of the one at 8 only 2048 of 16384 bytes are copied |
| `GlFrame.Server.SyncLargeTextures` | qemu/hw/arm/garmin_gl.c:1815-1829 | the loop over the queue refreshes exactly the watched uploads |
| `GlFrame.Server.FrameFlush` | qemu/hw/arm/garmin_gl.c:1315-1323 | the queue is executed in order and emptied |
| `GlDraw.Request.Push` | qemu/hw/arm/garmin_gl.c:711-726 | a blob lies at a multiple of 16 behind all earlier ones, which keep their bytes |
| `GlDraw.Request.MarshalArray` | qemu/hw/arm/garmin_gl.c:1399-1442 | an array's blob holds its vertices converted from what there is to convert from: the copy of client memory or the buffer, and arbitrary bytes behind it; fails exactly when that cannot be had |
| `GlDraw.Request.MarshalDraw` | qemu/hw/arm/garmin_gl.c:1444-1475 | all arrays of a draw, earlier blobs preserved; fails exactly when the bytes of an enabled array cannot be had |
| `GlDraw.Request.MarshalElements` | qemu/hw/arm/garmin_gl.c:2089-2122 | the index list is copied, vertices 0 to its largest index are, and every index is below nverts; dropped only when there is nothing to draw or something cannot be read, aborted exactly for a negative count |
| `GlDraw.AvailableExactly` | qemu/hw/arm/garmin_gl.c:1406-1424 | a buffer serves an array exactly when its last vertex starts in the buffer or at its end, client memory when stride times vertices can be read |
| `GlDraw.IndexBytesAre` | qemu/hw/arm/garmin_gl.c:2092-2110 | the index list is that of the element buffer if one is bound, else of client memory, or cannot be had |
| `GlDraw.LargestIndex` | qemu/hw/arm/garmin_gl.c:2111-2115 | the loop finds the largest index |
| `GlDraw.IndexIs` | qemu/hw/arm/garmin_gl.c:2111-2113 | an index is a byte, or two with the low one first |
| `GlDraw.HostFetchesGuestVertex` | qemu/hw/arm/garmin_gl.c:1399-1442 | what the host fetches for copied vertex v is the component of vertex first + v converted from what there was, and, if that holds the whole vertex, the one OpenGL ES defines: by stride, component size and, in the normal and colour arrays, normalised |
| `GlDraw.GuestsExactly` | qemu/hw/arm/garmin_gl.c:1405-1439 | all vertices of a draw are made from the guest's bytes, whatever lies behind those copied, if and only if client memory is strided by at least a vertex or the buffer holds the last vertex |
| `GlDraw.NarrowStrideExample` | qemu/hw/arm/garmin_gl.c:1405-1439 | of one vertex of four floats with stride 4 only the first is copied; the others are made from what lies behind |
| `GlDraw.HostFetchesIndexed` | qemu/hw/arm/garmin_gl.c:2089-2122 | the k-th vertex the host fetches for an indexed draw is the vertex with the guest's k-th index, and the guest's if what there was to convert from holds it |
| `Mailbox.Mailbox.Push` | qemu/hw/arm/garmin_gpsmap.c:2768-2777 | a word is appended unless the box is full; the message flag is set for all users and the lines follow |
| `Mailbox.Mailbox.Pop` | qemu/hw/arm/garmin_gpsmap.c:2779-2797 | the oldest word is taken; flags and lines follow |
| `Mailbox.BitsAre` | qemu/hw/arm/garmin_gpsmap.c:2768-2797 | the causes a register value stands for are its binary digits |
| `Mailbox.Mailbox.DucatiReply` | qemu/hw/arm/garmin_gpsmap.c:2800-2819 | exactly one whole request is echoed, or none is complete and all words are collected |
| `Mailbox.Mailbox.WriteMessage` | qemu/hw/arm/garmin_gpsmap.c:2879-2886 | a host write; invariants kept, and a reply is on its way |
| `Mailbox.Mailbox.ReadMessage` | qemu/hw/arm/garmin_gpsmap.c:2828-2830 | a host read; invariants kept |
| `Mailbox.Mailbox.ClearStatus` | qemu/hw/arm/garmin_gpsmap.c:2892-2899 | a message flag cannot be cleared while a message is there |
| `Mailbox.Mailbox.Reset` | qemu/hw/arm/garmin_gpsmap.c:2922-2933 | a device reset leaves the interrupt lines as they were |
| `Mailbox.EveryWordAccountedFor` | qemu/hw/arm/garmin_gpsmap.c:2768-2819 | for a host that never overruns: words sent are words read, then the reply box, the partial request and the request box |
| `Egalax.Reassembled` | qemu/hw/arm/garmin_gpsmap.c:1918-1931 | a command of up to 64 bytes, however cut, is put together exactly and completed by its last chunk only |
| `Egalax.RepliesAre` | qemu/hw/arm/garmin_gpsmap.c:1875-1907 | every complete command is answered once, 'D' and 'E' twice, byte for byte: its first bytes, with the status of a "3a fe" query zeroed |
| `Egalax.TouchIs` | qemu/hw/arm/garmin_gpsmap.c:1863-1876 | a report carries the mirrored position, which the firmware's own mirroring undoes, and the button |
| `Egalax.Controller.Finish` | qemu/hw/arm/garmin_gpsmap.c:1917-1945 | the end of a transfer: chunk assembly and answers, or a partly read frame dropped |
| `Egalax.Controller.Command` | qemu/hw/arm/garmin_gpsmap.c:1875-1905 | the replies to a command are queued |
| `Egalax.Controller.QueueFrame` | qemu/hw/arm/garmin_gpsmap.c:1840-1853 | a frame is appended to the ring unless it is full; the interrupt is low exactly while frames wait |
| `Egalax.Controller.Recv` | qemu/hw/arm/garmin_gpsmap.c:1962-1981 | the next byte of the first frame, which is gone after its tenth |
| `Egalax.Controller.ReadAll` | qemu/hw/arm/garmin_gpsmap.c:1962-1981 | as many ten-byte reads as frames wait, with stops or repeated starts, return them once each, in order; without an unfinished write nothing waits then and the interrupt is released |
| `Egalax.Controller.InputSync` | qemu/hw/arm/garmin_gpsmap.c:2056-2080 | acting on button and position is the step of the contact; its reports are queued |
| `Egalax.Controller.RepeatTimer` | qemu/hw/arm/garmin_gpsmap.c:2034-2054 | so is the repeat timer |
| `Egalax.Controller.Reset` | qemu/hw/arm/garmin_gpsmap.c:2100-2108 | after a reset nothing is queued and the interrupt is released |
| `EgalaxTouch.NextKeeps` | qemu/hw/arm/garmin_gpsmap.c:2026-2080 | each step keeps the invariant of the contact |
| `EgalaxTouch.ClickIsHeld` | qemu/hw/arm/garmin_gpsmap.c:2034-2080 | a click: pressed at once, released at once after 1.5 s and else by the first timer run so late; until then reported every 10 ms unless a report waits |
| `EgalaxTouch.DragReported` | qemu/hw/arm/garmin_gpsmap.c:2056-2080 | a change of position while pressed is reported once |
| `EgalaxTouch.TimerLostExactly` | qemu/hw/arm/garmin_gpsmap.c:2011-2080 | over every run, button and sync apart: an "up" comes at least 1.5 s after the latest press, nothing is reported between an "up" and the next press, and a held or pending contact has no timer exactly when, since its press, the timer ran out between the button going up and its sync |
| `EgalaxTouch.ForgottenUntilPressed` | qemu/hw/arm/garmin_gpsmap.c:2034-2080 | a release pending without a timer is not reported any more before the next press |
| `EgalaxTouch.LostExamples` | qemu/hw/arm/garmin_gpsmap.c:2034-2080 | two runs to such a state: a late sync, and a button down again before it |
| `EgalaxTouch.RunHolds` | qemu/hw/arm/garmin_gpsmap.c:2011-2080 | with button and sync as one step a pressed or pending contact always has its timer, so no release is forgotten |
| `Sdma.PiecesAreOneCopy` | qemu/hw/arm/garmin_gpsmap.c:2445-2484 | a copy made in any pieces is one uninterrupted forward copy |
| `Sdma.TransferConserved` | qemu/hw/arm/garmin_gpsmap.c:2445-2484 | moved and remaining always make up the transfer; it is flagged done at most once and only when whole |
| `Sdma.DoneMeansCopied` | qemu/hw/arm/garmin_gpsmap.c:2445-2502 | a channel that is done, whose registers were left alone and whose source, destination and ports all others stayed off, has made one uninterrupted copy, however channels took turns |
| `Sdma.DoneMemory` | qemu/hw/arm/garmin_gpsmap.c:2445-2502 | so its destination in memory holds, byte for byte, what the source held at the start |
| `Sdma.DoneFromPort` | qemu/hw/arm/garmin_gpsmap.c:2445-2502 | its j-th element from a port is what the port's j-th read brought |
| `Sdma.DoneToPort` | qemu/hw/arm/garmin_gpsmap.c:2445-2502 | its elements to a port were appended there in order |
| `Sdma.MemoryCopied` | qemu/hw/arm/garmin_gpsmap.c:2453-2470 | a copy from memory to memory, byte by byte: the source in the destination, everything else as before |
| `Sdma.ArrivesExactly` | qemu/hw/arm/garmin_gpsmap.c:2453-2470 | a copy of more than one element arrives, whatever memory holds, if and only if its destination starts no later than its source or lies behind it |
| `Sdma.PortRead` | qemu/hw/arm/garmin_gpsmap.c:2453-2464 | as many reads of the port as elements, the j-th giving the j-th element |
| `Sdma.PortWritten` | qemu/hw/arm/garmin_gpsmap.c:2453-2464 | the elements are written to the port in order, memory stays |
| `Sdma.NothingElse` | qemu/hw/arm/garmin_gpsmap.c:2445-2484 | nothing outside source and destination changes |
| `Sdma.ElementsExactly` | qemu/hw/arm/garmin_gpsmap.c:2510 | the elements of a transfer are the product of 24 and 16 bits of two registers, in 32 bits |
| `Sdma.Dma.StepChannel` | qemu/hw/arm/garmin_gpsmap.c:2445-2484 | a burst, as far as the ports are ready; completion exactly at remaining 0; nothing outside what the channel has left to do changes |
| `Sdma.Dma.Complete` | qemu/hw/arm/garmin_gpsmap.c:2400-2417 | flags, enable bit and interrupt of a completed channel |
| `Sdma.Dma.EngineTick` | qemu/hw/arm/garmin_gpsmap.c:2486-2502 | every active channel gets a burst and the engine stays set exactly while one is active; transfers that the other active channels stay off keep their part of the copy |
| `Sdma.Dma.Start` | qemu/hw/arm/garmin_gpsmap.c:2504-2531 | memory to memory completes at once exactly up to 2^31 - 1 elements; any other active channel has a tick pending |
| `Sdma.Dma.WriteCcr` | qemu/hw/arm/garmin_gpsmap.c:2587-2597 | enabling starts a transfer, disabling stops it |

## Left out

- RcifLink.CallCompletes: for requests the slave recognises; the one exception, a request whose id has low byte 0x55
  before the start byte was seen, is exactly what `RcifFrames.RecognisedExactly` says is lost.
- Sgx.Microkernel.ProcessCommand: an information block that crosses a page boundary; there the program goes on in
  physical memory behind the first page.
- Names outside the Basic Multilingual Plane, with NUL or U+FFFF, and of more than 819 UTF-16 units: the writer
  counts units and the reader code points, and ordinals have six bits.
- Building the tree, host files and their timestamps, `ljust` and encoding of the label (it is given as eleven
  bytes), the upper-case uniqueness check of siblings (their names are taken to be distinct), argument parsing.
- The table keyed by object identity in the writer: entries are a sequence parallel to the laid-out cells.
- The reader's exceptions and endless chains are one outcome (no report); chains are followed for a given number of
  links, and the results hold for any number from clusters + 2 on.
- The boot phase of the GPS stand-in, its logging, and `TESEO_NO_RCIF`. Time is a function of the number of calls
  answered. The master is the one the file's own header describes; timeouts are events of the slave but no steps of
  the composed system.
- Addresses that alias: a device address is mapped or not, and different addresses are different words.
- The event timer behind the SGX interrupt.
- Timer registers that are only stored and read back, and 64-bit overflow of its multiply-divide, which the board's
  rates never reach.
- Host GL and the conversion of a component to a float (an arbitrary function here), resynchronisation of textures
  between frames (off by default), compressed textures, unreadable texel memory, and client state tracked without a
  host call.
- What lies behind a copy of client memory or the end of a buffer object is arbitrary. Negative strides and offsets,
  and unpack alignments other than 0 (for 4), 1, 2, 4 and 8, none of which OpenGL ES takes.
- Rounding and scaling of pointer positions before they reach the touch controller.
- DMA elements of 8 bytes (data type 3), which the program moves through a 32-bit variable: no defined behaviour.
- DMA constant-fill, chaining, half-frame flags and frame or element indices, none of which the engine implements.
- Launchers, monitors, other devices and their registers: plumbing, or finite tables.

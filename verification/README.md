# Phobos in Dafny

A model of the core of Phobos, the parallel heterogeneous object store, with proofs about it. Phobos cuts objects into
splits of data and parity extents, writes them on the media that its daemon grants, reads them back from any sufficient
subset of extents, rebuilds lost extents, and moves or releases copies. `dafny verify dfyconfig.toml` checks everything.

What is modelled, by module:

- **Split sizing** (`SplitSizing`, `SplitPlan`, `RaidWriter`). The sizes of splits are never stored. The writer derives them
  from the grants, the reader from the sizes of the extents it was given, the rebuilder from the offsets of what is left.
  They agree, for every object size, every sequence of positive grants and every choice of extents.
- **RAID4 bytes** (`Raid4Stripes`, `Raid4Batches`, `Raid4Read`, `Raid4Split`, `Raid4Recovery`, `Raid4Object`,
  `Raid4Buffer`, `Raid4Transfer`). The stripe loops work in place in the transfer buffer, on arrays here as well, and whole
  puts and gets drive them through their buffers. An object survives the loss of one extent in each split, and the writer
  stays inside its buffer, exactly when no refill of the buffer cuts a stripe. Grants of a chunk or more guarantee it; a
  smaller grant can break it.
- **RAID4 rebuild** (`Raid4Rebuild`, `Raid4Restore`, `Raid4RebuildObject`). Lost extents are rebuilt byte for byte, for every
  object and whichever extents are lost, exactly under the same condition; a whole rebuild drives the loop in place over
  the splits that it seeks.
- **Transfer buffer** (`StripeBuffer`). Greatest common divisor, least common multiple, and the size of the buffer over any
  sequence of splits. The comment in `src/include/pho_layout.h` says the buffer is the least common multiple of the reader
  and writer stripes; the code keeps the stripes of earlier splits too, and the model follows the code.
- **Rebuild of extents** (`RebuildSeek`, `RebuildRun`, `RebuildList`, `RebuildSplit`). The splits that the two contexts of a
  rebuild go through, the count that ends it, the lists it accepts, and the extents it prepares.
- **Release accounting** (`ReleaseAccounting`, `ReleaseRuns`, `ReleaseEncoder`). Reference counts of the media to release,
  for any interleaving of writes, requests and responses over several targets, and exactly when a filled layout is flushed.
- **Eraser** (`Eraser`). The countdown of extents to delete, the splits it skips and the deletions that fail.
- **Rebuild scheduler** (`SchedulerScore`, `SchedulerSelect`, `SchedulerReuse`, `GroupKeys`, `SchedulerCollect`,
  `SchedulerGroups`, `SchedulerRun`, `SchedulerRequest`). Collection of the extents of a lost medium, grouping by the media
  to mount, choice of the next group for any order of the hash tables, conservation over a run, reuse of mounted media,
  and acceptance of every request by the rebuilder.
- **Repack of a tape** (`RepackDb`, `Repack`, `RepackExamples`). A protocol in which any call may fail: what every state on
  the way keeps, exactly when data is lost, and what an interruption leaves.
- **HSM commands** (`HsmRelease`, `HsmSync`). The budget of bytes to release from a directory, and grouped synchronisation.

`Basics` and `Arithmetic` hold shared types, sums and facts about division.

Code that updates variables or structures in place is a method with a loop, a class or an array here; each such method is
tied to a specification function or states its property outright, and lemmas prove what the source promises of it. The
answers of the database, of the daemon and of the media are parameters, so that statements hold for all of them. Integers
are unbounded and fill rates are exact reals.

Assumptions taken from the source: extents of a layout are sorted by distinct layout indexes; media are distinct inside a
split and inside a group key, and of one family and library; the daemon acknowledges no more releases than were sent;
extents of a tape have distinct addresses, new extents get new identifiers, and no layout refers to the empty tape that a
repack is given; the microseconds of a creation time are less than a second.

Places where a stronger property fails. Each has a concrete state, and the exact condition under which it holds:

- an extent may exceed its grant by one byte (`SplitSizing.OutgrowsGrantIff`);
- a non-final split with extents below a chunk lets buffer refills cut later stripes: the padding of such a stripe is
  written, and its parity computed, past the end of the buffer, although the comment at
  `src/layout-modules/raid4/write.c:167-174` says there is room, and what is stored would not survive a loss either
  (`Raid4Buffer.NarrowGrantOverruns`, `Raid4Buffer.ObjectFitsIff`, `Raid4Object.ObjectSurvivesIff`,
  `Raid4RebuildObject.ObjectRestoresIff`);
- the buffer may exceed the least common multiple of the current stripes (`StripeBuffer.CurrentStripeIff`);
- a list with a repeated entry prepares fewer extents than it counts; it is accepted for an object of three copies, and
  rejected for RAID4 (`RebuildList.SlotsAreWork`,
  `RebuildList.RepeatedEntry`);
- a medium written again while more of its releases are under way than the target waits for may fill a layout before its
  extents are flushed (`ReleaseEncoder.EarlyFill`, `ReleaseRuns.AlwaysSafeIff`);
- the degree never breaks a tie between groups to continue with (`SchedulerSelect.DegreeNeverDecides`), and a group that
  reuses a mounted medium may be passed over when group sizes differ by two or more (`SchedulerReuse.ReuseIff`); keys of
  RAID1 have one medium and keys of RAID4 have two, so that reuse is guaranteed for the layouts that exist;
- a repack loses data when all live extents are empty, or when a layout refers to an orphan extent
  (`RepackExamples.NoBytes`, `RepackExamples.OrphanReference`, `Repack.Admin.Repack`);
- an interrupted repack may report a success and leave layouts that refer to orphan copies
  (`RepackExamples.SecondSwitchFails`, `Repack.InterruptedAnswer`, `Repack.Admin.Repack`);
- a read medium given with an index that the layout does not have makes the rebuilder dereference a missing extent
  (`SchedulerRequest.MissingExtent`, `SchedulerRequest.ValidateMediaRead`);
- a directory may lose more than a budget and the last release account for (`HsmRelease.WholeCopyGoes`,
  `HsmRelease.FreesAtLeast`).

## Model

| member | source | states |
|---|---|---|
| `SplitSizing.ShareGrants` | src/layout/raid_common.c:1702-1711 | The loop over the grants leaves the even share cut down to the smallest grant, the remainder being kept only if no grant is below the share. |
| `SplitSizing.SplitFacts` | src/layout/raid_common.c:1702-1725 | For any grants a split stays inside the object, keeps a remainder only when it ends the object, is made of whole chunks or of at most one chunk per extent otherwise, and is not empty when all grants are positive. |
| `SplitSizing.SplitIsLargest` | src/layout/raid_common.c:1702-1725 | If every grant holds the even share the split ends the object with it; otherwise its extents are within all grants, a multiple of the chunk or at most a chunk, and no larger multiple of the chunk is affordable, nor any larger size at all where a chunk and one byte is not. |
| `SplitSizing.LargestIsUnique` | src/layout/raid_common.c:1702-1725 | Only one split at an offset is the largest in this sense. |
| `SplitSizing.SetExtentSizes` | src/layout/raid_common.c:940-969 | The first `r` data extents and all parity extents get one byte more than the share, in place, at any list of indexes. |
| `SplitSizing.WriterSplitSetup` | src/layout/raid_common.c:1681-1747 | A whole split setup: the split, the sizes of its extents, and a split size, summed over the data extents, that equals share times data extents plus remainder; the share is the largest one that the grants and the chunk allow. |
| `SplitSizing.DataSizes` | src/layout/raid_common.c:1741-1744 | The data extents of a split add up to the bytes of the split, from any extent on. |
| `SplitSizing.AnyDataCount` | src/layout/raid_common.c:1361-1373 | Any `d` distinct extents of a split, data or parity, sum to at least the split, and the clamp to what remains of the object gives exactly the split of the writer. |
| `SplitSizing.RemainToWritePerMedium` | src/layout/raid_common.c:593-642 | The request loop adds up, for the current target and the next ones, the need of one medium rounded up to blocks plus three blocks. |
| `SplitSizing.RequestOfAll` | src/layout/raid_common.c:611-639 | Over any list of targets the request exceeds the need by three blocks or more, and less than four, for each target. |
| `SplitSizing.FullGrantOneSplit` | src/layout/raid_common.c:1702-1728 | When every medium grants what was requested, one split ends the target and every extent, parity included, is within its grant. |
| `SplitSizing.OutgrowsGrantIff` | src/layout/raid_common.c:1706-1711 | An extent exceeds its grant by at most one byte, and does so if and only if no grant is below the share, the share leaves a remainder, the extent is one that gets an extra byte and its grant is exactly the share. |
| `SplitSizing.OutgrowsGrantExample` | src/layout/raid_common.c:1706-1711 | Three bytes over two data extents with one byte granted everywhere: the first extent gets two bytes. |
| `SplitPlan.PlanTiles` | src/layout/raid_common.c:1702-1725 | For any positive grants the splits are contiguous from 0 to the object size, each non-final one is positive, without remainder and made of whole chunks or of at most one chunk per extent. |
| `SplitPlan.PlanIsLargest` | src/layout/raid_common.c:1702-1725 | Every split of a plan is the largest one that its grants allow. |
| `SplitPlan.GetCurrentSplitSize` | src/layout/raid_common.c:2423-2448 | The rebuilder's loop finds the distance to the first extent of a later split, or what remains of the object. |
| `SplitPlan.RebuildInvertsWrite` | src/layout/raid_common.c:2423-2462 | Rebuild sizing inverts write sizing: from any extents left, at least one in each split, the rebuilder finds the offset of a split, its size, its share and its remainder as the writer chose them. |
| `RaidWriter.Writer.SplitSetup` | src/layout/raid_common.c:1681-1747 | The extents of the split get layout indexes counted from the first index of the split, its offset, the media of the allocation and the sizes of the split. |
| `RaidWriter.Writer.WriteSplit` | src/layout/raid_common.c:2097-2107 | Whatever the buffer holds at each step, the split ends exactly at its size. |
| `RaidWriter.Writer.SplitClose` | src/layout/raid_common.c:1829-1852 | The extents are appended to the written ones, and the next split starts where this one ended. |
| `RaidWriter.WriteObject` | src/layout/raid_common.c:1681-1852 | The write loop ends for any positive grants and any buffer fillings, and leaves the layout of the plan. |
| `RaidWriter.LayoutIsPlan` | src/layout/raid_common.c:887-896 | The written layout has all extents of every split, with consecutive layout indexes; each extent has the offset and size of its split and is on the medium that the allocation gave for it. |
| `RaidWriter.ReaderFollowsWriter` | src/layout/raid_common.c:1361-1373 | Whichever `d` extents of each split it reads, the reader goes through the offsets and sizes of the writer's splits. |
| `Raid4Stripes.XorInPlace` | src/layout-modules/raid4/xor.c:40-46 | The destination becomes the byte-wise exclusive or of the two ranges and nothing else changes. |
| `Raid4Stripes.ParityInPlace` | src/layout-modules/raid4/write.c:166-182 | Where the padded stripe is inside the buffer, its parity replaces the bytes after the first chunk and the rest is unchanged; otherwise, and only then, the answer is that it goes past the end of the buffer. |
| `Raid4Stripes.ShortStripeIsLast` | src/layout-modules/raid4/write.c:137-149 | A stripe that is short on extent 1 ends the buffered bytes, so that the zero padding overwrites no data. |
| `Raid4Stripes.StripeLoop` | src/layout-modules/raid4/write.c:118-199 | For any batch of any split the loop, working in place over the buffer it reads from, either appends to the three extents exactly the data chunks and the parity of the stripes it cuts, or goes past the end of the buffer, exactly if the padding of these stripes reaches beyond it. |
| `Raid4Stripes.AlignedIsRegular` | src/layout-modules/raid4/write.c:137-149 | A batch of whole stripes, or one that ends the split, is cut in two chunks per stripe, a short last stripe being shared in halves. |
| `Raid4Stripes.RegularReach` | src/layout-modules/raid4/write.c:166-182 | An aligned batch needs no room beyond its whole stripes in the buffer, padding included. |
| `Raid4Split.SplitWriter.WriteFromBuff` | src/layout-modules/raid4/write.c:219-243 | After any batches that stay inside the buffer the extents hold what all stripes so far make of all bytes so far; a batch goes past the buffer exactly if its stripes reach beyond it. |
| `Raid4Batches.StripedIffAligned` | src/layout-modules/raid4/write.c:118-199 | Every content of a split is stored in the layout of the split if and only if every batch but the last one ends on a stripe boundary. |
| `Raid4Batches.MisalignedContent` | src/layout-modules/raid4/write.c:137-187 | For any batches with a misaligned one, a content whose stored parity differs from that of the layout. |
| `Raid4Read.ReadIntoBuff` | src/layout-modules/raid4/read.c:58-176 | For any request and any lengths of the two extents, how the read loop ends; when it ends well the buffer holds, in place, the bytes recovered stripe by stripe from the two extents at hand, be they both data or one the parity, and the extents are left at the bytes that follow. |
| `Raid4Read.DoneIff` | src/layout-modules/raid4/read.c:83-173 | The read loop ends with all its bytes if and only if the first extent has half of them, the second one its share, and the padding of a stripe recovered without extent 0 stays inside the buffer; otherwise it meets a short extent, makes no more progress on an exhausted one, or goes past the buffer. |
| `Raid4Read.RecoverStripe` | src/layout-modules/raid4/read.c:96-172 | A stripe is recovered from any two of its three chunks, the last one short included. |
| `Raid4Read.FetchIsRegular` | src/layout-modules/raid4/read.c:101-113 | The read loop goes through the stripes of the layout, for whole stripes and for the end of a split. |
| `Raid4Read.ReadBack` | src/layout-modules/raid4/read.c:83-173 | Any two extents give back the stored bytes, whatever follows on the media. |
| `Raid4Recovery.SurvivesIffAligned` | src/layout-modules/raid4/read.c:58-176 | A split can be read back without any one of its extents, whatever the aligned batches of the reads, if and only if it was written in aligned batches. |
| `Raid4Recovery.MisalignedLoses` | src/layout-modules/raid4/write.c:137-187 | With a parity that differs from the layout, reading from extent 1 and the parity in any aligned batches gives other bytes. |
| `Raid4Rebuild.RebuildRestores` | src/layout-modules/raid4/write.c:201-217 | Losing any one extent of a split written in aligned batches, reading the split from the two others and rebuilding with the single descriptor gives back the bytes of the lost extent. |
| `Raid4Rebuild.MisalignedParity` | src/layout-modules/raid4/write.c:137-187 | For any batches with a misaligned one, a content whose stored parity is not the parity of its stored data. |
| `Raid4Rebuild.WrongParityReplaced` | src/layout-modules/raid4/write.c:201-217 | With such a parity, every rebuild of the parity extent in aligned batches gives other bytes than it had. |
| `Raid4Rebuild.RestoresIffAligned` | src/layout-modules/raid4/write.c:201-217 | A lost extent is rebuilt byte for byte, for every content, whichever extent it is and in any aligned batches of the rebuild, if and only if the split was written in aligned batches. |
| `Raid4Rebuild.RebuildLoop` | src/layout-modules/raid4/write.c:118-199 | The stripe loop of a rebuild, in place in the buffer with the descriptor of the one extent it writes: what it writes for any batch, or that it would go on with a wrapped or an exhausted size or past the end of the buffer. |
| `Raid4Restore.RebuildExtent` | src/layout-modules/raid4/write.c:201-217 | Reading and rebuilding an extent, batch after batch in one buffer, gives what reading the whole split and then rebuilding it would; it never goes past a buffer of whole stripes. |
| `Raid4RebuildObject.ObjectRestoresIff` | src/layout-modules/raid4/write.c:201-217 | Every lost extent of every object is rebuilt byte for byte if and only if no refill of the put buffer cut a stripe, memory past the end of that buffer being otherwise left alone. |
| `Raid4RebuildObject.RebuildLost` | src/layout/raid_common.c:2426-2462 | One split of a rebuild: from the extents that are left it finds the lost index, the size of the split and the extent of the writer, reads the two others and puts back what the rebuild gives. |
| `Raid4RebuildObject.RebuildObject` | src/layout/raid_common.c:2464-2562 | Going through the splits with work to do with one buffer, the rebuild makes exactly the lost extents, each as the writer made it, and leaves the other extents alone. |
| `Raid4RebuildObject.PutThenRebuild` | src/layout/raid_common.c:2464-2562 | Put, loss of at most one extent in each split, rebuild, for any positive grants: the object is stored byte for byte as before if no refill of the put buffer cuts a stripe, otherwise the put goes past its buffer. |
| `Raid4Object.BufferBatches` | src/store/store.c:505-540 | A split is written in batches that end at multiples of the buffer size in the object or at the end of the split, and they add up to the split. |
| `Raid4Object.HalvesAreSizes` | src/layout/raid_common.c:962-967 | The sizes given to the three extents of a RAID4 split are the larger half, the smaller half and the larger half of its bytes. |
| `Raid4Object.BuffersAlignedIff` | src/store/store.c:505-540 | The batches of a split are aligned if and only if no refill of the buffer falls inside one of its stripes. |
| `Raid4Object.ObjectSurvivesIff` | src/layout-modules/raid4/write.c:201-243 | Every object, read through a buffer of its own size, survives the loss of one extent in each split if and only if no refill of the put buffer cuts a stripe, memory past the end of that buffer being otherwise left alone. |
| `Raid4Object.WideGrantsKeepStripes` | src/layout/raid_common.c:1721-1725 | With a chunk or more granted on every medium, every split starts on a stripe boundary of the object and no refill cuts a stripe. |
| `Raid4Object.NarrowGrantCutsStripe` | src/layout/raid_common.c:1721-1725 | An allocation below the chunk size makes the next split start inside a stripe, which a refill of the buffer then cuts. |
| `Raid4Buffer.CutStripeOverruns` | src/layout-modules/raid4/write.c:166-182 | If a refill cuts a stripe of a split, the first batch of that split pads past the end of the buffer. |
| `Raid4Buffer.SplitFitsIff` | src/layout-modules/raid4/write.c:166-182 | Every batch of a split at an even offset stays inside the buffer, padding included, if and only if no refill of the buffer cuts a stripe of the split. |
| `Raid4Buffer.ObjectFitsIff` | src/layout-modules/raid4/write.c:166-182 | For the splits of any object, the writer never goes past the end of the buffer if and only if no refill cuts a stripe. |
| `Raid4Buffer.NarrowGrantOverruns` | src/layout-modules/raid4/write.c:166-182 | Three bytes granted on each medium, chunks of four and a buffer of eight bytes: the stripe of the second split at position 6 reaches position 10. |
| `Raid4Transfer.Transfer.PutSplit` | src/store/store.c:502-528 | The refills of the buffer and the writes of a split, in place in the buffer: the split is stored in the batches that the refills cut, or the writer goes past the buffer, exactly if one of these batches does not fit. |
| `Raid4Transfer.PutObject` | src/store/store.c:493-540 | A whole put through one buffer stores every split, unless a stripe goes past the buffer, exactly if one does not fit. |
| `Raid4Transfer.GetSplit` | src/layout-modules/raid4/read.c:79-81 | The reads of a split, as many bytes at a time as the buffer takes, give the bytes that the two extents at hand give, or fail on an extent that is too short; they never go past a buffer of whole stripes. |
| `Raid4Transfer.GetObject` | src/layout/posix_layout.c:170-178 | A whole get through one buffer, empty whenever a read starts, gives the splits one after the other. |
| `Raid4Transfer.PutThenGet` | src/include/pho_layout.h:163-171 | Put then get with the loops working in their buffers, for any positive grants and whichever extent each split has lost: the object comes back if no refill of the put buffer cuts a stripe, otherwise the put goes past its buffer; with a chunk or more granted on every medium the object always comes back. |
| `StripeBuffer.Gcd` | src/include/pho_common.h:498-510 | The loop ends with a common divisor that every common divisor divides, and that is an integer combination of the two numbers. |
| `StripeBuffer.Lcm` | src/include/pho_common.h:512-515 | A common multiple that divides every common multiple. |
| `StripeBuffer.TransferBuffer.Allocate` | src/store/store.c:493-500 | The buffer is allocated once both stripes are known, as the least multiple of them. |
| `StripeBuffer.TransferBuffer.SplitSetup` | src/layout/raid_common.c:1730-1733 | The size changes if and only if it is not a multiple of the new stripe; it becomes the least multiple of the reader stripe and of all writer stripes so far, and a multiple of the old size. |
| `StripeBuffer.Setups` | src/layout/raid_common.c:2363-2367 | Over any sequence of splits the buffer is, at each split, the least size that holds whole stripes of the reader and of every split so far. |
| `StripeBuffer.CurrentStripeIff` | src/include/pho_layout.h:163-171 | The buffer is the least common multiple of the reader stripe and of the current writer stripe if and only if that multiple holds whole stripes of the earlier splits too. |
| `StripeBuffer.LargerThanCurrent` | src/include/pho_layout.h:163-171 | Stripes of 2 for the reader and of 3 then 2 for the writer leave a buffer of 6, not 2. |
| `RebuildSeek.ExtentFromLayoutIdx` | src/layout/raid_common.c:137-148 | The loop finds an extent of this layout index if and only if there is one. |
| `RebuildSeek.SplitWork` | src/layout/raid_common.c:742-770 | The extents to rebuild of a split: the entries of the list in its range or, without a list, the missing ones. |
| `RebuildSeek.Seek` | src/layout/raid_common.c:1418-1469 | The seek loop ends at the first split from the current one on that has something to rebuild, with its count and the offset of its first extent, or past the last split. |
| `RebuildSeek.VisitsAreWork` | src/layout/raid_common.c:1433-1441 | The visited splits are in ascending order exactly the splits with something to rebuild. |
| `RebuildSeek.ToRebuildIsVisits` | src/layout/raid_common.c:92-106 | The count of extents at the start of the rebuild is the sum of the work of the visited splits. |
| `RebuildRun.WriterRun` | src/layout/raid_common.c:2548-2561 | The writing context visits exactly these splits, and the count of remaining extents, never negative, is 0 exactly after the last one. |
| `RebuildRun.ReaderRun` | src/layout/raid_common.c:1514-1553 | The reading context visits the same splits and reads each one from the offset the writer gave it to its end. |
| `RebuildList.ValidateExtentList` | src/layout/raid_common.c:182-244 | A list is accepted if and only if its entries are inside the object and each split has at most `p` entries and keeps at least `d` extents that are not listed. |
| `RebuildList.KeptIsDifference` | src/layout/raid_common.c:217-238 | The unsigned difference between present and listed extents never wraps: it counts the extents that are present and not listed. |
| `RebuildList.AcceptedIsReadable` | src/layout/raid_common.c:772-839 | No accepted list starves its reader: every split has at least `d` extents to read. |
| `RebuildList.SlotsAreWork` | src/layout/raid_common.c:911-938 | As many extents are prepared for a split as were counted if and only if the list names no extent of the split twice. |
| `RebuildList.RepeatedEntry` | src/layout/raid_common.c:911-938 | A repeated entry makes two extents be counted and one be prepared; validation accepts it for three copies, and rejects it for two data extents and one of parity. |
| `RebuildSplit.SlotsAre` | src/layout/raid_common.c:921-936 | The prepared indexes are those of the split that are listed or, without a list, missing. |
| `RebuildSplit.SlotsToRebuild` | src/layout/raid_common.c:911-938 | The loop prepares these indexes in ascending order. |
| `RebuildSplit.ExtentsOfSplit` | src/layout/raid_common.c:911-969 | Each extent of a rebuilt split gets the index it stands for, the offset of the split and the size that the writer gave to the extent of that index. |
| `RebuildSplit.EveryExtentRebuilt` | src/layout/raid_common.c:1433-1465 | Every listed or missing extent, up to the split of the last extent left, is prepared in a split that the rebuild visits. |
| `ReleaseAccounting.AddKeeps` | src/layout/raid_common.c:1002-1027 | A written extent keeps the balance: as many extents as releases acknowledged plus the sum of the reference counts, medium by medium. |
| `ReleaseAccounting.AcknowledgeKeeps` | src/layout/raid_common.c:1123-1159 | An acknowledgement keeps that balance, and no reference count of 0 stays in the table. |
| `ReleaseAccounting.CompleteIsAcknowledged` | src/layout/raid_common.c:1951-1955 | A target whose releases are as many as its extents has nothing left to release, and its acknowledgements are its extents medium by medium. |
| `ReleaseRuns.WriteCovers` | src/layout/raid_common.c:1002-1027 | A write keeps every extent covered by the acknowledgements still awaited if and only if no more releases of its medium had been sent than were acknowledged or awaited. |
| `ReleaseRuns.CompleteIsFlushed` | src/layout/raid_common.h:81-103 | A complete target whose extents are covered has them all flushed, however many share a medium. |
| `ReleaseRuns.SafeIffCovered` | src/layout/raid_common.c:1893-1972 | From any state, every continuation without writes fills the layout only with flushed extents if and only if all extents are covered. |
| `ReleaseRuns.AlwaysSafeIff` | src/layout/raid_common.c:1893-1972 | For any interleaving of writes, requests and responses: the layout is sure never to be filled before its extents are flushed, wherever the writing stops, if and only if each write came when no more releases of its medium had been sent than were acknowledged or awaited. |
| `ReleaseRuns.FilledWithAll` | src/layout/raid_common.c:1951-1955 | In every possible run a filled target has seen the end of its data, and its layout is exactly the extents written in the run, in order. |
| `ReleaseRuns.SettlesIff` | src/layout/raid_common.c:1123-1159 | A response settles a target if and only if all is written, something is, and the acknowledgements, counted up to the extents of each medium, are then the extents medium by medium. |
| `ReleaseEncoder.Encoder.AddWrittenExtent` | src/layout/raid_common.c:985-1027 | The extent is recorded for its target, also after others on the same medium, and its medium is to be released once more; the invariant of all targets is kept. |
| `ReleaseEncoder.Encoder.MarkReleased` | src/layout/raid_common.c:1123-1159 | Every target that has the medium to release counts it once; the answer tells if there is one. |
| `ReleaseEncoder.Encoder.HandleRelease` | src/layout/raid_common.c:1893-1972 | For any interleaving of writes and responses, a full response fills exactly the targets that have ended, have an extent and have every extent acknowledged, medium by medium; their extents are all flushed if each write of the target met the condition above; the result is done, or -EINVAL if a medium was unknown. |
| `ReleaseEncoder.Encoder.HandlePartialRelease` | src/layout/raid_common.c:1868-1891 | A partial response fills exactly the unsettled targets before the current one. |
| `ReleaseEncoder.EarlyFill` | src/layout/raid_common.c:1123-1159 | Two targets on one medium, the second written while the release of the first is not acknowledged: that acknowledgement fills both, and the extent of the second is not flushed. |
| `ReleaseEncoder.TwoSplits` | src/layout/raid_common.h:86-93 | Two splits on one medium, each released after it was written: the layout is filled after two acknowledgements, with both extents flushed. |
| `Eraser.SkipEmptySplits` | src/layout/raid_common.c:2219-2222 | While extents remain, the loop ends at a split that has extents, without passing any extent. |
| `Eraser.DeleteSplit` | src/layout/raid_common.c:2280-2332 | Deletes the extents of the split on the media of the allocation, in order, up to the first failure, whose result it returns: of the adapter, for a medium outside of the split, or of the deletion; a wrong number of media deletes nothing. |
| `Eraser.CountReleased` | src/layout/raid_common.c:2189-2213 | Counts the released media of the split, with the error cases of the release response. |
| `Eraser.EraserProcessor.FirstStep` | src/layout/raid_common.c:2245-2255 | The first step reaches a split with extents. |
| `Eraser.EraserProcessor.HandleAllocation` | src/layout/raid_common.c:2280-2332 | An allocation on the media of the current split deletes its extents, and no others, unless a deletion fails; no extent is deleted twice. |
| `Eraser.EraserProcessor.HandleRelease` | src/layout/raid_common.c:2182-2234 | The countdown always equals the number of extents from the current split on; the eraser is done exactly when none remain. |
| `Eraser.Erase` | src/layout/raid_common.c:2182-2332 | For any failures of deletions, no extent is deleted twice, and a run that reports success, as one without failure does, has deleted each extent exactly once. |
| `SchedulerScore.FutureScore` | src/admin/rebuild.c:342-366 | For any order of the table, the number of pairs of another pending group and a medium of the candidate that it needs. |
| `SchedulerScore.BuildMediaUsage` | src/admin/rebuild.c:373-394 | For any order of the table, the number of pending groups that need each medium. |
| `SchedulerScore.OverlapDegree` | src/admin/rebuild.c:406-419 | By the usage table, the users of each medium of the group less one, which for a pending group is the same number of pairs as the naive comparison with all pending groups. |
| `SchedulerScore.DegreeIsLinks` | src/admin/rebuild.c:397-419 | The sum over the usage table and the count of pairs agree, from any beginning of the media of the group. |
| `SchedulerScore.HasNonIsolatedGroup` | src/admin/rebuild.c:452-470 | True if and only if two pending groups need a common medium. |
| `SchedulerScore.CandidateCost` | src/admin/rebuild.c:309-339 | The size of the symmetric difference of the current and candidate media; the size of the candidate without a current group. |
| `SchedulerSelect.FindBestGroup` | src/admin/rebuild.c:484-558 | For any order of the table, none only when nothing is pending. To start: among the linked groups, or all groups if none is linked, one with the fewest links and, among those, the most extents. To continue: one of the fewest mounts and unmounts, then of the most links, then of the most extents. |
| `SchedulerSelect.BestToStart` | src/admin/rebuild.c:484-498 | A group is best to start with, by the comparison of candidates, if and only if it has the fewest links of those that may start, and the most extents among these. |
| `SchedulerSelect.BestToContinue` | src/admin/rebuild.c:500-522 | A group is best to continue with if and only if it takes the fewest mounts and unmounts, then has the most links, then the most extents. |
| `SchedulerSelect.DegreeNeverDecides` | src/admin/rebuild.c:500-522 | Among groups to continue with, the degree taken from the usage table never decides, since it equals the future score taken from the groups. |
| `SchedulerSelect.Scheduler.ChooseNextGroup` | src/admin/rebuild.c:572-587 | The group that follows is the best one to continue with if it reuses a mounted medium, and otherwise the best one to start with; it leaves the pending groups. |
| `SchedulerSelect.ContinuesIs` | src/admin/rebuild.c:572-587 | The group that follows is a cheapest one if that one has a mounted medium, and otherwise one that is least linked. |
| `SchedulerSelect.Scheduler.Next` | src/admin/rebuild.c:589-598 | Hands out one pending group, by the start rule without a current group and by the continuation rule otherwise, until none is pending. |
| `SchedulerReuse.NextReusesMost` | src/admin/rebuild.c:572-587 | With groups of one size, the group that follows reuses as many mounted media as any pending group would. |
| `SchedulerReuse.ReuseIff` | src/admin/rebuild.c:572-587 | A group that reuses a mounted medium follows whenever there is one, for every state with group sizes between two bounds, if and only if the bounds differ by at most one. |
| `SchedulerReuse.NoReuse` | src/admin/rebuild.c:572-587 | For any two sizes that differ by two or more, a state where a group that reuses a mounted medium is passed over. |
| `SchedulerReuse.RunCostIsLeast` | src/admin/rebuild.c:325-339 | No sequence of mounts and unmounts that brings the drives to each group of a run in turn is shorter than the sum of the costs. |
| `SchedulerReuse.RunCostSuffices` | src/admin/rebuild.c:325-339 | Some sequence of mounts and unmounts is as short as that sum. |
| `GroupKeys.OneOrder` | src/admin/rebuild.c:180-202 | Two ordered keys with the same media, counting repetitions, are equal: any sort gives the same key. |
| `GroupKeys.SameKeyIff` | src/admin/rebuild.h:55-79 | Two lists of media make equal keys if and only if they are equal as multisets. |
| `GroupKeys.LeqIs` | src/admin/rebuild.c:180-186 | Names are in dictionary order: one begins the other, or has the smaller character at the first difference. |
| `SchedulerCollect.ExtentsToRebuildFrom` | src/layout/raid_common.c:108-135 | The extents of the split of the extent that are on other media. |
| `SchedulerCollect.ComputeFrequency` | src/admin/rebuild.c:101-114 | Each medium counts once more for each source on it. |
| `SchedulerCollect.Collect` | src/admin/rebuild.c:116-154 | Fails if and only if the replica information of a layout with an extent on the medium is missing; otherwise lists once each extent on the medium that has enough sources, tells if any other was skipped, and counts the media of the listed sources. |
| `SchedulerRequest.EnoughIffAccepted` | src/admin/rebuild.c:137-145 | An extent has enough sources to be collected if and only if the rebuilder would accept a list of that extent alone. |
| `SchedulerGroups.ChooseMostFrequent` | src/admin/rebuild.c:156-177 | The first source on a medium of the highest frequency; none only if no source was counted. |
| `SchedulerGroups.FrequencyIs` | src/admin/rebuild.c:101-114 | The frequency of a medium is the number of extents to rebuild that have a source on it. |
| `SchedulerGroups.GroupExtents` | src/admin/rebuild.c:220-259 | Each listed extent is once in the group of its media and nowhere else; its item and key are those that `SchedulerRequest.KeyIsRead` describes. |
| `SchedulerRequest.KeyIsRead` | src/admin/rebuild.c:229-257 | The key of an item is exactly the set of media of the extents that the rebuilder reads for it; a medium to read is set if and only if more extents are left than needed, is then the whole key, and no medium of a source is more frequent. |
| `SchedulerGroups.SameGroupIff` | src/admin/rebuild.c:188-218 | Two extents share a group if and only if the media they are read from are equal as multisets. |
| `SchedulerRun.SortByCreationTime` | src/admin/rebuild.c:261-297 | Every group keeps its extents and has them in the order of creation. |
| `SchedulerRun.OldestFirstIs` | src/admin/rebuild.c:261-281 | That order is the one of the times in microseconds, which never decrease from one item to the next. |
| `SchedulerRun.RunGroups` | src/admin/admin.c:3006-3021 | The groups are handed out whole, each the one to take next, until none is pending or a rebuild fails, whose result is returned. |
| `SchedulerRun.RebuildMedium` | src/admin/admin.c:2991-3027 | Conservation: without a failure every extent on the medium that has enough sources is rebuilt exactly once, no other is, and the result is -ENODATA if and only if some were skipped. Up to a failure the items are handed out in whole groups, which hold each extent once under the key of the media it is read from, the oldest first, each group being the one to take next. |
| `SchedulerRun.EmittedAssigned` | src/admin/rebuild.c:220-259 | Every item of a run is the one of its extent, with the medium chosen for it, under the key of the media it is read from. |
| `SchedulerRun.TogetherIff` | src/admin/rebuild.c:188-218 | Two extents of a run are handed out in one group if and only if they are read from the same media, counting repetitions. |
| `SchedulerRun.RunFrequency` | src/admin/rebuild.c:101-114 | In every run the frequency that the choice of a medium goes by counts the extents to rebuild that could be read from it. |
| `SchedulerRequest.RunKeyIsRead` | src/admin/rebuild.c:229-257 | In every run, the key of a group is the set of media that each of its extents is read from. |
| `SchedulerRequest.ValidateMediaRead` | src/layout-modules/raid1/raid1.c:509-557 | A medium to read from is accepted for a list of one extent, if it is another medium of the split of that extent; the check dereferences a missing extent exactly if it is given a medium and one index that the layout does not have. |
| `SchedulerRequest.MissingExtent` | src/layout-modules/raid1/raid1.c:570-574 | One of two copies left, the other one listed and the medium of the first to be read: the list passes validation, and the check of the medium dereferences a missing extent. |
| `SchedulerRequest.ListAccepted` | src/layout/raid_common.c:182-244 | The one-extent list of the scheduler passes validation, and there is then a parity extent. |
| `SchedulerRequest.OneParityNoChoice` | src/admin/rebuild.c:229-253 | With one parity extent no medium to read from is ever chosen. |
| `SchedulerRequest.ItemServed` | src/admin/rebuild.c:39-73 | Every request of the scheduler is accepted, and the allocation then has enough extents to read if and only if no medium was chosen or one data extent is enough. |
| `SchedulerRequest.RunServed` | src/admin/rebuild.c:39-73 | Every item that a run hands out is a request that the rebuilder accepts and can read for, on the same condition. |
| `RepackDb.ForgetKeeps` | src/core/dss/wrapper.c:732-754 | Garbage collection leaves the layouts of objects that are not deprecated alone, and what remains is read as before. |
| `RepackDb.ForgetExactly` | src/core/dss/wrapper.c:732-754 | The objects and layouts removed are exactly those of the deprecated objects with an extent on the medium, and the rest of the database is unchanged. |
| `RepackDb.MarkOrphansKeeps` | src/core/dss/wrapper.c:674-711 | Marking unused extents orphan changes nothing that is read. |
| `RepackDb.MarkOrphansExactly` | src/core/dss/wrapper.c:674-711 | The rows that change are exactly those of the medium that no layout refers to, and only their state does. |
| `RepackDb.MigrateKeeps` | src/include/pho_dss_wrapper.h:224-237 | Replacing an extent by another with the same data changes nothing that is read. |
| `RepackDb.MigrateExactly` | src/include/pho_dss_wrapper.h:224-237 | Exactly the references to the source become references to the copy, the source becomes orphan and the copy synchronised, and no other row or reference changes. |
| `Repack.GetExtents` | src/admin/utils.c:28-63 | The extents of the medium that are not orphan, once each. |
| `Repack.Admin.CopyOne` | src/admin/admin.c:1607-1629 | A copied extent has the size, hash, address and data of the source; a failure leaves every copy made before, whatever it wrote. |
| `Repack.Admin.CopyAll` | src/admin/admin.c:1606-1629 | All live extents are copied unless a copy or an insertion fails, and every state on the way gives the same data. |
| `Repack.Admin.SwitchAll` | src/admin/admin.c:1647-1653 | After each switch every layout gives the same data; in the end no layout refers to the source if and only if none referred to an orphan extent of it; after a failure layouts refer to the target exactly if the first switch was done. |
| `Repack.Admin.FormatAndClean` | src/admin/admin.c:1658-1664 | Formatting keeps all data if no layout refers to the source, and loses some otherwise, even if the format reports a failure after erasing. |
| `Repack.Admin.Repack` | src/admin/admin.c:1532-1683 | For any failure of any call: the result; all states on the way keep the data of every layout if and only if the source was not erased or all that layouts refer to on it was live and some live extent had data; a completed repack leaves no reference to the source and an extent of equal size and hash on the target for each moved slot; at any end only layouts of deprecated objects with an extent on the tape are gone, and the extents of other media and the references to them are as before; after an interruption a layout refers to an orphan copy on the target, which a repack of the target would lose, if and only if the copies, the first switch and the update of their state succeeded. |
| `Repack.InterruptedAnswer` | src/admin/admin.c:1666-1676 | An interrupted repack returns 0 when the update of the copies' state succeeds. |
| `RepackExamples.OrphanReference` | src/admin/admin.c:1658-1664 | A layout with one live and one orphan extent: no call fails, the repack reports a success, and data cannot be read any more. |
| `RepackExamples.NoBytes` | src/admin/admin.c:1573-1575 | Two live extents without a byte: the repack copies nothing, formats the tape and reports a success, and they cannot be read any more. |
| `RepackExamples.SecondSwitchFails` | src/admin/admin.c:1647-1676 | The second of two switches fails: the repack reports a success, and a layout refers to an orphan copy on the target, which a repack of the target would lose. |
| `HsmRelease.ReleaseExtent` | src/hsm/hsm_release_dir.c:730-805 | The copies of one extent that can be released are tried in turn; the budget decreases by the size for each success. |
| `HsmRelease.PositionsExactly` | src/hsm/hsm_release_dir.c:704-805 | An extent makes as many candidates as it has copies that can be released if it is synchronised and was not created after the limit, and none otherwise. |
| `HsmRelease.PositionsInOrder` | src/hsm/hsm_release_dir.c:673-690 | The candidates are in the order of the extents. |
| `HsmRelease.ReleaseOldest` | src/hsm/hsm_release_dir.c:673-690 | Extents are taken from the oldest on, each while the budget is not freed yet. |
| `HsmRelease.ScannedIsShortest` | src/hsm/hsm_release_dir.c:674-690 | With at most one layout per extent the tried releases are the shortest beginning of the candidates that frees the budget. |
| `HsmRelease.ScanSource` | src/hsm/hsm_release_dir.c:704-805 | All extents of the source copy are counted; the limit was crossed during the scan if and only if the total crosses it; the candidates are those of the general mode. |
| `HsmRelease.SourceUseIs` | src/hsm/hsm_release_dir.c:704-805 | The space counted is the size of the extents that belong to the source copy. |
| `HsmRelease.ReleaseCandidates` | src/hsm/hsm_release_dir.c:825-834 | The tried releases are the shortest beginning of the candidates that frees the budget, or all of them. |
| `HsmRelease.Overshoot` | src/hsm/hsm_release_dir.c:825-834 | The bytes accounted beyond the budget are less than the size of the last release. |
| `HsmRelease.FreesAtLeast` | src/hsm/hsm_release_dir.c:791-805 | A successful release takes all extents of its copy off the directory, once, be they candidates or not: the directory loses at least the accounted bytes, and no more exactly if the released copies have no other bytes on it. |
| `HsmRelease.OvershootOnDir` | src/hsm/hsm_release_dir.c:825-834 | What the directory loses beyond the budget is less than the size of the last release if the released copies have no other bytes on it. |
| `HsmRelease.WholeCopyGoes` | src/hsm/hsm_release_dir.c:791-805 | A copy with extents of one and of a hundred bytes and a budget of one byte: the first release takes both off. |
| `HsmRelease.BudgetsAreSizes` | src/hsm/hsm_release_dir.c:586-621 | The budgets are not negative. |
| `HsmRelease.ModeIs` | src/hsm/hsm_release_dir.c:573-603 | Which threshold applies, as fill rates of used bytes over all bytes; none for a directory without space. |
| `HsmRelease.GeneralShortestIs` | src/hsm/hsm_release_dir.c:586-589 | The releases that just free the general budget are those up to the first one after which the fill rate, less a byte, is below the lower threshold. |
| `HsmRelease.SpecificShortestIs` | src/hsm/hsm_release_dir.c:615-621 | The same for the specific budget and the rate of the source copy. |
| `HsmRelease.ReleaseDir` | src/hsm/hsm_release_dir.c:573-845 | Nothing is released when no threshold applies. In the end all candidates were tried, or the fill rate of what is left, less a byte, is below the lower threshold (general), or the rate of the source copy is at most the lower threshold (specific), and it was not so before the last release; at the end this holds both by the accounts and, with one layout for each extent, by what the directory really lost. |
| `HsmSync.SyncQueue.Add` | src/hsm/hsm_sync_dir.c:182-208 | After any additions the queues and the tables hold the same elements: the naive stable grouping of all additions, duplicates of identity removed in each grouping. |
| `HsmSync.SyncAll` | src/hsm/hsm_sync_dir.c:785-794 | Objects are synchronised grouping after grouping in the order of first appearance, and the result is the first failure. |
| `HsmSync.EveryObjectSynced` | src/hsm/hsm_sync_dir.c:182-208 | Every added version of an object, by identifier, uuid and version, is synchronised in its grouping. |
| `HsmSync.NothingTwice` | src/hsm/hsm_sync_dir.c:115-125 | No version of an object is synchronised twice for a grouping. |

## Left out

- Hashes of extents, and the additional parity byte that the RAID4 reader reads to complete a hash: hashes are opaque values.
- The bytes of RAID1 extents: each one is a copy of the split, so only their sizes and choice are modelled.
- The chunk size computation at `src/layout/raid_common.c:1256`, whose least common multiple is dropped: the chunk is any positive number.
- 64-bit overflow and rounding of floating-point fill rates: mathematical integers and reals are used.
- The database, its filters and sort orders, protobuf messages and sockets: their answers are parameters.
- I/O adapters, extended attributes, allocation inside the daemon and device handling: only their results appear.
- Error paths and partial-release decisions of the writer step beyond release accounting, and the padding of an allocation request with tags and grouping.
- Freeing of memory and ownership of hash table keys.
- The loop of the media rebuild command over several media: one medium is modelled, the flag for skipped extents being the only link between them.
- `hash_object_info` and `group_key_hash`: tables are maps keyed by what the equality functions compare.
- The import, mapper, base64, threshold parsing and logging code: single-function claims.
- ReleaseEncoder.Encoder.HandlePartialRelease: states which targets are filled, not that their media are flushed, because nothing in the response is checked by the code.
- Raid4Rebuild.RestoresIffAligned: covers rebuilds in aligned batches, which a buffer of whole stripes always makes; in others the single descriptor may pass the size of the other extent, as the loop's contract tells.
- Eraser.Erase: covers one target and allocations on the media that were asked for; targets follow one another in the source, and the answers to other allocations and releases are in the contracts of the processor.
- SchedulerReuse.RunCostIsLeast: the drives hold exactly the media of the current group, and the last group is not unmounted.
- HsmRelease.ScannedIsShortest: with several layouts of the source copy on one extent the budget is checked between extents only, as `HsmRelease.ReleaseOldest` states.
- HsmRelease.Overshoot: counts accounted bytes, as the code does; `HsmRelease.OvershootOnDir` and `HsmRelease.WholeCopyGoes` tell when the directory itself loses more.
- HsmRelease.ReleaseDir: where an extent belongs to several layouts, states the accounted bytes only, since the code takes the size off once for each of them.
- Raid4Object.ObjectSurvivesIff: where a stripe is cut, describes what is stored if the bytes past the end of the buffer are otherwise left alone; nothing is promised of the memory that is overwritten.
- Raid4Transfer.PutThenGet: the model stops at a write past the end of the buffer, where the source goes on.
- Raid4RebuildObject.ObjectRestoresIff: where a stripe was cut, describes what is stored if the bytes past the end of the buffer are otherwise left alone.
- Raid4RebuildObject.PutThenRebuild: one chunk size for the whole object, as the rebuilder takes it from the first extent of the layout.

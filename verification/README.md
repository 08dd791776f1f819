# ODFileSystem: what its hard parts promise, proved

ODFileSystem reads optical discs: ISO 9660, UDF, HFS, HFS+ and audio. This
project models the parts of it that have to agree with something simpler, and
proves that they do:

- **Block cache** (`BlockDevice`, `CacheModel`, `BlockCache`, `ByteReader`).
  One array of entries threaded three ways, clustered read-ahead, and a byte
  reader on top, against the medium as a map from addresses to sectors.
- **Names and calendar** (`Names`, `NameFix`, `Calendar`). Unique names within a
  directory, ignoring case; civil dates by loops and by closed form.
- **Directories parsed once** (`MetaDir`, `MetaCache`, `MetaListing`,
  `MetaLookup`). A byte-budgeted second-chance list, lookups by first byte and by
  hash, listings whose cookies outlive the cached directory, whole-path walks.
- **Walkers of on-disc structures** (`UdfObject`, `UdfEncoding`, `HfsCatalog`,
  `IsoDirectory`, `Ancestry`). Allocation descriptors and how they are written,
  catalogue B-trees, files in several parts, and the search for a parent.
- **CD-Text** (`CdText`). A writer and a reader that undo each other.
- **Handler** (`Handler`, `ReadPaths`, `Shutdown`). Reference counts across
  changes of medium, four ways to read that agree, and a shutdown that races with
  callbacks in other tasks.

`Basics` and `Callback` hold what several modules share. Code that changes things
in place is a class or a method with loops, proved against functions on values;
what the source promises is then proved of those functions.

## What is assumed

- The medium does not change under a read, and every answer of the device is fixed
  in advance but otherwise arbitrary (`BlockDevice.Drive.reply`). Agreement of the
  cache with the medium after a failed read needs `Careful`: a failed read leaves
  its buffer alone. `CacheModel.CoherentUnlessSpoiled` says exactly when the code
  does without it.
- `ReadBytes` leaves the length untouched for a start past the medium
  (core/cache_block.c:524-525), so what it says of a prefix starts after that check.
- Callbacks and backends never answer with the code that means "not supported",
  since `odfs_readdir` retries on it (core/mount.c:519-528); backend cookies are
  below 2^31 and directories have fewer than 2^31 entries.
- Directories of one extent list the same under every backend type but audio, since a
  mount has one backend besides audio (core/mount.c:436-441); only
  `MetaCache.Cache.SkipsOnlyFailures` uses it.
- ISO directories are at most 2^32 - 2048 bytes long, so that rounding up to the
  next sector (backends/iso9660/iso9660.c:478) cannot wrap.
- Termination of the walk through an HFS catalogue is claimed for well-formed trees,
  and for others if the links of their leaves do not lead in a circle.

## Where the code does less than it says

- A search for a parent that finds nothing reports success with its results unset
  (core/ancestry.c:90-119); `Ancestry.Mount.ResolveParent` states it.
- A failed one-sector request can leave a cached line with other bytes than its
  sector (`SpoiledLine`); `CoherentUnlessSpoiled` has the exact condition.
- Ages order the cache only within one turn of the 32-bit clock (`AgesTurnOver`,
  exactly: `HitKeepsAges`, `MissKeepsAges`), and the 32-bit generation can come round
  (`GenerationWraps`, `GenerationPins`).
- A merged file can leave the medium, since part addresses are compared modulo 2^32
  (`WrappedMerge`, exactly: `MergedFile`).
- After a backend failure during re-enumeration a tagged cookie can move backwards
  (`CookieMovesBack`, exactly: `FailureKeepsPlace`), and entries are then told twice
  (`ToldTwice`).
- A read of a file that runs past the last sector address, as a merge can make it,
  reports bytes that nobody wrote: the byte reader leaves the length as it was
  (core/cache_block.c:524-525), and it is taken for what was read
  (platform/amiga/handler_main.c:3547-3553). `ReadPastTheMedium` is an input,
  `CountIsTrue` and `TrueEverywhere` have the exact condition.

## Model

| member | source | states |
|---|---|---|
| CacheModel.ReadReturnsMedium | core/cache_block.c:401-478 | Every read of a well-formed cache keeps it well formed; from a coherent cache it answers with a line that holds the medium's sector, by a hit, a clustered miss or a single miss, or fails with the device. |
| CacheModel.CoherentUnlessSpoiled | core/cache_block.c:463-471 | After a read every cached line still equals the medium exactly when it was not about to spoil one: a miss with no entry free whose one-sector request, after a cluster that failed or alone, is going to fail and leave other bytes than the victim's sector. |
| CacheModel.SpoiledLine | core/cache_block.c:463-471 | A cache of one entry after such a read: the line still names its sector and holds other bytes. |
| CacheModel.RunStaysCoherent | core/cache_block.c:293-478 | Over every run of reads, cached reads, retentions and flushes the cache stays well formed, and every line equals its sector if it did before, when failed reads leave their buffers alone. |
| CacheModel.ReadDropsOldest | core/cache_block.c:306-350 | Whatever a read drops was last used no later than anything it keeps, although eviction never reads an age, also when a failed request overwrites the victim; and if failed requests leave their buffers alone a read drops nothing without counting it. |
| CacheModel.GenerationPins | core/cache_block.c:321-350 | If the 32-bit generation reads the same after any run that dropped fewer than 2^32 sectors, every line held before is still held, in the same entry with the same bytes, be they the medium's or not. |
| CacheModel.GenerationWraps | core/cache_block.c:321-350 | Without that bound it fails: after 2^32 alternating misses the generation reads the same and the sector held is gone. |
| CacheModel.AgesOrderedWithinATurn | core/cache_block.c:142-166 | Ages fall from the head of the list to its tail while all uses fall into one turn of the 32-bit clock, and for uses less than 2^32 apart only then. |
| CacheModel.UseKeepsAges | core/cache_block.c:142-166 | Ordered ages stay ordered over a use exactly when no line kept has a greater age than the clock now shows: always until the clock comes round to 0, and then exactly when no line kept has a positive age. |
| CacheModel.HitKeepsAges | core/cache_block.c:401-478 | A hit keeps ages ordered exactly when no other line has a greater age than the clock is about to show: within a turn, unless the clock comes round now and another line has a positive age. |
| CacheModel.MissKeepsAges | core/cache_block.c:401-478 | A miss keeps ages ordered exactly when no line that it keeps, as many as the free entries and the sectors about to be brought in leave, has a greater age than the clock is about to show. |
| CacheModel.ReadUsesNow | core/cache_block.c:401-478 | Every successful read is such a use: what it puts in front carries the time of the read, all else are lines from before. |
| CacheModel.AgesTurnOver | core/cache_block.c:401-478 | A hit with the clock about to come round leaves age 0 in front of the greatest age there is. |
| CacheModel.Find | core/cache_block.c:60-76 | The position of the only line for a sector, or -1 when there is none. |
| CacheModel.RunLength | core/cache_block.c:433-436 | What one clustered miss asks for starts with the sector read and holds no other that is cached, at most eight and none past the last address. |
| CacheModel.ReadAheadServes | core/cache_block.c:427-463 | A miss one sector past the miss before asks at once for a longest run of sectors not cached; when the device gives it, one request has been made and every sector of the run is then read without any; when it does not, the sector alone is asked for. |
| CacheModel.OtherMissIsAlone | core/cache_block.c:463-476 | Any other miss asks once, for its sector alone, and succeeds exactly when the device gives it. |
| CacheModel.ReadCachedIsRead | core/cache_block.c:383-399 | A read that must not ask the device is the ordinary read for a cached sector, without any request, and changes nothing for another. |
| CacheModel.RetainedIsCached | core/cache_block.c:371-379 | A sector retained is cached, with the bytes given unless it was there before; the other lines are the ones from before, all of them or all but the last. |
| BlockCache.Cache.Init | core/cache_block.c:185-275 | Which arguments are refused and with what; a new cache is valid and empty, with clustering only from 32 entries on and with a staging buffer. |
| BlockCache.Cache.Start | core/cache_block.c:28-53 | Resets all three threadings: every entry on the free list, no list of use, no chain. |
| BlockCache.Cache.ResetIndices | core/cache_block.c:28-53 | All hash chains are empty and all links cleared. |
| BlockCache.Cache.FindIndex | core/cache_block.c:60-76 | Walking one chain finds the valid entry for an address, whatever chain it is in, or shows that there is none. |
| BlockCache.Cache.InsertIndex | core/cache_block.c:78-88 | An entry outside the chains goes to the front of its own; all chains stay linked and complete. |
| BlockCache.Cache.RemoveIndex | core/cache_block.c:90-113 | An entry comes out of its chain, wherever it stands; all other chains are untouched. |
| BlockCache.Cache.LruRemove | core/cache_block.c:115-140 | Takes any element out of the doubly linked list; order and links of the others stay right. |
| BlockCache.Cache.LruInsertHead | core/cache_block.c:142-157 | Puts an entry in front of the list. |
| BlockCache.Cache.MakeMru | core/cache_block.c:159-166 | Moves an element to the front and keeps the order of the others. |
| BlockCache.Cache.PopFree | core/cache_block.c:168-183 | Takes the first entry off the free list, or reports that it is empty. |
| BlockCache.Cache.Reserve | core/cache_block.c:306-319 | The entry to be replaced: the first free one, else the last used longest ago. |
| BlockCache.Cache.Commit | core/cache_block.c:321-350 | Gives the entry its new address, moves it between chains and lists, counts the generation; all threadings hold again. |
| BlockCache.Cache.InstallSector | core/cache_block.c:353-363 | A sector enters the cache as the abstract installation says. |
| BlockCache.Cache.ReadAlone | core/cache_block.c:463-476 | A one-sector miss read straight into the buffer of the entry to be replaced, with what a failed read leaves there. |
| BlockCache.Cache.InstallCluster | core/cache_block.c:444-451 | Sectors read together are installed last first, so the one asked for survives. |
| BlockCache.Cache.ReadMissed | core/cache_block.c:424-476 | A miss, clustered or alone, does what the abstract miss does. |
| BlockCache.Cache.Read | core/cache_block.c:401-478 | The bytes returned are the medium's sector whenever the cache agreed with the medium; it goes on agreeing if failed reads leave buffers alone; it fails only with the device. |
| BlockCache.Cache.Contains | core/cache_block.c:365-368 | True exactly when the sector is cached. |
| BlockCache.Cache.ReadCached | core/cache_block.c:383-399 | Serves a cached sector and marks it used; a miss changes nothing. |
| BlockCache.Cache.Retain | core/cache_block.c:371-379 | Keeps a sector read by somebody else unless it is cached; coherence stays when its bytes are the medium's. |
| BlockCache.Cache.Flush | core/cache_block.c:293-303 | Drops every line and counts a new generation; the empty cache is valid. |
| ByteReader.ReadBytes | core/cache_block.c:497-615 | Any byte range at any offset: on success exactly the medium's bytes; after a failed request or at the end of the medium the length says how many correct bytes came first; a start past the medium leaves the length untouched. |
| ByteReader.ReadHead | core/cache_block.c:529-547 | The part of the first sector before the next boundary. |
| ByteReader.ReadRuns | core/cache_block.c:550-584 | Whole sectors streamed past the cache, clipped so that no address wraps. |
| ByteReader.ReadCachedSectors | core/cache_block.c:587-610 | The remaining sectors and the tail through the cache; it finishes the request or stops at the end of the medium. |
| ByteReader.CopySector | core/cache_block.c:480-495 | A stretch of one sector equals that stretch of the medium. |
| ByteReader.SectorAddressFits | core/cache_block.c:523-527 | The 64-bit sector address can wrap only for sectors of one byte. |
| ByteReader.AdvanceInSector | core/cache_block.c:529-547 | Part of a sector extends the bytes read to a longer slice of the medium; running out of addresses means the end of the medium. |
| ByteReader.AdvanceSectors | core/cache_block.c:576-584 | The same for whole runs of sectors. |
| BlockDevice.SpanSlice | core/cache_block.c:570-576 | The bytes of consecutive sectors are one slice of the medium. |
| Names.StrCaseCmp | include/odfs/string.h:57-68 | Zero exactly for names that are equal when ASCII letters are folded; otherwise the difference of the folded bytes at the first place where the names part. |
| Names.SameNameSameHash | include/odfs/string.h:29-41 | Names that compare equal hash equal. |
| Names.StrCaseHash | core/namefix.c:65-79 | Hash and length in one pass. |
| Names.StrCaseHashLen | include/odfs/string.h:44-55 | The same hash for bytes without a terminator. |
| NameFix.State.Contains | core/namefix.c:81-93 | A bucket's chain finds a name exactly when an equal one was issued, whatever its bucket. |
| NameFix.State.Apply | core/namefix.c:115-169 | The name issued, or the error, is what settling against all names issued before gives; exactly the issued name is remembered. |
| NameFix.State.Remember | core/namefix.c:95-113 | Adds one name to its bucket. |
| NameFix.BuildSuffix | core/namefix.c:138-152 | The hand-built suffix is a tilde and the decimal ordinal. |
| NameFix.FirstFreeIsLeast | core/namefix.c:134-168 | The ordinal taken is the least whose candidate is free; failure means every ordinal before it was taken. |
| NameFix.CandidatesDiffer | core/namefix.c:154-161 | Candidates for different ordinals never coincide, even truncated and ignoring case. |
| NameFix.SettledIsNew | core/namefix.c:115-169 | An unclaimed name is unchanged. A claimed one is given as much of itself as fits, all of it or so much that the buffer is full, a tilde and a numeral that reads, in base ten, as the least number from 2 on that makes it new; it cannot be had exactly when that number does not fit the buffer or is 1000000. |
| NameFix.CandidateIsNumbered | core/namefix.c:138-161 | For each number there is exactly one name that is the base name, as much of it as fits, a tilde and that number in base ten without leading zeros, and the candidate is it; there is none when tilde and digits do not fit. |
| NameFix.SettlingSucceeds | core/namefix.c:134-168 | With room for the longest suffix it cannot fail while fewer than 999998 names are held. |
| NameFix.IssuedNamesDiffer | core/namefix.c:115-169 | Over any sequence of requests, with memory running out anywhere, all names issued differ pairwise ignoring case. |
| Calendar.FromMacTime | core/timestamp.c:13-61 | The loops give a valid civil date and time, the one that many seconds after 1904. |
| Calendar.ClosedFormCountsDays | platform/amiga/handler_main.c:677-691 | Counting days one by one from 1978 and the closed form are inverse. |
| Calendar.ClosedFormAdvances | platform/amiga/handler_main.c:677-691 | The closed form grows by one from each valid Gregorian date to the next, in every year. |
| Calendar.ClosedFormOrders | platform/amiga/handler_main.c:677-691 | It orders dates as they follow one another. |
| Calendar.ClosedFormInverse | platform/amiga/handler_main.c:677-691 | Different valid dates have different numbers. |
| Calendar.ClosedFormFitsLong | platform/amiga/handler_main.c:677-691 | Years and days of an era keep to the ranges noted in the code, and no value computed on the way to the day number leaves 32 bits, for years within five million of zero. |
| Calendar.InstantDeterminesTimestamp | core/timestamp.c:13-61 | Two valid timestamps for the same second are the same. |
| Calendar.MacTimeSurvives | platform/amiga/handler_main.c:693-705 | From 1978 on, Mac time to civil date to DateStamp gives back the original second count. |
| UdfObject.ReadObject | backends/udf/udf.c:482-643 | Reading at any offset gives the bytes there of the object that its file entry describes, embedded or in extents, cut at the information length; each malformed entry gives its error. What entry, tag and descriptors mean is stated by `UdfEncoding`. |
| UdfObject.ReadDescribed | backends/udf/udf.c:562-638 | The loop over descriptors, continuations and extents reads the flattened list of extents, zeros for unrecorded ones, and comes to an end; AED errors return no bytes, data errors a correct prefix. |
| UdfObject.SoundObjectRead | backends/udf/udf.c:469-476 | If the descriptors are sound and cover the object, every stretch is read exactly unless the device fails. |
| UdfObject.ReadsCompose | backends/udf/udf.c:469-476 | Consecutive reads give the bytes of one read. |
| UdfObject.SelfContinuation | backends/udf/udf.c:578-598 | A continuation that leads back to itself is refused as corrupt after 4096 steps, never followed for ever. |
| UdfObject.FlattenStep | backends/udf/udf.c:570-602 | What each descriptor contributes: a continuation's run, an end, or one extent. |
| UdfObject.ReadContinuation | backends/udf/udf.c:586-598 | A continuation block gives its run of descriptors, or corrupt when tag or length is wrong. |
| UdfObject.ParseEntry | backends/udf/udf.c:509-537 | The descriptors of an accepted file entry are inside the block and fit the buffer. |
| UdfObject.EntryOutcomes | backends/udf/udf.c:509-537 | Which file entries are refused with which error, exactly, and where the descriptors of an accepted one stand. |
| UdfObject.ReadExtent | backends/udf/udf.c:615-630 | A stretch of one extent, recorded or zeros; RANGE only for bytes off the medium. |
| UdfEncoding.RoundTrip | backends/udf/udf.c:573-576 | Any list of descriptors, written with the extent type in the top two bits of the little-endian length, the block behind it and any rest of a long descriptor, is read back as it was: type 0 is recorded, 1 and 2 are not, 3 continues the list. |
| UdfEncoding.ParseWritten | backends/udf/udf.c:573-576 | The same for descriptors of either size anywhere in a run, whatever fills the rest of a long one and of the run. |
| UdfEncoding.TagIs | backends/udf/udf.c:26-43 | A tag whose fourth byte is the sum of the other fifteen is read as the identifier written in its first two. |
| UdfEncoding.EntryRead | backends/udf/udf.c:512-527 | A file entry, plain or extended, written field by field at its byte offsets is accepted with those fields and that run of descriptors. |
| UdfEncoding.ContinuationRead | backends/udf/udf.c:586-595 | A continuation block written with the length in byte 20 and the descriptors from byte 24 on gives these descriptors. |
| UdfEncoding.ChainFlattens | backends/udf/udf.c:570-602 | Extents written in any number of runs, each but the last ending with a link to the block that holds the next, are found in order and to the end. |
| UdfEncoding.ObjectOfExtents | backends/udf/udf.c:482-643 | For an object written that way reading gives, at any offset, the bytes of its recorded extents as they stand on the medium and zeros for the others, unless the device fails. |
| UdfEncoding.OneExtent | backends/udf/udf.c:573-630 | A file of one short descriptor of type 0 reads as the bytes of the medium from that block of the partition on. |
| UdfEncoding.EmbeddedObject | backends/udf/udf.c:547-551 | An object written inside its file entry reads as the bytes written there. |
| HfsCatalog.WalkCatalog | backends/hfs/hfs.c:318-449 | On a well-formed tree the callback gets exactly the records of the directory that hold enough data, once each and in order; it stops early only at the record the callback refused or at a failed read. |
| HfsCatalog.ToldExactly | backends/hfs/hfs.c:380-429 | The records wanted of a directory are those at some spots of the leaves, from left to right: a spot is among them exactly when a whole record with that parent and enough data stands there. Each is told as it stands. |
| HfsCatalog.Descend | backends/hfs/hfs.c:332-377 | The leaf reached has no record of the directory before it, although the descent compares parent numbers only. |
| HfsCatalog.ChooseChild | backends/hfsplus/hfsplus.c:409-435 | Of the index records the last below the directory is taken, or the first; damaged records end the search. |
| HfsCatalog.ScanLeaf | backends/hfs/hfs.c:385-429 | One leaf gives its records of the directory and says whether one past it was met. |
| HfsCatalog.Scan | backends/hfs/hfs.c:380-442 | Following the chain of leaves delivers the directory's records from all of them; looking ahead at the next leaf never ends too early. |
| HfsCatalog.GoDown | backends/hfs/hfs.c:368-377 | Going down to the chosen child skips no record of the directory. |
| HfsCatalog.NothingPast | backends/hfs/hfs.c:405-408 | In a sorted leaf nothing after a larger parent number belongs to the directory. |
| HfsCatalog.NothingBefore | backends/hfs/hfs.c:368-373 | All records before a child whose key is below the directory are below it. |
| HfsCatalog.NextLeaf | backends/hfsplus/hfsplus.c:496-508 | The parent number peeked at in the next leaf bounds all that follow. |
| IsoDirectory.MergeMultiExtent | backends/iso9660/iso9660.c:866-953 | Consumes exactly the matching continuation records and gives the node the length of the longest mergeable prefix. |
| IsoDirectory.MergeableIsLongest | backends/iso9660/iso9660.c:931-938 | What is merged is contiguous, and no longer run of parts is. |
| IsoDirectory.MergedIsContiguous | include/odfs/backend.h:22-26 | If the merged run is on the medium, its bytes are the concatenated bytes of the parts: the promise of a contiguous file. |
| IsoDirectory.WrappedMerge | backends/iso9660/iso9660.c:933-936 | One part merged past the last sector: the comparison wraps, and the run leaves the medium. |
| IsoDirectory.RunOnMedium | backends/iso9660/iso9660.c:931-938 | Parts that go on from one another form a run on the medium exactly when each of them is on the medium and no part with bytes was compared with an address past 32 bits. |
| IsoDirectory.MergedFile | backends/iso9660/iso9660.c:866-953 | A merged file is the first part and the longest mergeable run of further parts, byte for byte from its first sector on, exactly when these are on the medium and no comparison wraps. |
| IsoDirectory.MergedSizeFits | backends/iso9660/iso9660.c:880-881 | All parts a directory can hold add up within 64 bits. |
| IsoDirectory.ReadDir | backends/iso9660/iso9660.c:432-574 | From a cookie on, the entries that start there or later are told in order under their fixed names; a stop leaves the offset after the entry told, the end leaves the directory size, a failure leaves the cookie. |
| IsoDirectory.ListedExactly | backends/iso9660/iso9660.c:454-547 | Of the offsets that a scan comes to, exactly those of records neither malformed nor hidden are the starts of entries, be they files or directories. |
| IsoDirectory.ListingIsExact | backends/iso9660/iso9660.c:432-574 | From one entry to the next there is nothing to be listed; each entry has the fields of its record, but for its name, which is settled against those told before, and for size and length of a file in parts; a listing that ends early does so at a name that cannot be had. |
| IsoDirectory.ContinuationsAreExact | backends/iso9660/iso9660.c:866-953 | The parts of a file are the records that follow it with the same identifier, padding skipped, up to the first that is not marked to go on; the list breaks off exactly at the end of the directory or at another record. |
| IsoDirectory.ReadEntry | backends/iso9660/iso9660.c:473-521 | One step of the scan: padding, malformed record, hidden record, or a node with its parts merged; which records become entries is stated by `IsoDirectory.ListedExactly`. |
| IsoDirectory.ListingOrdered | backends/iso9660/iso9660.c:553-558 | Entries stand one after another, each cookie no later than the next entry's start. |
| IsoDirectory.ResumedListingIsWhole | backends/iso9660/iso9660.c:553-571 | However often a listing stops and resumes, every entry is told once, in order. |
| IsoDirectory.ListedNamesDiffer | backends/iso9660/iso9660.c:547-550 | The names of one directory differ pairwise, ignoring case. |
| MetaDir.PackNode | core/cache_meta.c:341-400 | Packing a node into compact entry and string pool keeps all nodes packed before readable, and the pool as long as the sum of the strings. |
| MetaDir.EntryToNode | core/cache_meta.c:225-263 | Unpacking gives back the very node that was packed. |
| MetaDir.NameEq | core/cache_meta.c:163-176 | Comparison of a pool string with a counted name, by case bit and letter range, is equality ignoring case. |
| MetaDir.SameByteIgnoresCase | core/cache_meta.c:169-172 | The bit test on two bytes agrees with folding both to lower case. |
| MetaDir.Dir.FindName | core/cache_meta.c:183-223 | By first byte or by lazily filled hashes, the entry found is the first of that name ignoring case. |
| MetaDir.Dir.FindByFirstByte | core/cache_meta.c:191-204 | The filter on first bytes skips no entry of that name. |
| MetaDir.Dir.FindByHash | core/cache_meta.c:216-222 | The filter on hashes skips no entry of that name. |
| MetaDir.Dir.HashNames | core/cache_meta.c:207-214 | All hashes are filled, once. |
| MetaCache.Cache.Trim | core/cache_meta.c:73-86 | Comes to an end within budget or empty; within budget nothing happens; a directory used since it was last moved outlives all that were not; without such uses the least recent go first. |
| MetaCache.EndTrimming | core/cache_meta.c:73-86 | The second-chance order over a whole trimming, on the lists before and after. |
| MetaCache.KeepTrimming | core/cache_meta.c:78-83 | What moving or evicting the last directory does to the list. |
| MetaCache.Cache.Unlink | core/cache_meta.c:35-47 | Takes any directory out of the doubly linked list. |
| MetaCache.Relinked | core/cache_meta.c:35-47 | Joining the neighbours of an element links the list without it. |
| MetaCache.Cache.PushHead | core/cache_meta.c:49-58 | Puts a directory in front. |
| MetaCache.Cache.FindExtent | core/cache_meta.c:125-149 | Finds the only directory of that key; it moves to the front unless it is among the first eight, which are only marked. |
| MetaCache.Cache.Build | core/cache_meta.c:406-474 | A built directory holds the backend's list; one is built exactly when the enumeration reaches the end, memory lasts and its compact form fits the budget or is empty; it is refused as too big exactly when the entries packed before a failure outgrow the budget. |
| MetaCache.SmallDirectoriesFit | core/cache_meta.c:406-474 | A directory is never refused for its size when the budget has room for the header and for its entries, each with the longest strings among them. |
| MetaCache.Cache.Get | core/cache_meta.c:481-527 | Answers with the backend's list exactly when the directory is cached, or when its extent is not remembered as too big and building succeeds; what is remembered stands for a directory of that extent that outgrows the budget; keys stay unique, the total equals the sum of sizes and keeps to the budget; a new directory is in front and never trimmed; an orphan is an empty directory under a budget smaller than its header. |
| MetaCache.Cache.SkipsOnlyFailures | include/odfs/cache_meta.h:87-88 | A remembered extent only skips a build that is bound to fail: the cache answers as if nothing were remembered. |
| MetaCache.Cache.Keep | core/cache_meta.c:523-525 | Counting a new directory never overflows 32 bits under the mount's limit. |
| MetaCache.Cache.Flush | core/cache_meta.c:94-99 | Empties the cache and forgets the extents that were too big. |
| MetaListing.ReadDir | core/mount.c:498-529 | One call of a listing, from the cache or by the backend, tells the entries from the cookie's place on and leaves a cookie of the same kind for the place it stopped at; how far it can get is known before the call: to the end if the cache serves the directory, else as far as the backend gets in that very request. |
| MetaListing.CachedReadDir | core/cache_meta.c:587-649 | Answers tagged and zero cookies; leaves other cookies, and directories it cannot cache, to the backend without telling anything. |
| MetaListing.Replay | core/cache_meta.c:533-559 | Replays a cached directory by entry index. |
| MetaListing.Reenumerate | core/cache_meta.c:627-646 | A tagged cookie whose directory can no longer be cached is answered by counting entries of a fresh enumeration. |
| MetaListing.ResumedListing | core/cache_meta.c:533-649 | Whatever evictions, rebuilds and failed builds happen between calls, a resumed listing tells every entry once, in order, keeps to one kind of cookie, and has told all that were left when it finishes. |
| MetaListing.FailureKeepsPlace | core/cache_meta.c:641-646 | A call fails only when the backend gets past fewer entries than there are; then its cookie stands for what was told exactly when the backend gets past the entries told before (tagged) or no further than these (untagged). |
| MetaListing.CookieMovesBack | core/cache_meta.c:641-646 | Two of three entries told, one reached: the tagged cookie moves back to the place after the first. |
| MetaListing.ToldTwice | core/cache_meta.c:641-646 | A listing that goes on from such a cookie tells the entries that it moved over twice. |
| MetaListing.ListToEnd | platform/amiga/handler_main.c:4303-4397 | Called again after every refusal, with the cache flushed and filled at will between the calls, a listing without failures delivers every entry once, in order, to the end. |
| MetaListing.ListedIsFaithful | core/cache_meta.c:533-649 | A call not cut short by a failure told exactly the entries between its two cookies. |
| MetaLookup.Lookup | core/mount.c:570-599 | The node found, by the cache or by the backend, is the first of that name ignoring case; it is found exactly when it is among the entries that this lookup gets past, NOT_FOUND means that there is none, and any other error is the backend's. |
| MetaLookup.CachedLookup | core/cache_meta.c:651-681 | The cached answer equals the backend's own scan, and there is one exactly when the cache serves the directory. |
| MetaLookup.BackendLookup | backends/iso9660/iso9660.c:613-653 | The backend's scan stops at the first entry of that name. |
| MetaLookup.LookupPath | core/cache_meta.c:683-748 | The walk with its ring of three gives the last node, its parent and its grandparent of the trail of the path, and the depth; each way it stops early has its error. |
| MetaLookup.WalkFollowsComponents | core/cache_meta.c:707-733 | A walk leads where looking up the components one by one leads. |
| MetaLookup.WalkEnds | core/cache_meta.c:683-748 | For every path and whatever is cached: each name before the end leads to the first entry of that name in the directory reached, which is cached, and the first name that does not pass decides the error: not cached, empty, too long or a link is left to the caller, one that is not there is NOT_FOUND, a file on the way is NOT_DIR. |
| MetaLookup.ComponentsJoin | core/cache_meta.c:707-729 | The components of a path hold no slash, and joined by slashes they are the path, apart from a slash at its end. |
| MetaLookup.RingTurns | core/cache_meta.c:718-733 | The three slots always hold the last three names walked. |
| MetaLookup.TakeStride | core/cache_meta.c:708-729 | What one component comes to. |
| Ancestry.Mount.ResolveParent | core/ancestry.c:50-120 | The search with an explicit growing stack returns parent and grandparent of the target's first place in preorder, and nothing for a target outside the tree, though it then reports success. |
| Ancestry.Mount.ScanUntil | core/ancestry.c:26-43 | One listing, resumed by its cookie, stops at the first entry that matches or is a directory. |
| Ancestry.Mount.Grow | core/ancestry.c:70-82 | Growing the stack keeps its frames. |
| Ancestry.SearchIsFirstMatch | core/ancestry.c:50-120 | Recursive depth-first search finds the first match in preorder. |
| Ancestry.SearchIsSoonest | core/ancestry.c:50-120 | It succeeds exactly when some way down through directories leads to the target, and gives the parent and grandparent on the first of all such ways, a directory coming before its contents and these before the next entry. |
| Ancestry.FirstMatchIsFirst | core/ancestry.c:26-43 | A first match exists exactly for targets in the tree, and nothing before it matches. |
| Ancestry.KeepSearching | core/ancestry.c:92-115 | Found, descended or exhausted, what is still to be searched has the same first match and does not grow. |
| CdText.Writer.Put | platform/host/file_media.c:681-698 | A string and its terminator join the stream of characters, across packs. |
| CdText.Writer.PutChar | platform/host/file_media.c:689-696 | One character; a full pack is written out. |
| CdText.Writer.Flush | platform/host/file_media.c:658-679 | What is left over is padded; what is written is the stream cut into twelves. |
| CdText.ReadCdText | platform/host/file_media.c:700-766 | CD-Text for a cue sheet exactly when it has any text. Cutting the data of the packs at each zero, those of kind 0x80 give the title of the disc and then that of every track, those of kind 0x81 the performers, and behind them less than a pack of zeros; each pack names track and place of its first character; titles come first, numbered through. The count computed beforehand is never exceeded. |
| CdText.SectionsHold | platform/host/file_media.c:742-757 | The packs of the two kinds hold the fields of the sheet, titles and performers of disc and tracks, for strings of any length and tracks of any number. |
| CdText.Measure | platform/host/file_media.c:717-725 | The computed length is that of the stream. |
| CdText.Complete | platform/host/file_media.c:658-679 | Writing out what is left over gives exactly the stream cut into twelves, as many pieces as computed. |
| CdText.RoundTrip | backends/cdda/cdda.c:528-577 | Reading what was written for consecutive tracks stores the title of every track in turn, for all alignments of strings to packs; performers and padding store nothing. |
| CdText.TitlesRecovered | backends/cdda/cdda.c:479-518 | Printable titles of at most 79 bytes come back unchanged in every audio track of the disc; others keep what they had. |
| CdText.TracksTitled | backends/cdda/cdda.c:479-518 | Whatever strings were read: the track of a number is titled by the string of that number, cut to its buffer and made printable character by character; a single TAB gives it the title of the track before if that is on the disc, an empty string leaves it alone. |
| CdText.PassedOver | backends/cdda/cdda.c:542-547 | A pack of another kind, of another block or of double-byte characters changes nothing of what is read. |
| CdText.JoinedLate | backends/cdda/cdda.c:550-571 | A reader that joins in the middle of a string drops the rest of it and goes on with the next track. |
| CdText.LongText | backends/cdda/cdda.c:561-571 | Of a string of any length the reader keeps the first 159 characters. |
| CdText.SheetRecovered | backends/cdda/cdda.c:528-577 | The packs written for a cue sheet, titles and performers, give every audio track of the disc its own title when they are read back, and the album the title of the disc. |
| CdText.LoadTitles | backends/cdda/cdda.c:665-675 | Writer and reader run one after the other on a cue sheet: every audio track ends with its title. |
| CdText.StateFollows | backends/cdda/cdda.c:550-558 | At every pack boundary the reader is in the track, and at the start of a string exactly there, where resynchronizing would put it. |
| CdText.ReadStream | backends/cdda/cdda.c:561-571 | The reader's scan of a whole stream gives back its strings. |
| CdText.Context.ExtractTrackTitles | backends/cdda/cdda.c:528-577 | The loops store exactly the strings read. |
| CdText.Context.StoreTrackTitle | backends/cdda/cdda.c:479-518 | Where a title goes: album, track, copy of the previous track for a TAB, or nowhere. |
| CdText.Context.Sanitize | backends/cdda/cdda.c:369-389 | The first bytes that fit, made printable. |
| Handler.Global.LockFromEntry | platform/amiga/handler_main.c:2205-2250 | A lock takes over the caller's reference, is counted by its volume and heads its chain; there is one exactly when the pool or the allocator has room, and otherwise locks and volumes stay as they were and the reference stays with the caller. |
| Handler.Global.TakeLock | platform/amiga/handler_main.c:2212-2216 | Memory for a lock comes from the pool while it holds any, else from the allocator, and is refused exactly when neither has it. |
| Handler.Global.FreeLock | platform/amiga/handler_main.c:2274-2288 | A lock leaves chain, volume and entry; the last reference frees the entry, the last object a stale volume. |
| Handler.Global.AllocHandle | platform/amiga/handler_main.c:2309-2338 | A handle retains its entry and is counted by its volume, exactly when the pool or the allocator has room. |
| Handler.Global.FreeHandle | platform/amiga/handler_main.c:2340-2349 | The inverse of opening. |
| Handler.Global.AllocEntry | platform/amiga/handler_main.c:1612-1660 | A new entry with one reference, from the pool or new memory, never memory in use, exactly when one of them has room. |
| Handler.Global.ReleaseEntry | platform/amiga/handler_main.c:1685-1691 | Gives up one reference; the entry is reused only after its last. |
| Handler.Global.LinkVolumeLock | platform/amiga/handler_main.c:1786-1802 | The lock heads the chain, with DOS links and list to match. |
| Handler.Global.UnlinkVolumeLock | platform/amiga/handler_main.c:1804-1831 | The lock leaves the chain; DOS links and list match. |
| Handler.Global.ReleaseVolumeObject | platform/amiga/handler_main.c:1869-1880 | A stale volume is destroyed with its last object, when DOS lets go of it. |
| Handler.Global.DestroyStaleVolume | platform/amiga/handler_main.c:1833-1847 | Only a volume that is not current and has no objects is freed. |
| Handler.Global.ReapStaleVolumes | platform/amiga/handler_main.c:1849-1861 | Tries every stale volume without objects once, frees as many as DOS lets go of, and no other. |
| Handler.Global.LockObject | platform/amiga/handler_main.c:2811-2848 | A lock of a new entry for the object found, shared for directories: which error comes, or success, is told exactly from the state before; every failure leaves entries, locks and volumes as they were. |
| Handler.Global.FreeLockObject | platform/amiga/handler_main.c:2850-2860 | Foreign pointers are refused; otherwise one lock less. |
| Handler.Global.DupLock | platform/amiga/handler_main.c:2862-2895 | A second lock on the same entry, counted, or for no lock one of the root; success and each error are told exactly from the state before, and a refusal changes nothing. |
| Handler.Global.DupLockFromHandle | platform/amiga/handler_main.c:2897-2932 | The same from a file handle, with the same exact outcomes. |
| Handler.Global.ParentOfLock | platform/amiga/handler_main.c:3025-3050 | A lock of the directory above; the root has none. Success and each error are told exactly from the state before. |
| Handler.Global.ParentOfHandle | platform/amiga/handler_main.c:3052-3077 | The same for a file handle. |
| Handler.Global.OpenObject | platform/amiga/handler_main.c:3153-3194 | A handle of a new entry with one reference; directories and writing are refused without a trace. Success and each error are told exactly from the state before. |
| Handler.Global.OpenFromLock | platform/amiga/handler_main.c:3196-3223 | A lock becomes a handle of the same entry; all entries are as before. Success and each error are told exactly from the state before. |
| Handler.Global.Close | platform/amiga/handler_main.c:3225-3234 | One handle less, its entry and volume released. |
| Handler.Global.Mount | platform/amiga/handler_main.c:5920-6064 | A readable medium becomes the current volume, new and without objects, or nothing is mounted. |
| Handler.Global.Unmount | platform/amiga/handler_main.c:6066-6110 | The volume goes stale while objects remain on it, and goes away otherwise. |
| Handler.Global.DrainAllObjects | platform/amiga/handler_main.c:2115-2138 | No lock, handle or entry remains, and no volume has objects. |
| Handler.RefsRelease | platform/amiga/handler_main.c:1685-1691 | The entry is freed exactly with its last holder. |
| Handler.RefsLock | platform/amiga/handler_main.c:2205-2250 | Reference counts stay equal to live locks and handles when a lock takes over a reference. |
| Handler.RefsOpen | platform/amiga/handler_main.c:2309-2338 | The same when a handle retains its entry. |
| Handler.CountsLock | platform/amiga/handler_main.c:2246-2248 | Object counts stay equal to live objects when a lock is made. |
| Handler.NoObjects | platform/amiga/handler_main.c:1849-1861 | A volume without objects has no locks and no handles. |
| Handler.ChainedPush | platform/amiga/handler_main.c:1786-1802 | Every chain stays the locks of its volume when one is pushed. |
| Handler.ChainedUnlink | platform/amiga/handler_main.c:1804-1831 | Every chain stays the locks of its volume when one is taken out. |
| Handler.LinkedUnlink | platform/amiga/handler_main.c:1804-1831 | Both directions of a chain and its DOS links stay consistent. |
| Handler.NobodyLeft | platform/amiga/handler_main.c:2115-2138 | Without locks and handles there are no entries and no counted objects. |
| ReadPaths.Reader.ReadObject | platform/amiga/handler_main.c:3557-3612 | Whatever path serves it, a read from a sector that has an address gives the bytes at the file position and moves the position past them; without device failure it gives all that was asked for up to the end of the file or the medium. From another position it reports what was asked for and writes nothing. |
| ReadPaths.Reader.ReadAhead | platform/amiga/handler_main.c:3413-3439 | Bytes copied from sectors read ahead are those at the position: all that is wanted of what was read ahead from there, exactly when the position stands in it and its request does not fail. |
| ReadPaths.Reader.ReadCachedSector | platform/amiga/handler_main.c:3447-3474 | A read is served whole from the cache exactly when what it wants lies inside one sector that is cached, of a file for direct reads; otherwise nothing moves. |
| ReadPaths.Reader.ReadDirect | platform/amiga/handler_main.c:3486-3520 | One request gives all that was asked for, at an address below 4 GiB, exactly for two or more whole sectors of a file for direct reads into a buffer that allows it, while the device delivers; otherwise nothing moves. |
| ReadPaths.Reader.ReadGeneral | platform/amiga/handler_main.c:3528-3555 | The general read gives a prefix, all of it unless the device fails or the medium ends; past the last sector address it writes nothing and leaves the length as it was. |
| ReadPaths.GeneralBytes | core/cache_block.c:523-527 | The length that the byte reader leaves is that of the bytes written exactly when the position in the file stands in a sector that has an address. |
| ReadPaths.CountIsTrue | platform/amiga/handler_main.c:3528-3555 | A caller is told of as many bytes as were written exactly when it wants none or starts in a sector that has an address; on a file on the medium always, and then of all that was wanted unless the device fails. |
| ReadPaths.TrueEverywhere | platform/amiga/handler_main.c:3528-3555 | Every position of a file stands in a sector that has an address exactly when the file is on the medium. |
| ReadPaths.ReadPastTheMedium | platform/amiga/handler_main.c:3528-3555 | A file of two sectors at the last address: a read of 100 bytes in the second reports 100 and writes none. |
| ReadPaths.Reader.StartAhead | platform/amiga/handler_main.c:3339-3410 | After a seek the next two sectors, or as many as the file has left, are asked for exactly when the last read was a small one and the sector is neither cached nor read ahead; otherwise nothing changes. |
| ReadPaths.Reader.WaitAhead | platform/amiga/handler_main.c:3269-3296 | Sectors count as read ahead only if their request succeeded. |
| ReadPaths.DirectFits | platform/amiga/handler_main.c:2328-2334 | The bound set at open keeps every byte address of the direct path within 32 bits and the file on the medium. |
| ReadPaths.DirectExactly | platform/amiga/handler_main.c:2328-2334 | Files for direct reads are those that are not empty and end, with their last sector, below 4 GiB. |
| ReadPaths.AheadBytes | platform/amiga/handler_main.c:3423-3425 | The 32-bit difference of addresses finds the right sector of the read-ahead, also when it wraps. |
| ReadPaths.AdvancedJoin | platform/amiga/handler_main.c:3593-3611 | A partial read-ahead and the rest of the read make one read, without gap or overlap. |
| ReadPaths.ReadsJoin | platform/amiga/handler_main.c:3557-3612 | Consecutive reads give the bytes of one read. |
| ReadPaths.StreamGivesFile | platform/amiga/handler_main.c:3557-3612 | However a file is cut into reads, and whatever path serves each, together they give one run of its bytes, without gap or overlap. |
| ReadPaths.CopyIsWhole | platform/amiga/handler_main.c:3557-3612 | When no read fails, reading until a read gives nothing copies the rest of the file exactly, which must then be on the medium. |
| ReadPaths.Handle.Seek | platform/amiga/handler_main.c:3614-3660 | Which seeks succeed, and where they lead; others change nothing. |
| Shutdown.ClosedIsQuiet | platform/amiga/os4/vector_guard.h:25-47 | After a successful shutdown attempt, in every continuation, nobody but the handler holds the semaphore or waits for it, no lookup finds the handler, and no lock or handle exists. |
| Shutdown.RequestsStayInside | platform/amiga/os4/vector_port.c:55-60 | Whenever the semaphore is free or about to be released no caller's I/O request is out, and no task meets that of another. |
| Shutdown.ShutdownOnlyWhenIdle | platform/amiga/os4/vector_guard.h:25-47 | An attempt succeeds exactly when nobody is inside and there are no objects; it never waits. |
| Shutdown.LookupMustJoinAtOnce | platform/amiga/os4/vector_guard.h:11-23 | Were lookup and joining the semaphore separate steps, a task could get in after the handler closed. |
| Shutdown.StepKeepsInv | platform/amiga/handler_main.c:766-817 | Every step of every task keeps the invariant behind these. |
| Shutdown.Guard.AcquireHandler | platform/amiga/os4/vector_guard.h:11-23 | The lookup finds the handler exactly while it is attached, and then the caller holds or waits for the semaphore. |
| Shutdown.Guard.TryShutdown | platform/amiga/os4/vector_guard.h:25-47 | The attempt does what the step says and reports whether the handler closed. |
| Shutdown.Guard.Unlock | platform/amiga/os4/vector_port.c:55-60 | The request goes before the semaphore. |

## Left out

- BlockCache.Cache.Init: does not model running out of memory for the entries; only the optional staging buffer can be missing. The statistics counters are not modelled either.
- HfsCatalog.WalkCatalog: says nothing of damaged trees beyond the records of damaged leaves, because the walk promises nothing there; running out of memory for the node buffer is not modelled. Termination is not claimed for damaged trees whose leaves link in a circle.
- IsoDirectory.ReadDir: does not model Rock Ridge overrides (a relocated entry is one that is hidden) nor names running out of memory; the sector pointer kept while the generation stands still is replaced by reading the sector again, which `CacheModel.GenerationPins` justifies.
- UdfObject.ReadObject: takes blocks to be no longer than the medium's sectors, as the code does when it reads a block as one sector.
- MetaCache.Cache.Get: sizes are those of the 68000 layout of entry and header; growing the arrays while building is not modelled, only that memory can run out at any entry.
- MetaListing.ReadDir: backends that break the cookie contract (audio tracks, HFS+ short records while skipping) are outside the model.
- Ancestry.Mount.ResolveParent: a cookie is known by the place that it stands for; `MetaListing` has how listings are answered.
- CdText.ReadCdText: checksums of packs and the four bytes before them are not modelled; the reader does not look at them.
- Handler.Global.LockObject: path resolution is a parameter; object lists are the key sets of maps from addresses, so their order is not modelled. Publication of volume nodes, its retry timer and the notification of Workbench are not modelled.
- ReadPaths.Reader.ReadObject: models the AmigaOS 3 path; whether a buffer may take a direct transfer is a parameter.
- Shutdown.Guard.AcquireHandler: a task that holds the semaphore does not call the handler again.
- Device and SCSI requests, DOS packets, message ports, timers and signals: calls into systems that are not part of this model.
- Byte layouts of ISO and HFS structures, volume probing and mount precedence: the model starts from decoded records.
- Rock Ridge with continuation areas: it keeps a pointer into a cache buffer while it reads other sectors.
- Session scanning, CDDB, audio file headers, logging and tools.

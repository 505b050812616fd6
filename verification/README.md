# Verification model of the kernel's file system, allocators, paging, scheduler, streams and user-level library

This project models the hard parts of the repository and proves properties of the models:

- **QFS** (`Bytes`, `QfsFormat`, `QfsTree`, `QfsBuilder`, `QfsNodes`, `QfsLayout`, `QfsPath`, `QfsKernel`,
  `QfsRoundTrip`, `QfsCreate`, `QfsRuns`): the disk-image builder on one side; the kernel's byte layer, inode cache,
  path lookup and file creation on the other. The two programs are written separately and agree on every directory tree.
- **Kernel `malloc`** (`Bits`, `KMallocHeap`, `KMalloc`, `KMallocRuns`): a bitmap allocator whose headers lie in the
  pages it hands out, modelled on memory words.
- **Paging** (`FrameBitmap`, `PageWalk`, `PageFlags`, `PageAddress`, `PageTables`, `PageSearch`, `PageLowest`,
  `PageFirstFit`, `PageSetup`): the chained frame bitmap, the four-level tables and the stock of pages that new tables
  come from, against the abstract partial map from pages to frames (4-level paging, section 4.5 of the Intel SDM,
  Volume 3A), from the boot on.
- **Scheduler and semaphores** (`TaskQueues`, `Scheduler`, `SchedulerRuns`, `SchedulerFailures`): tasks linked through
  their `next` fields into the ready queue, the sleeping list, the list of those waiting for interrupts and the
  semaphore queues.
- **Streams** (`Stream`): the chain of 255-byte buffers shared by writers and readers.
- **User-level library** (`UserHeap`, `ArgSplit`, `ArgQuotes`, `ArgVector`): the size-class allocator above `sbrk`, and
  the two quote-and-escape machines that count and split arguments.

`Options` and `Division` are shared helpers.

How to read the models:

- Memory is a map or a byte sequence, a pointer is an address, 0 is NULL. The C globals are the fields of a class and
  its methods update them in the order of the C code. `ghost` fields and parameters only say where things are.
- `ERROR` ends everything in the source. A check of the source that can fail is an outcome of the method, with the
  exact condition; a check that never fails is an `assert`.
- The pages that `malloc` and the frame bitmap get from `KPALLOC` are fresh and zeroed; for the page tables the stock is
  modelled. The disk is a byte sequence that is read and written in whole sectors, with a 16-bit length.
- "Every run" means: a class invariant that the constructor establishes and every method keeps, or a lemma over
  sequences of states.

Where the source does not do what it is meant to do, the code is modelled as it is and the exact condition is proved:

- Lookup sees only the first 64 entries of a directory (`QfsRoundTrip.EveryPathResolves`).
- `getI` hands out the number of an existing file exactly when some file or directory has an empty region
  (`QfsCreate.FreeNumber`, `QfsCreate.EmptyFileReused`).
- The builder compares the end of a region with the file length without the 108 sectors in front of the file system: it
  counts no error although the image outgrows the file exactly when the length is at least that of the file system and
  below that of the file system behind its base (`QfsBuilder.Build`, `QfsBuilder.BuildTooSmall`).
- `V2P` ignores bit 30 of the address, so that it finds the right frame exactly when that bit is clear
  (`PageTables.V2PExact`). `P_FREE` keeps the state sound exactly when nothing else lies on the frame that `V2P` finds
  and the page is not in the stock (`PageTables.Pager.P_FREE`); a run from boot in which it frees a frame in use is
  `PageSetup.FreeBeyondBit30`. A page that a refill puts into the stock keeps the state sound exactly when bit 30 of its
  address is clear (`PageSetup.Restock`).
- `unblock_task` links a task to the rest of its old list unless its link was clear or the queue empty
  (`Scheduler.Scheduler.AppendReadyAsWritten`; reached in `SchedulerFailures.UnblockFails`). `switch_to_task` loses a
  running task when `schedule` has just emptied the queue (`Scheduler.Scheduler.SwitchToAsWritten`; reached in
  `SchedulerFailures.SwitchFails`). All other scheduler methods have the two repairs: the link is cleared, and
  `FIRST_THREAD` is set.
- `schedule` stops with an error after idling exactly when the idle task is ready but not the first in the queue
  (`Scheduler.Scheduler.Resume`; reached in `SchedulerFailures.ResumeFails`).
- A task that is switched to as the last ready one, when another one blocks, gets no time slice. It is never preempted,
  whoever becomes ready; with a time slice, the running task is preempted exactly at the tick that uses it up
  (`SchedulerRuns.RunOn`; reached in `SchedulerRuns.Starves`).
- The table loop of `malloc` leaves before it searches the last table of several: a new table is chained exactly when all
  others are full for the request (`KMalloc.NewTableIff`).
- Doubled slashes in a path make no difference exactly when none stands before the name of a directory
  (`QfsPath.DoubledIff`); two at the beginning lead into a directory without a name (`QfsPath.DoubledFirst`).
- `splitv` runs past the end of a line exactly if the line ends in an unquoted backslash (`ArgSplit.RunsOverIff`).
- `splitv` leaves the block of an empty argument as `malloc` found it. All arguments are their words ended by NUL over
  every heap exactly when there is no empty one: if there is none, over every heap (`ArgVector.SplitV`), and over memory
  that holds no zero byte only then (`ArgVector.SplitOverOnes`). The empty line fails (`ArgVector.SplitNothing`), and an
  empty argument may even show what an earlier one left (`ArgVector.SplitStale`).

## Model

| member | source | states |
|---|---|---|
| QfsFormat.NameField | insertFileSystem/main.c:58 | a name of at most 31 bytes without NUL reads back from the zero-padded field |
| QfsFormat.ConstructInode | insertFileSystem/main.c:50-60 | the name of the new inode reads back as a C string |
| QfsFormat.EncodedFields | headers/filesystem_internal.h:5-13 | each field of the inode lies little-endian at its packed offset: 0, 8, 16, 18, 19, 20 and 28 |
| Bytes.LeByte | headers/filesystem_internal.h:5-13 | byte i of a stored number is the number shifted down by i bytes, modulo 256 |
| QfsFormat.DecodeEncode | headers/filesystem_internal.h:5-13 | the packed 60-byte inode decodes to the inode that was encoded |
| QfsFormat.WordsAt | qfs.c:315 | word l of a directory region is the l-th number of its list |
| QfsFormat.StoreNextWord | qfs.c:174-176 | a number stored behind a zero-padded list of numbers gives the list with that number appended, still zero-padded |
| QfsTree.LastEntry | insertFileSystem/main.c:186-206 | numbers and sectors handed out for all entries of a directory end where its own share ends |
| QfsBuilder.Builder.constructor | insertFileSystem/main.c:186-198 | a builder begins at sector 0 and number 0 without errors |
| QfsBuilder.Builder.GetDiskRegion | insertFileSystem/main.c:187-190 | the region begins where the last one ended, and the next one begins at its end |
| QfsBuilder.Builder.WriteDiskRegion | insertFileSystem/main.c:61-71 | the image has the data at the sector behind the base; an error is counted exactly when the end of the region, counted without the 108 sectors of the base, lies beyond the file |
| QfsBuilder.Builder.CompareRegion | insertFileSystem/main.c:223-236 | an error is counted exactly when the region does not read back as it was written |
| QfsBuilder.Builder.WriteAndCompare | insertFileSystem/main.c:222-238 | writing a region below what was written before never makes the comparison fail |
| QfsBuilder.Builder.ConstructDirOrFile | insertFileSystem/main.c:199-249 | a subtree becomes one stretch of sectors and one stretch of inodes, both in pre-order, and nothing else of image and table changes; the error count stays exactly when the end of the stretch, counted without the base, lies within the file |
| QfsBuilder.Builder.FillRegion | insertFileSystem/main.c:207-221 | the buffer of a file holds its bytes and zeros, that of a directory the numbers of its entries and zeros |
| QfsBuilder.Builder.ConstructEntries | insertFileSystem/main.c:214-221 | the entries of a directory are laid out one behind the other, and their numbers collected in order |
| QfsBuilder.Build | insertFileSystem/main.c:250-278 | the image is the zero-padded inode table followed by all regions, sized by the number of inodes, with tight regions (QfsLayout.LayoutMirrors); no error is counted exactly when it would fit the file without the base, so that the count misses an overrun exactly when the file has room for the image but not for the image behind 108 sectors |
| QfsBuilder.BuiltLength | insertFileSystem/main.c:61-71 | the image outgrows the file exactly when the file is shorter than the file system behind its base |
| QfsBuilder.BuildTooSmall | insertFileSystem/main.c:61-71 | counterexample: the image of an empty root directory outgrows a file of 108 sectors by one, and no error is counted |
| QfsLayout.LayoutConsecutive | insertFileSystem/main.c:186-249 | for every tree: inode numbers are the pre-order numbers, and the regions in that order follow one another without a gap up to the final FIRST_UNU |
| QfsLayout.ConsecutiveApart | insertFileSystem/main.c:186-206 | regions of different numbers are disjoint and in the order of the numbers |
| QfsLayout.ConsecutiveWithin | insertFileSystem/main.c:257-262 | every region lies between the end of the table and FIRST_UNU |
| QfsLayout.LayoutMirrors | insertFileSystem/main.c:186-249 | every file and directory of a tree has an inode of its name and kind, the fewest sectors that hold its bytes or 60 bytes for each entry, a region with its bytes and zeros behind them, and its entries in order |
| QfsLayout.TableTight | insertFileSystem/main.c:257-262 | the regions begin behind the fewest sectors that hold 60 bytes for each file and directory |
| QfsLayout.BuiltLaidOut | insertFileSystem/main.c:250-278 | in a built image numbers identify files, inodes lie in the table, and regions lie above it and are pairwise disjoint |
| QfsNodes.DirPayload | insertFileSystem/main.c:201-221 | the region of a directory is the list of its entries' numbers, none of them zero, ended by a zero word unless the region is empty |
| QfsNodes.HeldInode | insertFileSystem/main.c:239 | a laid-out image has the inode of each subtree at 60 times its number, and its contents at its region |
| QfsNodes.HeldKid | insertFileSystem/main.c:215-220 | if an image holds a directory, it holds each of its entries at the number and sector that the recursion gave it |
| QfsNodes.LayoutOnDisk | insertFileSystem/main.c:199-249 | the image read with the kernel's decoding shows exactly the laid-out tree |
| QfsNodes.AllReadable | qfs.c:19-26 | the sector that readPLUS transfers beyond the last inode is part of every image |
| QfsPath.CountPass | qfs.c:246-263 | the first pass counts the runs of slashes and rejects exactly the paths that end in one |
| QfsPath.SplitPass | qfs.c:264-294 | the second pass cuts out the directory components, or fails when it meets the end of the path |
| QfsPath.NamePass | qfs.c:295-301 | on a path with a slash the third pass cuts out what follows the last one |
| QfsPath.ParseOfJoin | qfs.c:246-301 | on a path /c1/.../cn the three passes give exactly c1 to c(n-1) and cn |
| QfsPath.ParseOfFields | qfs.c:246-301 | on every path that begins with a slash, cut at each slash into fields: rejected exactly when the last field is empty; otherwise there is one directory less than there are non-empty fields, taken from the front whether empty or not, and the name is the last field |
| QfsPath.FieldsOf | qfs.c:246-301 | every path that begins with a slash is the join of some fields without slashes |
| QfsPath.DoubledIff | qfs.c:246-294 | a path is parsed like the same path with single slashes exactly when all non-empty fields but the last one come before every empty one |
| QfsPath.DoubledFirst | qfs.c:264 | counterexample: //a/b is parsed to a directory without a name and b |
| QfsKernel.StrcmpZero | qfs.c:321 | the comparison of names is zero exactly for equal C strings |
| QfsKernel.Qfs.constructor | qfs.c:65-66 | the cache begins empty |
| QfsKernel.Qfs.Read | chs_qfs_if.c:7-23 | whole sectors, with the length cut to 16 bits; an error exactly for a length that is no multiple of 512 |
| QfsKernel.Qfs.Write | chs_qfs_if.c:24-35 | whole sectors, with the length cut to 16 bits; for a length that is no multiple of 512 an error, and the disk as it was |
| QfsKernel.Qfs.ReadPLUS | qfs.c:14-32 | exactly the bytes at the offset, however they lie across sectors |
| QfsKernel.Qfs.WritePLUS | qfs.c:33-51 | exactly the bytes at the offset change |
| QfsKernel.Qfs.CacheGet | qfs.c:67-78 | a cached inode, or nothing |
| QfsKernel.Qfs.CacheAdd | qfs.c:79-106 | growth ends with a slot for the inode and loses no entry; an entry that is there stays |
| QfsKernel.Qfs.Invalidate | qfs.c:107-112 | exactly one slot becomes empty |
| QfsKernel.Qfs.GrabInode | qfs.c:113-123 | whether cached or not, the result decodes the 60 bytes at 60 times the number; the cache stays coherent |
| QfsKernel.Qfs.InodeRead | qfs.c:124-134 | an error for reading past the region exactly when it ends beyond it, and for the length exactly when it is no multiple of 512; otherwise the bytes of the region from the sector of the position on |
| QfsKernel.Qfs.GetI | qfs.c:135-147 | the first slot whose chunk length reads zero |
| QfsKernel.Qfs.WriteIN | qfs.c:168-171 | the slot decodes to the inode; the cache stays coherent exactly when it held nothing else for the slot |
| QfsKernel.Qfs.AddToD | qfs.c:172-180 | the number goes into the first zero word of the directory; the cache stays coherent and loses exactly the directory's entry |
| QfsKernel.Qfs.StoreInFirstZero | qfs.c:173-177 | rewriting the whole region changes exactly the first zero word |
| QfsKernel.Qfs.ScanDirectory | qfs.c:312-333 | the first entry of the given name among the first 64, NULL if there is none, fatal for an empty directory |
| QfsKernel.Qfs.ScanWords | qfs.c:314-326 | the loop stops at the zero word at the latest and answers with the first matching entry |
| QfsKernel.Qfs.Descend | qfs.c:303-357 | the answer is the end of the walk through the nodes on the disk |
| QfsKernel.Qfs.GetFileFromFilename | qfs.c:235-366 | the answer is that of the walk along the parsed path |
| QfsRoundTrip.WalkOfLayout | qfs.c:303-357 | for every tree and path, lookup on the layout is lookup in the tree as long as every component is among the first 64 entries, and a miss otherwise |
| QfsRoundTrip.ResolvedHeld | insertFileSystem/main.c:199-249 | a path that resolves leads to a subtree with its last component as name, held in the image |
| QfsRoundTrip.FaithfulAnswer | qfs.c:353-365 | the answer is an inode with the last component as name, in the fewest sectors that hold the file's bytes or 60 bytes for each entry, and with the file's bytes zero-padded in them, or NULL for a component that is absent |
| QfsRoundTrip.MountBuilt | chs_qfs_if.c:1-12 | the disk behind sector 108 of a built image holds the tree |
| QfsRoundTrip.ResolvePath | qfs.c:235-366 | on a disk that holds a tree, resolving any path is faithful to the tree, and only numbers of the tree are added to the cache |
| QfsRoundTrip.BuildThenResolve | insertFileSystem/main.c:250-278 | for every tree: after the builder ran, resolving a path from inode 0 gives the file or directory it names, with the fewest sectors that hold it and with its bytes, and NULL for an absent one in a non-empty directory |
| QfsRoundTrip.EveryPathResolves | qfs.c:313 | the path of every file and directory resolves to it, and lookup can see it exactly when no position on the way is 64 or more |
| QfsCreate.FreeNumber | qfs.c:135-147 | getI gives an unused number exactly when no file or directory has an empty region; otherwise the number of such a one |
| QfsCreate.EmptyFileReused | qfs.c:141-143 | counterexample: with one empty file in the root, getI gives the number of that file |
| QfsCreate.InsertOnDisk | qfs.c:168-180 | the disk after writing inode and directory entry shows the tree with the new entry |
| QfsCreate.OldPathsKept | qfs.c:172-180 | every path that resolved before resolves to the same inode |
| QfsCreate.NewPathResolves | qfs.c:342-352 | the new path resolves to the new node if the directory had fewer than 64 entries |
| QfsCreate.CreatedMounted | qfs.c:168-180 | creation keeps the layout sound, with one more number in use |
| QfsCreate.StoreEntry | qfs.c:191-198 | writeIN and addtoD for an uncached number keep the cache coherent and make exactly the two patches |
| QfsCreate.CreateEntry | qfs.c:181-200 | getI, writeIN and addtoD give a new number, a disk with the new entry and a coherent cache |
| QfsCreate.CreateThenResolve | qfs.c:235-366 | after creation the new path resolves to the new inode, and every earlier path to the same inode as before; the disk, the cache and the numbers meet what the next creation needs |
| QfsCreate.BuiltMounted | insertFileSystem/main.c:250-278 | a built image meets what creation needs, if it has a sector to spare |
| QfsRuns.Step | qfs.c:113-366 | a lookup, a grab of an inode in use, an invalidation or a creation gives the right answer and keeps disk, tree and cache consistent: valid, coherent, laid out, nothing cached but inodes of the tree |
| QfsRuns.Run | qfs.c:113-366 | so does every sequence of them, each step permitted for the tree as it then is |
| QfsRuns.BuildAndRun | insertFileSystem/main.c:250-278 | so does every such sequence on a disk that the builder made |
| QfsRuns.CreationIsLegal | qfs.c:181-200 | on a root directory with one non-empty file, creating a file of another name and looking it up is permitted |
| KMalloc.Scan | malloc.c:41-63 | the bit scan finds the lowest run of free units, exactly when there is one |
| KMalloc.PrefilterSound | malloc.c:40 | the comparison in front of the scan never rejects a page that has a run |
| KMalloc.ChecksPass | malloc.c:46-53 | the two consistency checks never fire |
| KMalloc.Allocator.constructor | malloc.c:11-15 | initMalloc leaves one empty table and nothing live |
| KMalloc.Allocator.SearchTable | malloc.c:33-65 | one table: the first slot with a run, or none; the first unused slot is remembered |
| KMalloc.Allocator.Search | malloc.c:27-67 | the lowest run in the first visited slot that has one, or proof that no visited slot has one |
| KMalloc.Allocator.TakeFound | malloc.c:45-58 | exactly the units of the run are taken, and the header records them |
| KMalloc.Allocator.TakeFreshPage | malloc.c:75-82 | the first units of a fresh page in an unused slot |
| KMalloc.Allocator.TakeNewTable | malloc.c:70-82 | a new table is chained behind the last one visited, and its first slot gets the fresh page |
| KMalloc.Allocator.Allocate | malloc.c:27-82 | first fit; a fresh page only if no visited page has a run; a new table only if no visited slot is unused |
| KMalloc.NewTableIff | malloc.c:32-74 | a new table is chained exactly when no slot of any table, the last of several excepted, is unused or has a run |
| KMalloc.Allocator.Malloc | malloc.c:16-96 | the two size errors exactly for sizes 0 and above 62 units of 64 bytes; otherwise the smallest block that has the bytes asked for and a header unit, with the pointer behind that unit, where the search put it, in a sound heap |
| KMalloc.Allocator.Free | malloc.c:97-122 | NULL is an error; a live pointer gives back exactly its units; a pointer freed before, whose units were not handed out again, always meets the double-free check |
| KMalloc.Allocator.Unmask | malloc.c:112-121 | the mask rebuilt from the header is the run that was taken, and the metadata check does not fire |
| KMalloc.Allocator.Store | malloc.c:16-96 | a client's store within a payload keeps the heap sound |
| KMallocHeap.TakeValid | malloc.c:49-58 | taking free units keeps blocks disjoint and within their pages, and bitmaps exact |
| KMallocHeap.ReleaseValid | malloc.c:113-121 | so does giving back a live block |
| KMallocHeap.AddPageValid | malloc.c:76-77 | a fresh zeroed page disturbs nothing |
| KMallocHeap.PointSlotValid | malloc.c:75-77 | so does pointing an unused slot to it |
| KMallocHeap.LinkTableValid | malloc.c:70-73 | and chaining it as a table |
| KMallocHeap.ClientWriteValid | malloc.c:49-58 | client stores within payloads destroy no header and no bitmap |
| KMallocRuns.FreeUndoesMalloc | malloc.c:49-121 | malloc from a page in use followed by free leaves tables and live blocks as they were |
| KMallocRuns.EveryStateValid | malloc.c:11-122 | in every state of every run of mallocs, frees and client stores: live blocks are disjoint and within their pages, and clear bits are exactly their units |
| KMallocRuns.UnitsConserved | malloc.c:49 | on every page in use, set bits and units of live blocks make 64 |
| FrameBitmap.FrameMap.constructor | page.c:139-140 | one zeroed table: no frame is in use |
| FrameBitmap.FrameMap.NextTable | page.c:92-95 | the next table, chained as a zeroed one if it was missing; no word of the sequence changes |
| FrameBitmap.FrameMap.Locate | page.c:90-100 | the recursion ends at word index mod 511 of table index div 511, growing the list up to it |
| FrameBitmap.FrameMap.SetFrame | page.c:101-108 | exactly the bit of one frame changes |
| FrameBitmap.FrameMap.FirstFree | page.c:109-135 | the least frame that is not in use, in agreement with the addressing of Locate across all tables |
| FrameBitmap.FrameMap.ScanTable | page.c:113-127 | the scan of one table keeps the running count and finds its least clear bit |
| FrameBitmap.LowestClear | page.c:116-122 | the lowest clear bit, which is the number of trailing zeros of the complement: the mismatch check never fires |
| PageAddress.Indices | page.c:256-259 | the four masks and shifts take out the four nine-bit indices |
| PageAddress.IndicesOfConstructed | page.c:48-50 | taking apart undoes construct_virtual_address |
| PageAddress.ConstructedOfIndices | page.c:256-259 | construct_virtual_address undoes taking apart, for 48-bit addresses and up to the page offset |
| PageAddress.V2PIndex | page.c:158 | V2P reads the second-level index without its lowest bit, which is bit 30 |
| PageWalk.InstalledTree | page.c:263-285 | storing an entry in a clear slot, for a cleared frame that is no table or for an unused one, adds exactly one path; no table and no page becomes shared |
| PageWalk.ClearedTree | page.c:438 | clearing the entry of a page removes exactly that path |
| PageWalk.ClearedFrame | page.c:78 | clearing the memory of a frame that is no table changes no translation |
| PageFlags.EntryIs | page.c:266-284 | the entry that a walk ends at is the frame it leads to, with the flags in its low 12 bits |
| PageTables.V2PExact | page.c:154-161 | V2P finds the frame of a page exactly when bit 30 of the address is clear |
| PageTables.EntryParts | page.c:266-284 | frame and flags are recovered from an entry |
| PageTables.Pager.constructor | page.c:136-153 | tables and stock are taken over as they are found |
| PageTables.Pager.EnsureLevel | page.c:263-280 | a missing table comes cleared from the stock, its entry has the frame of that page and the flags given, and no other entry changes; no page is mapped or unmapped by it; it is missed exactly when the stock is empty |
| PageTables.Pager.LinkTable | page.c:264-267 | exactly one walk more leads somewhere: to the frame on which the first page of the stock lies, with the flags given |
| PageTables.Pager.EnsureTables | page.c:263-280 | the last-level table exists afterwards; the missing ones are pages of the stock, one after the other, entered with the flags given, and it runs out exactly when it has fewer |
| PageTables.Pager.ALSP | page.c:255-287 | the page map grows by exactly one pair, to the least free frame, in an entry with exactly the bits of both words of flags; the tables made on the way lie on their stock pages with the flags given, and every other entry stays as it was; one error exactly if the page was mapped, the other exactly if the stock has fewer pages than tables are missing |
| PageTables.Pager.MapLeaf | page.c:281-285 | the entry is set exactly if it was clear, to the frame and exactly the bits of both words of flags |
| PageTables.Pager.V2P | page.c:154-161 | the frame in the entry at the path with bit 30 cleared, present or not, and the offset |
| PageTables.Pager.P_FREE | page.c:431-445 | exactly the page is unmapped, every other entry keeps frame and flags, and the frame that V2P finds is free; the state stays sound exactly when no other path leads to that frame and the page is not in the stock |
| PageTables.OwnFrame | page.c:431-438 | for a mapped page with bit 30 clear, another path leads to its frame exactly when the frame holds a table |
| PageTables.WrongFrame | page.c:158 | with bit 30 set, another page lies on the frame that V2P finds, if it finds one |
| PageTables.FreedIff | page.c:431-445 | after an unmapping a frame is still reached exactly when another path led to it |
| PageTables.Pager.KPALLOC | page.c:55-80 | the first page of the stock with its memory cleared, an error exactly when the stock is empty; all translations stay |
| PageTables.Pager.DoesPDEEExist | page.c:299-307 | true exactly when all tables exist and the page is not mapped |
| PageSearch.PathOfPageNo | page.c:48-50 | page numbers, paths and constructed addresses agree |
| PageSearch.SearchBegins | headers/addresses.h:6-7 | the first page of the search starts at MBASE, at entry 32 of the first last-level table below entry 1 of the root table |
| PageSearch.SkipFailing | page.c:319-322 | no run begins at or before a page that failed, so skipping past it misses none |
| PageSearch.FindRun | page.c:315-324 | the lowest run of usable pages from MBASE on |
| PageSearch.KP_ALLOC4 | page.c:308-330 | that run is mapped with flags 1, each page to the least frame that is still free; no other frame becomes used and no other entry changes; the error exactly for 0 pages; one page comes from the stock |
| PageSearch.MapRun | page.c:325-327 | every page of the run gets the least frame that is free when its turn comes, with flags 1, and no other frame becomes used |
| PageSearch.P_FREES | page.c:446-453 | exactly the given pages are unmapped and exactly their frames are free again; the error exactly for a length below 1 |
| PageFirstFit.KP_ALLOC3 | page.c:331-429 | the lowest page from root entry 1 on that is not mapped is mapped with flags 1 to the least free frame, whichever tables had to be made; these are entered with flags 0x1 at the head of a loop and with 0x23 behind a full table; one error exactly when all pages are mapped, the other exactly when the stock has fewer pages than tables are missing on the way to that page; otherwise exactly those pages leave the stock |
| PageFirstFit.FirstAbsent | page.c:353-361 | the first absent entry of a last-level table |
| PageFirstFit.ScanPt | page.c:346-421 | the table itself first, then the next table wherever that begins |
| PageFirstFit.NextTable | page.c:362-420 | the branches for the next table at the three levels, and the error behind the last page |
| PageFirstFit.IntoNewPt | page.c:363-375 | a new last-level table, with the page in its first entry |
| PageFirstFit.IntoNewPde | page.c:381-396 | two new tables, with the page in the first entry |
| PageFirstFit.IntoNewPdpt | page.c:398-413 | three new tables, with the page in the first entry |
| PageFirstFit.SearchFrom1 | page.c:335-428 | the outermost loop never runs out, so that the error behind it is never reached |
| PageSetup.Restock | page.c:71-75 | one round of the refill puts the lowest unmapped page in front of the stock; the state stays sound exactly when bit 30 of its address is clear |
| PageSetup.Refill | page.c:70-76 | the n lowest unmapped pages are mapped, nothing else is, and the state stays sound; below one table the stock is then exactly those pages, in order, before what the first of them left |
| PageSetup.StockedIff | page.c:71-75 | one more page leaves a stock sound exactly when V2P finds its frame |
| PageSetup.BootTree | protk.S:53-75 | the boot tables are a tree, and map page i from CBASE on to frame i, for the first 512, and nothing else |
| PageSetup.Boot | page.c:136-147 | the boot tables with four kernel pages in the stock are a sound state in which the frames below 512 are in use |
| PageSetup.P_ALLOC3_SETUP | page.c:136-153 | from the boot: the stock is 64 new pages, in order, and three of the four kernel pages, the one that KPALLOC gave last; no other page is mapped |
| PageSetup.LowestAfterBoot | page.c:149-150 | those 64 pages are the lowest that the boot tables do not map |
| PageSetup.MapThenFree | page.c:255-287 | P_FREE undoes ALSP at any address with bit 30 clear: the same translations, the same frames in use |
| PageSetup.FreeBeyondBit30 | page.c:154-161 | counterexample from the boot: mapping and freeing the page one gigabyte above CBASE releases frame 0, on which a kernel page lies, and keeps the frame of the page |
| TaskQueues.ExactlyOnePlace | proc.c:273-381 | in a sound state every task is in exactly one place and its state says which |
| TaskQueues.MutualExclusion | proc.c:484-523 | with one permit two holders are the same holder |
| TaskQueues.CountsKept | proc.c:492-523 | count equals holders, stays within its bounds, is at its maximum while someone waits, and arrivals are grants followed by waiters, over all four outcomes |
| TaskQueues.AppendedSound | proc.c:358-379 | appending to the ready queue keeps it a chain and every task in its place |
| TaskQueues.PoppedSound | proc.c:295-297 | taking the head out keeps the chain |
| TaskQueues.HandOverSound | proc.c:512-517 | the head of a semaphore's queue leaves it and all other queues stay as they are |
| TaskQueues.WaiterSound | proc.c:499-506 | a task joins the end of exactly one semaphore's queue |
| TaskQueues.KeepMeans | proc.c:592-626 | the tasks that a pass over a list picks out are those of the list for which the condition holds |
| TaskQueues.KeepSplit | proc.c:592-626 | a list kept in order and one put back from the front: over two lists the first is the one part behind the other, the second the reverse |
| Scheduler.Scheduler.constructor | proc.c:100-130 | one running task, nothing queued |
| Scheduler.Scheduler.AppendReady | proc.c:358-379 | with the link cleared in every branch, the ready queue grows by the task at its end |
| Scheduler.Scheduler.AppendReadyAsWritten | proc.c:358-379 | as written, the state stays sound exactly if the link was clear or the queue empty |
| Scheduler.Scheduler.UnblockTask | proc.c:343-381 | the two errors exactly for running and ready tasks; otherwise the task is last in the ready queue |
| Scheduler.Scheduler.Requeue | asmbridge.S:120-135 | with FIRST_THREAD set as well, a running task is last in the ready queue |
| Scheduler.Scheduler.SwitchTo | asmbridge.S:102-146 | the next task runs, the old one is last in the ready queue if it still ran |
| Scheduler.Scheduler.SwitchToAsWritten | asmbridge.S:102-146 | as written, the state stays sound exactly unless a running task meets an empty queue |
| Scheduler.Scheduler.SwitchWrapper | proc.c:132-166 | the error exactly if the current task is ready; otherwise a whole time slice, or none if a task that no longer runs gives way to the only ready one |
| Scheduler.Scheduler.Schedule | proc.c:273-318 | a postponed switch is only noted; otherwise the head runs, with a whole time slice unless it is the last ready one and follows a task that blocked, or the current task goes on with the rest of its slice, or the processor idles, for the task that ran, with an empty time slice |
| Scheduler.Scheduler.Resume | proc.c:319-334 | after idling the head runs, without a time slice if it is the only ready task or the one that went idle; the error exactly when the idle task is ready but not the head |
| Scheduler.Scheduler.BlockTask | proc.c:336-342 | the new state is stored and schedule decides |
| Scheduler.Scheduler.Unlock | proc.c:68-78 | a switch happens exactly when it was asked for and the last lock is released |
| Scheduler.Scheduler.UnlockStuff | proc.c:68-89 | a postponed switch happens at the matching unlock; the fault checks never fire |
| Scheduler.Scheduler.NanoSleepUntil | proc.c:383-398 | a time that has passed returns at once; otherwise the task heads the sleeping list with that time, and the next one runs |
| Scheduler.Scheduler.WaitForIrq | proc.c:407-425 | a remembered interrupt is taken at once; otherwise the task heads the list of those waiting, for that interrupt and until the time-out from now if there is one, and the next one runs |
| Scheduler.Scheduler.UnblockIrq | proc.c:427-450 | exactly the tasks that wait for the interrupt become ready, in order; it is remembered exactly when nobody waited |
| Scheduler.Scheduler.WakeSleepers | proc.c:592-610 | exactly the sleepers whose time has come become ready, in order, and the others go back in reverse order |
| Scheduler.Scheduler.WakeTimedOut | proc.c:611-626 | the same for time-outs; an error exactly if one has no function |
| Scheduler.Scheduler.PIT_IRQ_handler | proc.c:588-636 | time, sleepers, time-outs and the end of the time slice in one tick: a slice longer than a tick becomes shorter by one, a shorter one ends in a switch, and an empty one stays empty; every task stays in exactly one place |
| Scheduler.TickedMeans | proc.c:592-626 | after a tick exactly the sleepers whose time has come and the waiting tasks whose time-out has come are ready as well, 0 standing for no time-out |
| Scheduler.IrqsMean | proc.c:427-450 | after an interrupt exactly the tasks that waited for it are ready as well |
| Scheduler.RememberedMeans | proc.c:445-448 | an interrupt is remembered exactly when no task in the list waits for it |
| Scheduler.Scheduler.CreateSemaphore | proc.c:484-491 | a semaphore without holders or waiters |
| Scheduler.Scheduler.AcquireSemaphore | proc.c:492-509 | a free permit is taken; otherwise the task waits behind all earlier ones and the switch happens at the unlock |
| Scheduler.Scheduler.ReleaseSemaphore | proc.c:510-523 | the permit passes to the task that waited longest, which becomes ready, or becomes free if nobody waits |
| Scheduler.Scheduler.Spawn | proc.c:233-241 | a new task is last in the ready queue |
| Scheduler.Scheduler.Run | proc.c:273-636 | over every sequence of ticks, interrupts, sleeps, waits, acquisitions, releases and new tasks the state stays sound, unless one of the two errors ends the run |
| Scheduler.Scheduler.Step | proc.c:273-636 | each step does what it is called: a tick moves the time and the slice, an interrupt wakes who waits for it, a sleep or wait takes the running task off the processor, a permit is taken, passed on or given back, a new task is ready; a step whose condition does not hold changes nothing |
| SchedulerRuns.RunOn | proc.c:628-634 | over any steps while a task runs and another one is ready: if it does not block it is preempted, by the first ready one, exactly when its time slice is not empty and the ticks make up the rest of it, at that very tick |
| SchedulerRuns.FiveTicks | proc.c:628-634 | from boot with two tasks, the running one keeps the processor for five ticks |
| SchedulerRuns.Starves | proc.c:146-152 | counterexample: one of two tasks goes to sleep; it wakes, but however many ticks follow it never runs |
| SchedulerFailures.ResumeFails | proc.c:319-334 | counterexample: two tasks sleep until the same tick; the second tick ends with the error |
| SchedulerFailures.UnblockFails | proc.c:358-379 | counterexample: of two sleepers one wakes, and as written the other one becomes a part of the ready queue |
| SchedulerFailures.SwitchFails | asmbridge.S:102-146 | counterexample: the running task gives way to the only ready one, and as written is in no queue afterwards |
| Stream.SpaceIs | filesystem.c:78 | the conversion to a signed byte and back gives the free space |
| Stream.MoveDown | filesystem.c:130 | copying bytes upwards within a buffer moves them towards the front intact |
| Stream.Stream.constructor | driver.c:59-63 | one empty buffer |
| Stream.Stream.WriteRound | filesystem.c:76-93 | a round appends the next bytes, as many as fit the last buffer or, if that is full, a new one |
| Stream.Stream.ReadRound | filesystem.c:117-136 | a round delivers the next bytes in order; an empty first buffer is freed only if it is not the last; the reader has to wait exactly when nothing is buffered in the only buffer |
| Stream.Stream.STDOUTStream | filesystem.c:67-100 | a call alone puts all its bytes into the stream, in at most length / 255 + 2 rounds |
| Stream.Stream.STDINStream | filesystem.c:101-139 | a call alone for no more bytes than are buffered ends, without waiting, with the next bytes of the stream |
| Stream.Round | filesystem.c:67-139 | a call that is not over moves on by exactly the bytes that fit or are there, unless its round freed an empty buffer or nothing is buffered |
| Stream.NodeCount | filesystem.c:76-93 | there are at most buffered / 255 + 2 buffers, since those in between are full |
| Stream.FreedChain | filesystem.c:121-124 | freeing the first of several buffers follows a link that is set and loses no byte |
| Stream.AddedChain | filesystem.c:85-92 | a new last buffer may have any link |
| Stream.Run | filesystem.c:67-139 | for every interleaving of any number of writers and readers: bytes delivered, then bytes buffered, are the bytes appended, and each call's bytes are in its own order |
| Stream.OnlyOne | filesystem.c:67-139 | with one writer or one reader, the bytes of the stream are the bytes of that call |
| UserHeap.Heap.constructor | userland/libc.c:94-99 | four empty buckets |
| UserHeap.BucketMeans | userland/libc.c:100-113 | each request gets the smallest of the classes 8, 64, 512 and 4096 that fits it, and exactly its size above |
| UserHeap.Heap.Sbrk | syscall.c:37-43 | the new end, with memory that no block has |
| UserHeap.Heap.Malloc | userland/libc.c:100-141 | a new live block of the size asked for in the smallest class that fits, the head of its bucket if there is one, with the bytes that were found there; no other live block changes |
| UserHeap.Heap.Pop | userland/libc.c:130-132 | the bucket goes on with the block that the link names |
| UserHeap.Heap.WriteHeader | userland/libc.c:136-137 | a spare piece becomes a live block |
| UserHeap.Heap.Free | userland/libc.c:142-164 | the block heads the bucket that its tag names; large blocks are given up |
| UserHeap.Heap.Store | userland/libc.c:100-164 | a store within a live block changes exactly its bytes |
| UserHeap.Heap.Realloc | userland/libc.c:212-217 | the contents move to a block of the new size, and the old one is freed |
| UserHeap.Heap.RequestedSize | userland/libc.c:214 | the header still has the size that was asked for |
| UserHeap.Freed | userland/libc.c:154-162 | the link at offset -8 leaves the tag at -16 of every block intact, and the bucket stays an acyclic list of blocks of its class |
| UserHeap.Unlinked | userland/libc.c:130-132 | taking the head out keeps all lists and tags |
| UserHeap.LiveApart | userland/libc.c:100-164 | live blocks with their headers are disjoint, have room for what was asked and are in no list |
| ArgSplit.SplitC | userland/libc.c:189-211 | one more than the number of spaces that are neither quoted nor escaped |
| ArgSplit.StepAgrees | userland/libc.c:189-268 | at the beginning of every round of splitv both machines are in the same kind of quote |
| ArgSplit.RunsOverIff | userland/libc.c:248-251 | splitv goes past the end of a line exactly if it ends in an unquoted backslash |
| ArgSplit.CountsAgree | userland/libc.c:189-268 | blanks counted = further arguments + pairs of adjoining blanks, from any round on |
| ArgSplit.CountSuffices | userland/libc.c:189-268 | the count is never too small, and exact exactly when no two unquoted spaces adjoin |
| ArgQuotes.CommandRoundTrip | userland/libc.c:189-268 | for all lists of arguments, each of any pieces that are bare and escaped or within quotes of either kind: writing them and joining with single spaces gives a line on which splitc counts the arguments and splitv yields exactly their texts; within quotes only the closing quote and the backslash are escaped, and an argument may be empty there |
| ArgQuotes.BackslashStays | userland/libc.c:235-242 | within quotes a backslash before any other character stays, and so does that character |
| ArgQuotes.BackslashGoes | userland/libc.c:243-246 | outside quotes a backslash goes and the character behind it stays |
| ArgQuotes.LineRoundTrip | userland/libc.c:189-268 | for all lists of non-empty words: escaping and joining gives a line on which splitc counts the words and splitv yields exactly them |
| ArgVector.AddCv | userland/libc.c:218-223 | the last string grows by one character through the realloc; vector and other blocks stay right |
| ArgVector.Round | userland/libc.c:233-265 | one round does what the machine's step says |
| ArgVector.SplitV | userland/libc.c:224-268 | with the count of splitc no entry past the vector is written, every argument has a block of its own, every non-empty one is its word ended by NUL, and the block of an empty one holds what malloc found |
| ArgVector.RightIff | userland/libc.c:224-268 | if no string begins with NUL, all arguments are their words ended by NUL exactly when no word is empty |
| ArgVector.SplitOverOnes | userland/libc.c:224-268 | over memory of ones all arguments are their words ended by NUL exactly when no word is empty |
| ArgVector.SplitNothing | userland/libc.c:224-232 | counterexample: for the empty line over memory of ones the block of the one argument is not ended by NUL |
| ArgVector.SplitStale | userland/libc.c:218-223 | counterexample: for `ab` and a space the empty second argument reads as the letter a, over any memory |
| ArgVector.SplitCommand | userland/libc.c:189-268 | on a line of quoted, escaped or mixed arguments that are not empty, splitc returns their number and splitv exactly their NUL-terminated texts |
| ArgVector.SplitEscaped | userland/libc.c:189-268 | on the line of escaped words splitc returns their number and splitv exactly the NUL-terminated words |

## Left out

- Integer widths: numbers, addresses and counters are unbounded, except for the 16-bit transfer length, 64-bit bitmap words, the signed byte of the stream and the 32-bit and 64-bit header fields of the user-level heap. `1<<n` is a 64-bit shift throughout.
- Floppy, DMA, PIC, PIT, PCI, serial, terminal and the rest of the boot code, and the host side of the image builder (reading files and directories): hardware and host input; the builder starts from a tree.
- `getIS` and the data placement of `mkFile`: the scan reads inodes at misaligned offsets, so that a fresh region is not what it returns; creation is modelled for a region that is given.
- The `disk0` semaphore of QFS, and freeing of C heap objects inside `getFileFromFilename`: lookup is over inode values.
- QfsCreate.CreateThenResolve: asks for a fresh name, room for the number and the zero word behind it, and a region for the new inode that meets no other; the source checks none of this.
- QfsKernel.Qfs.ReadPLUS: transfers below 64 KiB; the source cuts the length of longer ones to 16 bits.
- QfsKernel.Qfs.WritePLUS: transfers below 64 KiB, as for QfsKernel.Qfs.ReadPLUS.
- QfsKernel.Qfs.AddToD: a directory region has a zero word to spare; otherwise the source goes on behind its buffer.
- QfsKernel.Qfs.StoreInFirstZero: the same.
- QfsPath.NamePass: the path has a slash; otherwise the source goes on in front of it.
- QfsKernel.Qfs.GetFileFromFilename: the path has a slash, and does not go through a file.
- QfsKernel.Qfs.Descend: the path does not go through a file, whose bytes the source would read as numbers.
- QfsCreate.CreateEntry: a spare slot in the table and no empty region, which the source does not check; what happens with an empty region is QfsCreate.FreeNumber.
- QfsRuns.Run: each step meets what QfsCreate.CreateThenResolve or QfsRoundTrip.BuildThenResolve ask for.
- QfsRoundTrip.BuildThenResolve: a path that goes through a file gives no promise, since lookup then reads the file as a directory.
- KMalloc.Allocator.Search: the table loop of `malloc` leaves before scanning the last table of a chain of several, so that "no run" is claimed for the visited tables only; what that means for new tables is KMalloc.NewTableIff.
- KMalloc.Allocator.Free: pointers that `malloc` never returned are outside its contract.
- PageTables.Pager.KPALLOC: the slots of the stock are a sequence, and the refill, which the source does when it finds the first 32 slots empty, is a step of its own (`PageSetup.Refill`); a refill in the middle of `ALSP` is not modelled.
- PageSetup.Refill: for pages with bit 30 clear; what one page with that bit set does is the exact condition of `PageSetup.Restock`.
- PageSetup.P_ALLOC3_SETUP: root entry 0 is clear from the start, and the page from `KPALLOC` goes back before the refill. The source does both at the end; the search begins at entry 1, and the refill takes one page from the front of the stock.
- `manualptVlookup` and TLB flushes: direct access to table frames.
- PageTables.Pager.V2P: asks for the last-level table at the path with bit 30 cleared; without it the source reads frame 0 as a table.
- PageTables.Pager.P_FREE: asks for the same table, and for that of the page.
- PageSearch.P_FREES: for pages that P_FREE frees soundly.
- PageSearch.KP_ALLOC4: assumes that a run exists; otherwise the loop of the source does not end. A negative size does not end either.
- PageTables.Pager.ALSP: extending the frame bitmap is one step and takes its page from outside the stock.
- `UP_ALLOC3`, `UP_ALLOC4` and `U_PFREEALL`: marked as not working, a loop over `ALSP`, and unused.
- `IRQ_disable_counter`, task death, burial, `reap`, children, process waits and `unblockP`; `wfPokeT` and `PokeT`, whose check and sleep are separate steps, so that wake-ups of streams are not claimed.
- Scheduler.Scheduler.NanoSleepUntil: entering the list and blocking are one step, as they are in Scheduler.Scheduler.WaitForIrq; in the source interrupts may come in between.
- Scheduler.Scheduler.ReleaseSemaphore: the permit that is given back belongs to some holder; the source does not check that.
- Stream.Run: each round is one step, which rests on the semaphore around it; a closed stream and the wake-ups are not modelled.
- UserHeap.Heap.Realloc: only for sizes that are not smaller, as its callers use it; a smaller one copies the old size.
- UserHeap.Heap.Malloc: requests below 4 GiB and memory below 2^64; the break never fails.
- ArgVector.SplitV: the line lies outside the heap, and the heap has room for one block per character.

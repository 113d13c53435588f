# Models of the kernel's storage, memory and scheduling code

This project models the parts of the kernel whose correctness is least obvious and proves
what they are meant to do. `dafny verify dfyconfig.toml` checks all of it.

- **FAT file system** (`FatLayout` to `FatDirWalk`, `FatSharing`, with `Arith`). Three layers are related:
  bytes in sectors, the allocation table as a function from cluster to cluster, and a file as a
  sequence of bytes. `FatVolume.Volume` is the mounted volume with its one-sector write-back
  window, `FatFile.Fil` an open file with its private sector buffer; `FatState` and `FatData`
  hold the pure steps behind their methods. All contracts speak of the disk as it will be once
  window and buffer are written. `FatName` and `FatDirectory` treat long names and directory
  tables as a list of slots, `FatDirWalk` the way from such a table to its cluster chain.
  Cluster size, number of clusters and disk size are parameters, sectors have 512 bytes.
- **virtio disk queue** (`VirtioRing`, `VirtioRuns`, `VirtioDriver`). A state machine of the
  driver's critical sections and the device's moves; the class `Disk` does the driver's steps
  on arrays.
- **Memory** (`VmState` to `VmProcess`, `Sv39`, `Stretches`, `MapTable`, `Mmap`). Sv39 tables inside
  the frames the allocator hands out, what the hardware makes of them, reference counts, and the
  sorted table of mmap regions.
- **Scheduling and locks** (`Harts`, `Stride`, `SleepMutex`, `Pipe`). State machines over the
  interleaved steps of harts and processes.
- **Caches** (`LruList`, `BufferCache`, `SharedBuffers`, `PageState`, `PageCache`). Each is
  proved to show what the plain disk or file would.

Inputs from outside, such as the contents of a file behind a mapping, what the disk holds where
a file grows, `ff_wtoupper`, and whether a process is marked as killed, are parameters.

## Model

| member | source | states |
|---|---|---|
| FatLayout.StoredEntry | os/fatfs/ff.c:1209-1260 | An entry stored and loaded again, in FAT12, FAT16 or FAT32, is the value cut to the entry's width; FAT32's top four bits stay. |
| FatLayout.OtherEntry | os/fatfs/ff.c:1209-1260 | Storing an entry changes no other entry, though two FAT12 entries share a byte, and no other reserved bits. |
| FatLayout.StoreTable | os/fatfs/ff.c:1209-1260 | Byte by byte through sectors, both copies at once, a store changes the table, as a function from cluster to value, in exactly one place. |
| FatLayout.TableReads | os/fatfs/ff.c:1131-1204 | Every entry is the number that its bytes in the sectors of the table say, low byte first, and the mirror copy says the same. |
| FatLayout.EndMarks | os/fatfs/ff.c:1209-1260 | The end mark 0xFFFFFFFF cut to the width of an entry has all its bits set: 0xFFF, 0xFFFF, 0x0FFFFFFF. |
| FatLayout.EndMarkOutOfRange | os/fatfs/ff.c:1570 | The end mark always reads as at least `n_fatent`. |
| FatLayout.FsInfoRoundTrip | os/fatfs/ff.c:1085-1101 | What sync_fs stores in the FSInfo sector is what mounting reads back. |
| FatLayout.FsInfoBytes | os/fatfs/ff.c:1085-1101 | The signatures and the two counts are where the specification of the FSInfo sector has them, low byte first. |
| FatMount.MountedIs | os/fatfs/ff.c:3458-3509 | Which boot sectors are accepted, and the kind by the number of clusters alone, the cluster size, the number of entries and where tables and data begin. |
| FatMount.MountedSound | os/fatfs/ff.c:3461-3509 | An accepted boot sector gives areas that lie in order on the disk if and only if the system area's size fits 32 bits. |
| FatMount.OverflowAccepted | os/fatfs/ff.c:3461-3509 | A boot sector whose tables overflow 32 bits and that is accepted. |
| FatVolume.Volume.SyncWindow | os/fatfs/ff.c:1025-1043 | Writing the window back, with the mirror table, changes nothing of what the volume shows, and leaves no dirty window. |
| FatVolume.Volume.MoveWindow | os/fatfs/ff.c:1047-1068 | Moving the window changes nothing of what the volume shows; over the table it then holds the sector asked for. |
| FatVolume.Volume.GetFat | os/fatfs/ff.c:1131-1204 | The entry of a cluster as the bytes of the table on the volume have it, low byte first, in the nibbles, bytes and low 28 bits of each kind, across a FAT12 entry that straddles two sectors; 1 for a number outside the table. |
| FatVolume.Volume.PutFat | os/fatfs/ff.c:1209-1260 | Exactly one entry of the table changes, to the value cut to its width, and the bytes of both copies then read so, low byte first; outside the table it is an internal error that changes nothing. |
| FatVolume.Volume.SyncFs | os/fatfs/ff.c:1078-1107 | Afterwards the disk itself holds both tables and, when due, the FSInfo counts. |
| FatChain.ChainUnique | os/fatfs/ff.c:1131-1204 | A chain is determined by its first cluster. |
| FatChain.ChainDistinct | os/fatfs/ff.c:1399-1588 | A chain visits no cluster twice. |
| FatChain.HeadsDisjoint | os/fatfs/ff.c:1399-1588 | In a table of chains, those from two clusters nothing links to share no cluster. |
| FatChain.LinkedChain | os/fatfs/ff.c:1494-1588 | A stretch appends the new cluster to the chain that ended there and leaves every other chain as it is. |
| FatChain.RemovedChain | os/fatfs/ff.c:1399-1487 | On a chain remove_chain frees exactly its clusters. |
| FatChain.RemovedSuffix | os/fatfs/ff.c:1399-1487 | From the middle of a chain it frees exactly the suffix, its predecessor being the new end. |
| FatChain.TruncatedChains | os/fatfs/ff.c:1399-1487 | Cutting a chain, or removing one from its head, leaves a table of disjoint chains. |
| FatVolume.Volume.RemoveChain | os/fatfs/ff.c:1399-1487 | The table is the one the removal function gives, on every table, a cyclic one included; free_clst stays exact or unknown and FSInfo is marked due when it changes. |
| FatVolume.Volume.FindFree | os/fatfs/ff.c:1555-1569 | The wrap-around search gives the first free cluster behind the start, says 0 only if no cluster is free, 1 only if an entry of value 1 exists. |
| FatVolume.Volume.CreateChain | os/fatfs/ff.c:1494-1588 | It returns the next cluster of the chain, or a free one that it has linked as the new end, the neighbour if that is free and else the first behind the one last taken, or 0 with an exact count only when none is free; free_clst stays exact or unknown and FSInfo is marked due. |
| FatChain.ScanIsFreeCount | os/fatfs/ff.c:4772-4822 | A scan over all entries counts the free clusters if and only if entries 0 and 1 are nonzero; one from cluster 2 always does. |
| FatVolume.Volume.GetFree | os/fatfs/ff.c:4769-4828 | The stored count when in range, else a scan; after a FAT12 scan the count is exact, after a FAT16 or FAT32 scan if and only if entries 0 and 1 are nonzero or the count reads as unknown. |
| FatChain.ScanCanBeWrong | os/fatfs/ff.c:4804-4822 | A full FAT16 table with a reserved entry of 0, after whose scan the count is in range and wrong. |
| FatData.FileSectorInjective | os/fatfs/ff.c:1114-1122 | Two sectors of a file never share a place on the disk. |
| FatVolume.Volume.Clst2SectSteps | os/fatfs/ff.c:1114-1122 | Cluster 2 begins where the data area does, each next one a cluster size further; 0 for a number outside the table. |
| FatData.BytePlace | os/fatfs/ff.c:3874-3936 | Where each byte of a file lies: byte `b` of sector `j` of its `q`-th cluster. |
| FatData.ContiguousFile | os/fatfs/ff.c:1114-1122 | A file on consecutive clusters is one stretch of the disk, from the start of its first cluster on. |
| FatData.WriteBytes | os/fatfs/ff.c:3950-4062 | A change of sectors that puts data at a position, and otherwise touches only bytes past the end, is a write to the byte sequence. |
| FatState.OthersKept | os/fatfs/ff.c:3950-4062 | Whatever an operation on a file may do to the volume leaves the chain and the bytes of every file with other clusters. |
| FatFile.Fil.Open | os/fatfs/ff.c:3653-3840 | An opened file shows the bytes its chain holds on the volume, with the pointer at 0. |
| FatFile.Fil.Read | os/fatfs/ff.c:3850-3940 | The bytes at the pointer, fewer only at the end of the file; the file, the table, the rest of the destination and whatever is not the file's own stay; the pointer moves on by as many. |
| FatFile.Fil.Write | os/fatfs/ff.c:3950-4062 | Exactly the first `bw` bytes at the pointer are replaced; fewer than asked for only when no cluster is free or the pointer is at 4 GiB less one byte; the chain grows by exactly the clusters the bytes before the pointer need, if any; free_clst stays exact; nothing outside the file's own or formerly free clusters changes. |
| FatFile.Fil.Lseek | os/fatfs/ff.c:4367-4522 | The pointer reaches the offset, in a read-only file at most the end; every byte there was stays; the chain grows by exactly the clusters needed, if any; short of the offset only when the disk is full. |
| FatFile.Fil.Truncate | os/fatfs/ff.c:4842-4885 | The file is its first bytes up to the pointer, its chain the clusters these need, and exactly the others are freed, the new end being marked; without a cut chain and table stay; free_clst stays exact. |
| FatFile.Fil.Sync | os/fatfs/ff.c:4071-4145 | Afterwards the disk itself holds the bytes of the file and two equal tables. |
| FatFile.Fil.WriteThenRead | os/fatfs/ff.c:3850-4062 | What a write put in, a seek back and a read gives out; fewer bytes only when the disk is full or the file at its largest. |
| FatSharing.OtherStays | os/fatfs/ff.c:3950-4062 | A step of one open file leaves another of other clusters sound, with its chain, its own buffer, dirty or not, its pointer and its bytes, and the two still apart. |
| FatSharing.OtherUndisturbed | os/fatfs/ff.c:3850-4885 | So after f_read, f_write, f_lseek or f_truncate of the one the other is open as before. |
| FatSharing.WriteBeside | os/fatfs/ff.c:3950-4062 | A write to one of two open files: it has what was written, fewer bytes only when the disk is full or the file at its largest, the other what it had, and both go on. |
| FatSharing.WriteBoth | os/fatfs/ff.c:3950-4062 | Writes to two open files in turn, each with a buffer of its own: each file has what was written to it and nothing else, and less than asked for only when the disk is full or a file at its largest. |
| FatState.CutBytes | os/fatfs/ff.c:4855-4879 | Cutting the chain and the size keeps exactly the first bytes. |
| FatState.Stretched | os/fatfs/ff.c:3976-3995 | A cluster taken at the end of the chain changes no byte of the file. |
| FatLinkMap.LookupIsIndex | os/fatfs/ff.c:1597-1615 | The search through the pairs of a link map gives the cluster at that index of the chain the map stands for, 0 past it. |
| FatLinkMap.RunAdded | os/fatfs/ff.c:4396-4413 | A maximal run of consecutive clusters extends the map by one pair and the number of fragments by one. |
| FatLinkMap.ClmtClust | os/fatfs/ff.c:1597-1615 | On the table, walked pair by pair, the cluster of the byte at an offset, 0 past the map. |
| FatLinkMap.CreateLinkMap | os/fatfs/ff.c:4394-4418 | The map stands for the whole chain when it fits the table, and the size it needs is reported in any case; an internal error if and only if the end mark equals the last cluster plus one. |
| FatLinkMap.EndLooksNext | os/fatfs/ff.c:4402-4409 | A chain for which that happens. |
| FatLinkMap.FastLseek | os/fatfs/ff.c:4420-4438 | By the map the pointer gets where it asks, at most to the end, with the sector of the pointer in the buffer: the same state invariant as by the walk. |
| FatLinkMap.FindSectorByMap | os/fatfs/ff.c:3874-3894 | On a sector boundary f_read with a link map takes the cluster and the sector it takes by following the chain. |
| FatName.PutLfn | os/fatfs/ff.c:1928-1957 | Writes one part of a name, terminated and filled as the specification of long directory entries asks, and no other byte. |
| FatName.CharPlaces | os/fatfs/ff.c:1928-1957 | The 13 characters of an entry lie at the places the specification gives, low byte first. |
| FatName.PartStored | os/fatfs/ff.c:1928-1957 | The bytes of a part: its number, bit 6 of which marks the last part, the marks of a long entry, and at each place the character, the closing 0 or the filler. |
| FatName.PickLfn | os/fatfs/ff.c:1890-1922 | Takes a part into the buffer if and only if it is well filled, numbered and fits. |
| FatName.PartPicked | os/fatfs/ff.c:1890-1953 | A part that was put for a name extends what the buffer holds of that name to the front. |
| FatName.CmpLfn | os/fatfs/ff.c:1854-1886 | True if and only if the part is well filled and equals the buffer there up to case. |
| FatName.MatchIsEqual | os/fatfs/ff.c:1854-1886 | All parts match if and only if the names are equal up to ff_wtoupper, whatever lies past the 0 in the query buffer. |
| FatDirectory.SumOf | os/fatfs/ff.c:2022-2035 | The loop computes the checksum that ties the parts to their short entry. |
| FatDirectory.SumRotates | os/fatfs/ff.c:2022-2035 | One byte more rotates the sum to the right by one bit and adds the byte. |
| FatDirectory.ShortBytes | os/fatfs/ff.c:2513-2523 | The short entry that is registered has the name, no attributes, the two lower-case flags and zeros. |
| FatDirectory.NameFlags | os/fatfs/ff.c:73-80 | The flags of a name are the bits 0x01, 0x02, 0x40, and 0x20 and 0x80 for names that cannot be registered. |
| FatDirectory.DirRead | os/fatfs/ff.c:2275-2345 | Stops at the first visible file of the table, with exactly its long name in the buffer, or says that there is none. |
| FatDirectory.DirFind | os/fatfs/ff.c:2353-2427 | Stops at the first slot whose long name equals the query up to case, or whose short name equals the short query, or says that there is none. |
| FatDirectory.DirAlloc | os/fatfs/ff.c:1775-1806 | The first run of free entries of the length asked for, or none exists. |
| FatDirectory.DirRegister | os/fatfs/ff.c:2434-2532 | The parts, last first, then the short entry, in the first free run; no other byte changes; an error changes nothing. |
| FatDirectory.DirRemove | os/fatfs/ff.c:2540-2578 | Exactly the entries of the slot are marked deleted. |
| FatDirectory.PlacedLays | os/fatfs/ff.c:2494-2532 | A table with a block of entries placed in its first free run lays out the files of before and the new one, in order. |
| FatDirectory.ErasedLays | os/fatfs/ff.c:2540-2578 | A table with a slot marked deleted lays out every other file. |
| FatDirectory.CreateThenFind | os/fatfs/ff.c:2353-2532 | A name registered and looked up is found at its own place, among the files of before; it is not registered if and only if its flags forbid it or no run of free entries is long enough. |
| FatDirectory.RemoveFound | os/fatfs/ff.c:2540-2578 | Removing the file found leaves all others, in order. |
| FatDirectory.CreateFindRemove | os/fatfs/ff.c:2353-2578 | Creating, finding and removing a file brings back the files of before; not created only for the same reasons. |
| FatDirWalk.Dir.Sdi | os/fatfs/ff.c:1666-1705 | Setting the offset succeeds if and only if it is aligned, in range and within the chain, and then the sector is the one of that entry. |
| FatDirWalk.Dir.Next | os/fatfs/ff.c:1714-1766 | The next entry, through sectors and clusters, until the end of the chain or the largest table. |
| FatDirWalk.Dir.Walk | os/fatfs/ff.c:1666-1806 | Over a cluster chain the walk visits the table's bytes in order, as one flat table. |
| VirtioDriver.Disk.AllocDesc | os/driver/virtio_disk.c:139-149 | The first free descriptor, marked used, or -1 if none is free. |
| VirtioDriver.Disk.FreeChain | os/driver/virtio_disk.c:151-178 | The three descriptors of a chain are free and cleared, no other changes. |
| VirtioDriver.Disk.Alloc3Desc | os/driver/virtio_disk.c:180-195 | Three free descriptors, or none taken and fewer than three free. |
| VirtioDriver.Disk.Begin | os/driver/virtio_disk.c:197-250 | Up to the ring the driver does exactly the step of the model, or nothing when it must sleep. |
| VirtioDriver.Disk.Finish | os/driver/virtio_disk.c:258-268 | Freeing its chain is exactly the last step of the model. |
| VirtioDriver.Disk.Intr | os/driver/virtio_disk.c:272-304 | The handler's loop is the step of the model for every used entry up to the index. |
| VirtioDriver.IntrIsSafe | os/driver/virtio_disk.c:272-304 | In a reachable state the handler never panics, and its whole loop is a run of steps, one for each entry returned and not yet seen. |
| VirtioDriver.IntrInRun | os/driver/virtio_disk.c:272-304 | Every run of the queue goes on with the whole loop of the handler. |
| VirtioRing.AtMostTwo | os/driver/virtio_disk.c:180-269 | At most two requests own descriptors at a time, so that neither ring runs full. |
| VirtioRing.WindowSmall | os/driver/virtio_disk.c:249-304 | Neither side is ever more than two entries ahead of the other. |
| VirtioRing.Indices | os/driver/virtio_disk.c:249-304 | The tests on 16-bit indices are tests on unbounded counters, across wrap-around. |
| VirtioRuns.RunIsSafe | os/driver/virtio_disk.c:197-304 | In every run, chains completing in any order: requests own disjoint triples that are exactly the descriptors not free, and no step panics or leads the device astray. |
| VirtioRuns.NoOverwrite | os/driver/virtio_disk.c:249-255 | The slot about to be written holds no entry the device has yet to take. |
| VirtioRuns.RunIsCoherent | os/driver/virtio_disk.c:197-304 | The disk holds the last block written to each sector, and each read returned the block of its time. |
| VirtioRuns.Served | os/driver/virtio_disk.c:197-268 | A caller returns only after the device executed its own request, once, and with the data its buffer then has. |
| VirtioRuns.NoDeadlock | os/driver/virtio_disk.c:197-304 | In every run, while a request is in flight the driver or the device can carry it on. |
| VmState.Conserved | os/mem/physical.c:50-105 | Who owns what decides all counts and the free list: the same spaces and holders mean the same counts, the same free frames and as many. |
| VmKernel.Kmem.Alloc | os/mem/physical.c:71-86 | The first frame of the free list, with one reference, or 0 when there is none. |
| VmKernel.Kmem.Recycle | os/mem/physical.c:50-68 | A frame with its last reference is in front of the free list, linked and counted. |
| VmKernel.Kmem.Put | os/mem/physical.c:94-105 | One reference less; with the last one the frame is free, once. |
| VmKernel.Kmem.Walk | os/mem/virtual.c:80-116 | The table of the page's lowest level, made if asked for, which succeeds if and only if there is a frame for each table that is missing; no translation changes, and nothing at all if the table is there. |
| VmKernel.Kmem.MapPages | os/mem/virtual.c:181-209 | Adds exactly the pages of the range, all of them if and only if there is a frame for each missing table, and says how far it came. |
| VmKernel.Kmem.Map1Page | os/mem/virtual.c:215-239 | Adds exactly one page, or reports that it is mapped or that no frame is left, changing no translation. |
| VmKernel.Kmem.UvmUnmap | os/mem/virtual.c:242-266 | Removes exactly the pages of the range, with one reference of each frame given back when asked for. |
| VmKernel.Kmem.UvmAlloc | os/mem/virtual.c:285-315 | Succeeds if and only if the free frames cover the new pages and the tables they miss, and then maps every page of the new range on a zeroed frame of its own; else it restores the old translation and every data frame. |
| VmKernel.Kmem.UvmDealloc | os/mem/virtual.c:318-330 | Removes exactly the pages between the new and the old size. |
| VmKernel.CostIs | os/mem/virtual.c:285-315 | What mapping a range takes: a frame for each page that needs its own and one for each table that is new. |
| VmKernel.TablesNeeded | os/mem/virtual.c:80-116 | A range of pages needs one lowest table for every 512 pages and one above it for every 512 of those, by number. |
| VmKernel.NewPagesBetween | os/mem/virtual.c:285-315 | The pages uvmalloc adds are those that begin at or behind the old size and before the new one. |
| VmKernel.LeafBits | os/mem/virtual.c:181-209 | A leaf is valid, accessed and dirty, and its other bits are those of the permissions asked for. |
| VmKernel.NewPageZero | os/mem/virtual.c:285-315 | Every word of a page that uvmalloc adds is 0. |
| Sv39.HardwareWalk | os/mem/virtual.c:80-116 | The three-level walk of the hardware, through words of physical memory and by the bits of the address, finds an entry for a page if and only if the page is mapped, and then the entry of the model. |
| VmTeardown.FreePages | os/mem/virtual.c:334-352 | Frees the frames of a subtree without leaves, each once, and no other. |
| VmTeardown.FreeTree | os/mem/virtual.c:334-372 | Frees every table of a space without leaves; no other space notices. |
| VmProcess.ProcPagetable | os/proc/proc.c:78-104 | With four free frames or more a space with the trampoline and a new trap frame, which takes four; with one or two everything is given back; with none or three it panics. |
| VmProcess.CopyRange | os/mem/virtual.c:386-472 | Gives the child every page of the range, with the same flags and contents, on the same frame when shared, else on a frame that was free, if and only if the frames suffice for the pages and the tables. |
| VmProcess.Clone | os/proc/fork.c:16-70 | If and only if the frames suffice, the child has the parent's stretches, each page copied or shared, the trampoline, and the parent's trap frame with a return value of 0 and, if given, another stack; -1 if and only if there are one or two; else it panics. |
| VmProcess.SegsCostIs | os/mem/virtual.c:386-478 | What clone takes beyond the page table: a frame for each page that is not shared and for each new table. |
| VmProcess.SegTables | os/mem/virtual.c:386-478 | Which tables these are: those whose part of the address space a stretch reaches. |
| VmProcess.SegsAre | os/mem/virtual.c:386-436 | The stretches by address: the 512 KiB of stack below 3 GiB, the program and heap from 4 KiB on, the mappings, and the two pages at the top. |
| VmProcess.CloneDear | os/proc/fork.c:22-27 | The stack alone takes 128 frames, so that with 4 to 131 free ones clone panics for every process. |
| VmProcess.Teardown | os/proc/proc.c:108-152 | The space is gone and nothing else of who owns what has changed, without a panic. |
| VmProcess.CloneThenTeardown | os/proc/fork.c:16-70 | clone followed by teardown, which takes place if and only if the frames suffice for clone, leaves the same frames free, as many, and every other count as it was. |
| MapTable.Table.Add | os/proc/proc.c:600-627 | A region enters the sorted table in its place unless it overlaps one; one without pages always does; a panic if and only if the table is full. |
| MapTable.Table.RemoveFixed | os/proc/proc.c:629-648 | The region of that start and length leaves the table, or there is none. |
| MapTable.Table.TryRemovePage | os/proc/proc.c:650-688 | The page leaves the table and no other does, its region becoming up to two; a panic if and only if the table is full and the region would become two. |
| MapTable.BrokenInto | os/proc/proc.c:671-687 | What is left of the region is what was before the page and what was behind it. |
| MapTable.TakenNext | os/proc/proc.c:826-832 | Page by page there is one region more exactly while the rest of a region cut at the start is left. |
| MapTable.TakenAll | os/proc/proc.c:826-832 | A whole range taken out leaves one region more if and only if one went on on both sides. |
| Mmap.RemovePages | os/proc/proc.c:716-722 | The range leaves both tables, which keep agreeing; a panic if and only if the table is full and the first page splits a region. |
| Mmap.Munmap | os/proc/proc.c:817-834 | The pages of the range, as 32-bit arithmetic counts them, leave both tables; -1 if and only if none was there; a panic if and only if the table is full and the first page splits a region. |
| Mmap.IsFreeRange | os/proc/proc.c:567-579 | True if no page of the range is mapped, the tables for all of them then existing; false only with a mapped page or without a frame; a panic if and only if a range with pages begins past MAXVA. |
| Mmap.GetFreeRange | os/proc/proc.c:581-598 | The first place of the window, with its 32-bit limits and in the order of the code, whose range is free; 0 if every place has a mapped page, or frames ran out. |
| Mmap.WindowIs | os/proc/proc.c:581-598 | The window by address: from the hint up to a page below the stack, or from behind the first page right up to the stack. |
| Mmap.Fetch | os/proc/proc.c:752-788 | A frame for every page, with the contents it must have, or everything given back, which needs a lack of frames or of file pages. |
| Mmap.ContentIs | os/proc/proc.c:752-788 | A page without a file is zeros, another the page of the file. |
| Mmap.AgreesWith | os/proc/proc.c:793-804 | A region entered in the table and in the page table leaves them agreeing. |
| Mmap.Place | os/proc/proc.c:708-735 | The place of a mapping: with MAP_FIXED the range asked for, emptied of regions, else the first free one; none if and only if the range is blocked by what mmap did not map, or the window is full, or frames ran out. |
| Mmap.Mmap | os/proc/proc.c:690-815 | Success maps exactly the new region in both tables, each page with its own contents and with just the permissions asked for, in place of the pages evicted; -1 if the call is refused or has no place, and otherwise only for lack of frames or file pages, leaving all but what was evicted as it was; with memory and pages enough a panic if and only if the range begins past MAXVA or spans a region on both sides with one slot left. |
| Mmap.RegionPermits | os/proc/proc.c:738-747 | The leaves of a new region are readable, writable and executable as the bits of `prot` say, and for user code. |
| Mmap.PageCountIs | os/proc/proc.c:701-702 | The page count is the least that covers the length up to 2^44 bytes, and repeats beyond. |
| Mmap.EmptyCovers | os/proc/proc.c:701-702 | A region entered without pages takes a slot and covers nothing. |
| Mmap.PanicsExist | os/proc/proc.c:600-601 | Both panics of mmap are reached: above a program and below a stack, 127 regions and a page inside one, or an address past MAXVA. |
| Mmap.MunmapPanicExists | os/proc/proc.c:600-601 | The panic of munmap is reached: above a program and below a stack, 128 regions and a page inside one. |
| Mmap.LostLengthExists | os/proc/proc.c:701-702 | 2^44 bytes have a page count of 0 and a place. |
| Mmap.PagesShort | os/proc/proc.c:825-826 | The loop goes through all pages of a range if and only if these are fewer than 2^20; of exactly 2^20 it goes through none. |
| Mmap.LengthLost | os/proc/proc.c:701-702 | The page count of a positive length is 0 for which lengths exactly. |
| Harts.RunnableUnlocked | os/proc/scheduler.c:29 | A process that is runnable and whose lock is free is on no hart. |
| Harts.InvNext | os/proc/scheduler.c:20-73 | Every step of every hart and process keeps the invariant, the test of state and lock being one step. |
| Harts.ScanPicks | os/proc/scheduler.c:16-38 | A scan that nobody disturbs ends with the first of the runnable unlocked processes of least stride, or there is none. |
| Harts.ScanNext | os/proc/scheduler.c:25-36 | Each turn of the loop of the scheduler keeps to that. |
| Harts.NeverTwice | os/proc/scheduler.c:20-73 | In every interleaving no process is with two harts, and one marked as running is being run. |
| Harts.NoDeadlock | os/proc/scheduler.c:20-73 | In every interleaving some hart can go on with what it has begun. |
| Harts.SplitTestRunsTwice | os/proc/scheduler.c:29 | With the two reads of the test apart, a run in which a process is with two harts. |
| Stride.Pool.Pick | os/proc/scheduler.c:16-38 | The first of the ready processes with the least stride, or none is ready. |
| Stride.Pool.Run | os/proc/scheduler.c:16-59 | From equal strides, after any number of turns without wrap, strides, and runs times pass, differ by at most the largest pass. |
| Stride.LevelNext | os/proc/scheduler.c:57-59 | One turn keeps every stride within the largest pass of every other. |
| Stride.PassIs | os/proc/scheduler.c:57-59 | The pass is 2^31 - 1 divided by the priority, rounded down. |
| SleepMutex.InvNext | os/lock/mutex.c:12-29 | Every step of every process, of sleep, wakeup, kill and creation keeps the invariant. |
| SleepMutex.MutualExclusion | os/lock/mutex.c:12-29 | In every reachable state at most one process has the mutex, and `locked` says whether one has. |
| SleepMutex.TakesFree | os/lock/mutex.c:12-21 | In every reachable state, who tests a free mutex has it then, alone. |
| SleepMutex.SleeperIsAhead | os/proc/proc.c:449-465 | Who sleeps on a free mutex is still to be reached by a wakeup under way. |
| SleepMutex.NoLostWakeup | os/lock/mutex.c:12-29 | In every reachable state with the mutex free and no release under way nobody sleeps on it, despite kill and the skip of creating_proc. |
| SleepMutex.NoDeadlock | os/lock/mutex.c:12-29 | In every reachable state where a process is in the middle of an acquire, a release, a sleep, a wakeup or a kill, some process can go on with what it has begun. |
| Pipe.PutContent | os/file/pipe.c:86-92 | Bytes stored come after those in the pipe, across the wrap of the array and of the 32-bit counter. |
| Pipe.TakenContent | os/file/pipe.c:126-129 | Bytes taken are the first ones of the pipe. |
| Pipe.Pipe.PipeWrite | os/file/pipe.c:61-102 | From the lock to sleep or return, a writer puts in as much as there is room for and returns, sleeps or fails as the model says. |
| Pipe.Pipe.PipeRead | os/file/pipe.c:104-142 | A reader gets the first bytes there are, sleeps only on an empty pipe with a writer, or fails when killed. |
| Pipe.BytesInOrder | os/file/pipe.c:61-142 | In every interleaving of readers, writers and closers the bytes read, then those in the pipe, are the bytes written, in order, never more than 2048 of them in the pipe. |
| Pipe.SleepsOnlyWhenStuck | os/file/pipe.c:72-76 | Who sleeps left the pipe full, or found it empty. |
| Pipe.ReadableRight | os/file/pipe.c:144-149 | pipe_readable is right if and only if the writing counter has not wrapped before the reading one. |
| Pipe.ReadableWrong | os/file/pipe.c:144-149 | A pipe with a byte in it of which pipe_readable says no. |
| LruList.Unlinked | os/fs/buf.c:120-121 | The two assignments take a node out of the list and change nothing else. |
| LruList.Pushed | os/fs/buf.c:122-125 | The four assignments put a node in front and change nothing else. |
| BufferCache.Cache.Lookup | os/fs/buf.c:52-60 | The buffer that holds the block, or none does. |
| BufferCache.Cache.LastUnreferenced | os/fs/buf.c:62-74 | The unreferenced buffer whose last reference went longest ago, or all are referenced. |
| BufferCache.Cache.AcquireBuf | os/fs/buf.c:47-77 | One more reference to the buffer of the block, or the victim is the block's; a panic if and only if the block is not cached and every buffer is referenced. |
| BufferCache.Cache.ReleaseBuf | os/fs/buf.c:110-128 | One reference less; without any the buffer is the most recent of the list, which stays a permutation. |
| BufferCache.Cache.DiskRead | os/fatfs/diskio.c:76-109 | Any count of sectors is read as the disk has them, whatever is cached. |
| BufferCache.Cache.DiskWrite | os/fatfs/diskio.c:119-147 | Exactly the sectors written change on the disk, and every cached one follows. |
| BufferCache.SectorBytes | os/fatfs/diskio.c:76-109 | Byte by byte: byte `j` of the `k`-th sector read is the 512 `k` + `j`-th of the destination. |
| BufferCache.BytesPut | os/fatfs/diskio.c:119-147 | Byte by byte the same of what is written. |
| SharedBuffers.InvNext | os/fs/buf.c:47-128 | With any number of processes, each step keeps references counted, blocks cached once and valid contents those of the plain disk. |
| SharedBuffers.ReadsSeeLastWrite | os/fs/buf.c:84-128 | In every interleaving a sector is read as it was last written, by whichever process. |
| SharedBuffers.DiskIsLastWrite | os/fs/buf.c:100-107 | When no write is on its way the disk has for every block what was last written. |
| SharedBuffers.OneBufferEach | os/fs/buf.c:47-77 | Processes with buffers for one block share one, and one of them at most is at its contents. |
| SharedBuffers.NoDeadlock | os/fs/buf.c:47-128 | In every interleaving, while a process has a reference to a buffer some process can go on. |
| PageState.Evicted | os/fs/inode.c:19-49 | Evicting a page, written back if dirty, changes no byte a reader can tell. |
| PageState.Loaded | os/fs/inode.c:130-157 | A page read into an empty entry says what the file should say. |
| PageState.Stored | os/fs/inode.c:721-732 | A write into a cached page is the write to the file, and no other page of it is touched. |
| PageCache.Cache.Evict | os/fs/inode.c:19-49 | The page acquired longest ago goes, no other, and no byte changes. |
| PageCache.Cache.LruAdjust | os/fs/inode.c:80-93 | A listed page comes to the front, the others keep their order. |
| PageCache.Cache.Acquire | os/fs/inode.c:95-157 | The entry of the page, which is then the most recent; the least recent one goes only when all are in use. |
| PageCache.Cache.ReadI | os/fs/inode.c:620-658 | The bytes at the offset as last written, as far as the file goes, through any evictions; past 2^32 it goes on from the front and extends the file to its last page. |
| PageCache.Cache.WriteI | os/fs/inode.c:699-736 | The file as its writer sees it is overwritten at the offset and nowhere else, extended if need be; with an end past 2^32 it becomes what 32-bit positions make of it. |
| PageCache.Cache.Release | os/fs/inode.c:221-250 | The pages asked for are gone, the others as they were, and the files on disk are as written. |
| PageCache.ReadBack | os/fs/inode.c:620-736 | What is written is what is read at the same place. |
| PageCache.AroundWithin | os/fs/inode.c:635-656 | Within the file what a read gives are just the bytes at its offset. |
| PageCache.ReadLengthRight | os/fs/inode.c:626-631 | readi cuts the length to the file's end if and only if the end of the stretch fits 32 bits. |
| PageCache.ReadLengthWrong | os/fs/inode.c:626-631 | A file of two bytes of which nearly 4 GiB are read. |
| PageCache.WriteRight | os/fs/inode.c:699-736 | What writei makes of a file is what a write should make of it if and only if the end of the stretch fits 32 bits. |
| PageCache.WriteWrong | os/fs/inode.c:699-736 | Two pages written at the end of 4 GiB, of which the first is lost and the second goes to the front of the file. |

## Findings

Properties the code does not have on all inputs, each with the exact condition and an input.

| property | fails when | condition | witness |
|---|---|---|---|
| A mounted volume's areas are in order | the size of the system area overflows 32 bits | `FatMount.MountedSound` | `FatMount.OverflowAccepted` |
| The count after f_getfree is exact | a reserved entry of a FAT16 or FAT32 table is 0 | `FatVolume.Volume.GetFree`, `FatChain.ScanIsFreeCount` | `FatChain.ScanCanBeWrong` |
| CREATE_LINKMAP maps every file | the end mark is the last cluster plus one | `FatLinkMap.CreateLinkMap` | `FatLinkMap.EndLooksNext` |
| mmap fails cleanly | MAP_FIXED inside a region with one slot left, or beginning past MAXVA | `Mmap.Mmap` (`MayPanic`) | `Mmap.PanicsExist` |
| munmap works on a full table | its first page splits a region | `Mmap.Munmap` | `Mmap.MunmapPanicExists` |
| mmap of a positive length maps something | the length in pages is a multiple of 2^32: it succeeds, and a region without pages takes a slot | `Mmap.LengthLost`, `Mmap.Mmap` | `Mmap.LostLengthExists` |
| munmap removes all pages of its range | the range has 2^20 pages or more, of which only the remainder by 2^20 is removed | `Mmap.PagesShort` | the same, 2^20 pages |
| clone without memory fails cleanly | the child has its page table and the frames do not suffice: the exits of uvmcopy and uvmmap_dup unmap a page that is not mapped, or freeproc meets the trap frame | `VmProcess.Clone` (`Panic`) | `VmProcess.CloneDear` |
| proc_pagetable without memory gives everything back | no frame, or exactly three | `VmProcess.ProcPagetable` | the same, three frames |
| No process is on two harts | state and lock are read apart, as compiled code may | `Harts.NeverTwice` for one step | `Harts.SplitTestRunsTwice` |
| pipe_readable sees the bytes there are | the writing counter has wrapped and the reading one has not | `Pipe.ReadableRight` | `Pipe.ReadableWrong` |
| readi stops at the end of the file | offset plus length is 2^32 or more | `PageCache.ReadLengthRight` | `PageCache.ReadLengthWrong` |
| writei writes what it is given where it is told | offset plus length is 2^32 or more | `PageCache.WriteRight` | `PageCache.WriteWrong` |

A file grown by seeking has unspecified bytes; the page cache shows zeros for them while the page
is cached and what the disk holds after it went, so `PageCache` promises nothing about them until
they are written. f_truncate can leave the private buffer on a sector that is no longer the
file's; `FatFile.Fil.DropBuf` shows that its write-back harms no other file.

## Left out

- FatFile.Fil.Write: disk errors and the branch with a link map are not modelled; with a map the file could not grow past it.
- FatFile.Fil.Read: disk errors are not modelled; the branch with a link map is `FatLinkMap.FindSectorByMap`, not joined to the loop.
- FatLinkMap.FindSectorByMap: one sector boundary of f_read with a map; the loop around it is not joined to it.
- FatFile.Fil.Open: the path lookup of f_open and its creation of files are not modelled; a directory entry's fields come as parameters.
- FatFile.Fil.Sync: the directory entry f_sync updates is not modelled.
- FatState.OthersKept: says nothing of a private buffer another open file holds back; that is `FatSharing.OtherStays`.
- FatSharing.OtherStays: not for a file just truncated, whose buffer may be on a sector it has given up.
- FatMount.MountedSound: finding the partition and reading FSInfo at mount are not modelled.
- FatDirectory.DirAlloc: does not stretch the table when it is full.
- FatDirectory.DirRegister: numbered short names are not made; the short name given is free.
- FatDirectory.DirRead: tables with name entries that belong to no file (orphans) are not laid out by `Lays` and so excluded; the same for `DirFind`.
- FatDirectory.DirFind: see DirRead.
- FatDirectory.CreateThenFind: the short name is free and the table is not stretched.
- FatDirectory.CreateFindRemove: as CreateThenFind.
- FatDirWalk.Dir.Sdi: the fixed root table of FAT12 and FAT16 is not modelled.
- FatDirWalk.Dir.Walk: as Sdi, and without stretching.
- FatDirWalk.Dir.Next: the fixed root table of FAT12 and FAT16 and stretching are not modelled.
- exFAT, TRIM, f_mkfs, volume labels and string functions of ff.c: not in this build or easy.
- VirtioRuns.RunIsSafe: the device completes every request with status 0; what a buffer's holder may touch is a step of its own, since the buffer's mutex keeps others away.
- VirtioDriver.Disk.Intr: the device's index stands still while the handler runs.
- VirtioDriver.Disk.Begin: the loop around a failed allocation is a failed step tried again.
- VmProcess.Clone: memory shared across clone is not modelled; the panic of an out-of-memory exit ends the model's run where the exit begins; no frame gets more than 255 references.
- VmProcess.CopyRange: of its out-of-memory exit it is stated that a page of the range is not mapped, on which the unmapping that follows panics, not what the pages before it hold.
- VmProcess.Teardown: memory shared across clone is not modelled, and the contents of the remaining frames are not stated.
- VmKernel.Kmem.UvmUnmap: the entry is cleared before the frame is put back, where the code does it after; the two are different memory.
- Mmap.Mmap: there are fewer than 2^20 frames; the pages of a file come as a parameter; the array of `npages` pointers on the kernel stack of 64 KiB (os/proc/proc.c:749), which more than 8192 pages overrun, and the page-cache entry left locked when no frame is found for a page of a file (os/proc/proc.c:773-777) are not modelled.
- Mmap.EmptyCovers: calls on a table that holds a region without pages are not modelled, the table being no longer sorted.
- MapTable.Table.Add: looks for an overlap on one side only, as the code does; the other side is the caller's.
- The kernel's own page table, booting, and swapping of harts are not modelled.
- Harts.ScanPicks: strides have no width here, so that one of 2^64 - 1, which the loop never picks, is a candidate; `Stride.Pool.Pick` has the 64 bits.
- Harts.NoDeadlock: that a particular hart gets on needs fair locks, which are not modelled; the same for the other NoDeadlock lemmas.
- SleepMutex.NoLostWakeup: wakeups of other targets are left to the steps of kill, which wake anyone.
- BufferCache.Cache.DiskRead: one process at a time; concurrent use is `SharedBuffers`, where each sector is read and written as a whole and the choice of the victim is any unreferenced buffer.
- PageCache.Cache.ReadI: one process at a time, without f_truncate and with room on the disk; no page of the cache is shared, as in this build.
- PageCache.Cache.WriteI: as for ReadI; a failing copy from the user is not modelled.
- PageCache.Cache.Release: the inode references that eviction drops are not counted.
- Pipe.Pipe.PipeRead: a failing copy to the user, which loses the bytes taken, is not modelled.
- Stride.Pool.Run: one hart, always the same runnable processes, no wrap of 64 bits.
- exit, wait and the loops over the pool in reparent: only the state changes they make are steps of `Harts`.
- Console, SD card, timers, system calls and user programs: not modelled.

# Verification of the FatFs volume engine and of the firmware's own protocols

This project models, in Dafny, the parts of the repository whose correctness is hard to see, and proves what
they are for:

* the FAT12/16/32 and exFAT volume engine of `ext/fatfs/source/ff.c` in its read/write configuration with
  512-byte sectors, long names, exFAT, fast seek, find and mkfs: a one-sector write-back window, packed FAT
  entries, cluster chains, deferred exFAT chains, files with their own sector buffer, the seek index, directory
  entries and names, free-space scans, formatting and mounting;
* the tiny `printf` and the console's line editor of zone 2 (harts 1 to 3 use the same editor);
* the one-slot mailbox between harts, and hart 4's robot controller.

`dafny verify dfyconfig.toml` checks the whole project.

## How the model is built

The model follows the code function by function. `Volume.FATFS` is the class of the volume (drive contents, `win`,
`winsect`, `wflag`, `free_clst`, `last_clst`, FSInfo flag), `File.FIL` that of an open file, `Directory.DIR` that of a
directory object; the C functions are methods on them with the same branches, loops and error returns. Ghost state
says what the volume is meant to hold: the cluster list of every object (`chains`) and the clusters that hold
metadata (`sys`). `View()` is the *logical volume*: the drive with the dirty window laid over it. Most results are about
`View()`, so they hold whatever is dirty.

The drive may fail at any call. A failing read returns nothing; a failing write leaves the addressed sectors with any
contents. `faulted` records that a call has failed; error returns are then allowed and the results say what still holds.

| files | contents |
|---|---|
| `Arith`, `Bytes` | arithmetic and byte-sequence facts |
| `Layout`, `FatTable`, `Volume`, `FatAccess` | geometry, packed entries, window, get_fat and put_fat |
| `Bitmap`, `Chains`, `Deferred`, `ChainOps` | bitmap scans, unions of chains, deferred exFAT links, create_chain, remove_chain on FAT12/16/32 |
| `History`, `Removal` | the life of an exFAT object, remove_chain on exFAT |
| `FileData`, `ClusterMap`, `File`, `Seek`, `Files`, `LinkMap`, `Loader` | contents of files, lookup in a link map, f_read, f_write, f_lseek, other files, making a link map and seeking with it, the boot loader's f_load |
| `DirEntry`, `Info`, `Sync` | directory entry of a file, FSInfo sector, f_sync, sync_fs |
| `Directory`, `Lfn`, `DirFind`, `Pattern`, `NameForm` | dir_sdi, dir_next, long names, dir_find, patterns, name parser and printer |
| `Tables`, `Register` | a directory table as a sequence of entries; dir_next with stretching, dir_alloc, dir_register |
| `Free`, `Mount`, `Mkfs`, `Format`, `Remount` | f_getfree, mount_volume, f_mkfs, from one session to the next |
| `OnDisk` | where numbers stand on the drive |
| `Printf`, `PrintfText`, `LineEditor` | zone 2; what a format means, stated on its text |
| `OwiSequence`, `Robot`, `RobotRuns`, `Mailbox` | hart 4, what comes of its messages over whole runs, and the mailbox |

Conventions: masks and shifts are written as `%` and `/` (`x & (csize - 1)` is `x % csize`, `csize` being a power of
two); two nested bit loops of `find_bitmap`, `change_bitmap` and `f_getfree` are one loop with a bit number; the
caller's buffer of f_write is a sequence, that of f_read an array; `ff_wtoupper` and the OEM conversions are function
parameters with the few facts needed (0 maps only to 0, and so on).

## What the proofs rely on

* Mounting does not compare the volume size in the boot sector with the size of the drive; `Mount.MountedOk` takes the
  volume to lie on the drive.
* While `n_frag` is not 0, `get_fat` is asked at the growing edge or inside the first fragment (`Chains.Answers`,
  ff.c:1178-1184), the only places where it is right (`Chains.NextExactly`); the callers proved here keep to that.
* The count of free clusters remembered on the volume, when there is one, is right when mounting (`Chains.CountOk`);
  every operation keeps it right, and what sync_fs leaves on the drive is right again (`Remount.RememberedIsRight`).
* The mailbox is claimed under sequential consistency, its peer being a mirror of the macros. The two stores of the
  sequence pointer and of its size in `owi_sequence_start` are less than 100 ms apart, and the clock is far from its end
  (`Robot.Prompt`).
* A pattern has fewer than 2^32 characters, so that the count of its question marks does not wrap round.
* printf: the format does not end inside a conversion (`Printf.Complete`), no string argument has 2^32 characters or
  more, `char` is unsigned. A missing argument, undefined in C, reads as 0 or the empty string.
* The editor's trim reads the byte before the line when the line is empty; that byte is taken not to be a space
  (apps/hart1/main.c:349).

## What turned out not to hold

* `find_bitmap` can return a run over the end of the bitmap, where there is none (`Bitmap.StraddlingRun`), and it can
  report that there is none because its only run has the start of the scan inside it (`Bitmap.MissedRun`). Its answer is
  right exactly when neither happens (`Bitmap.RightUnless`); from cluster 2, or for a single cluster, it always is
  (`Bitmap.LowestRun`, `Bitmap.FirstFree`).
* `f_lseek(CREATE_LINKMAP)` fails with an internal error on a well-formed chain exactly when the end mark reads as the
  number behind the last cluster (`LinkMap.CreateLinkMap`). With the marks that this code writes that is the case for
  the last cluster of the largest exFAT volume and no other (`LinkMap.EndMarkAbove`, `LinkMap.MapFailsAtVolumeEnd`); on
  FAT12/16/32 it takes the mark n_fatent, written by others (`LinkMap.MapFailsAtForeignMark`).
* In fast seek mode f_write does not give a file that has clusters any more of them (`File.Write`), and after a map was made
  for an empty file that was then written to, every fast seek but to 0 fails with an internal error
  (`LinkMap.FastSeek`).
* `pattern_match` counts question marks in the bits below the one that stands for a star, and refuses patterns with more
  wildcard terms than recursions: 256 question marks accept the name "a" (`Pattern.ManyOnesAccepted`), "*a*a*a*a*"
  refuses "aaaa" (`Pattern.FiveTermsRefused`). It is right for every name exactly when there are at most four terms with
  fewer than 256 question marks each (`Pattern.RightExactly`), and in all other cases does what
  `Pattern.PatternMatch` says.
* put_lfn takes a character U+FFFF of a name for filling and drops what follows in the entry (`Lfn.StorableExactly`).
  `create_name` takes it over from a path that has it (`NameForm.CreateName`), which code page 437 cannot express.
* On exFAT, remove_chain leaves the last run of consecutive clusters marked as used exactly when the end mark is the
  number of the last cluster plus one (`Removal.LastRunKept`, ff.c:1440), so on the same volume (`Removal.LastRunLost`).
* Mounting accepts FAT sizes whose 32-bit product or sum overflows (ff.c:3470), and then takes the data area to begin
  inside the FATs (`Mount.WrappedAccepted`); the geometry is sound exactly when nothing overflows (`Mount.MountedOk`).
* f_mkfs may report success for a volume without any cluster, which cannot be mounted
  (`Format.FormattedWithoutClusters`); `Format.HasCluster` says for which sizes and options, `Format.MkfsMounts` that
  this is the only obstacle.
* f_getfree counts the two reserved FAT16/32 entries too if they are zero (`Free.CountedLinks`, `Free.CountedTooMany`).
* `%#x`, `%#o` and `%#b` do not show the number when digits give way to the prefix or the prefix is cut off
  (`Printf.HashReads`, `Printf.HashDropsDigits`); a minus sign is lost exactly when zeros fill the digit buffer
  (`Printf.PrintedIntegers`, `Printf.SignLeftOut`).
* Integer conversions with `ll` print nothing in this configuration and do not consume their argument (`Printf.LongLongDropped`), and
  `%b` prints the low 32 bits (`Printf.PrintedBinary`).
* `f_load` reports success for an image that it does not copy (`Loader.Load`).
* A FAT32 volume with one reserved sector is mounted although its FSInfo sector is then the first sector of the FAT
  (`Mount.InfoPlaced`); what is said about that sector is for volumes where it lies in front of the FAT.
* With the flag `-` an integer conversion of printf leaves out the zeros that its precision asks for
  (`PrintfText.IntegerText`).
* A device that is disconnected when the timer of a sequence falls due, and connected again before the main loop of hart
  4 looks, leaves a sequence without a timer: it counts as running, so "start" and manual commands are refused, and
  "stop" does not end it (`RobotRuns.StalledHolds`, `RobotRuns.StallReached`). A sequence timer that falls due in the
  middle of a start makes the start fail (`RobotRuns.StartLost`); `RobotRuns.StartHandled` says when it succeeds.

## Model

| member | source | states |
|---|---|---|
| Volume.FATFS.SyncWindow | ext/fatfs/source/ff.c:1027-1045 | Writing back the window does not change the logical volume (the drive with the dirty window laid over it); when it succeeds the window is clean and the second FAT gets the sector too. |
| Volume.FATFS.MoveWindow | ext/fatfs/source/ff.c:1049-1070 | After success the window holds the addressed sector of the logical volume, and neither the logical volume nor the FAT has changed, whatever was dirty before. |
| Volume.FATFS.StoreWindow | ext/fatfs/source/ff.c:1049-1070 | A store through the window splices exactly those bytes into one sector of the logical volume. |
| FatTable.StoredEntry | ext/fatfs/source/ff.c:1206-1260 | Reading an entry after storing v gives v cut to 12, 16, 28 or 31 bits; FAT32 keeps its top four bits. |
| FatTable.StoredOthers | ext/fatfs/source/ff.c:1206-1260 | Storing one entry leaves every other entry as it was, also the 12-bit neighbour that shares a byte and entries across a sector boundary. |
| FatTable.StoredLinks | ext/fatfs/source/ff.c:1206-1260 | As a whole: the FAT as a sequence of links is updated at one place. |
| FatTable.FirstByteStored12 | ext/fatfs/source/ff.c:1216-1232 | Half of a FAT12 store, as left by a drive failure between its two bytes, does not touch other links. |
| FatAccess.GetFat | ext/fatfs/source/ff.c:1133-1201 | get_fat answers the link on the logical volume, or what the chain status of an exFAT object stands for; nothing changes; 0xFFFFFFFF only after a drive failure. |
| FatAccess.PutFat | ext/fatfs/source/ff.c:1206-1260 | put_fat changes one link of the logical FAT, and nothing outside the FATs; after a failure all other links are still as before. |
| Bitmap.FindBitmap | ext/fatfs/source/ff.c:1276-1309 | The result is the first run of ncl free clusters in cyclic order from the start, in the order in which the scan counts. |
| Bitmap.FirstFree | ext/fatfs/source/ff.c:1276-1309 | For one cluster, from any start: the cyclically first free cluster, and 0 exactly when none is free. |
| Bitmap.LowestRun | ext/fatfs/source/ff.c:1276-1309 | From cluster 2, for any ncl: the lowest run of ncl free clusters, and 0 exactly when there is none. |
| Bitmap.RightUnless | ext/fatfs/source/ff.c:1276-1309 | For every bitmap, start and ncl: the answer is a free run, and 0 means that there is none, if and only if the first run of the scan does not go over the end of the bitmap, and the scan has not missed every run for having started inside it. |
| Bitmap.StraddlingRun | ext/fatfs/source/ff.c:1296-1304 | A bitmap where the scan returns a run over the end of the bitmap though there is none. |
| Bitmap.MissedRun | ext/fatfs/source/ff.c:1296-1304 | A bitmap where the scan reports no run although there is one, which the start position is inside. |
| Bitmap.ChangeBitmap | ext/fatfs/source/ff.c:1316-1345 | On success exactly the bits of the run are flipped; it stops with an internal error exactly at the first bit that already has the value, the bits before it being flipped. |
| Bitmap.FlippedBits | ext/fatfs/source/ff.c:1330-1338 | Flipping one bit of one byte of the bitmap flips the bit of one cluster and no other. |
| Chains.GrownFat | ext/fatfs/source/ff.c:1544-1575 | Linking a free cluster behind the end of one chain, or alone, keeps the FAT a union of disjoint chains that ends with that chain one longer. |
| Chains.GrownCount | ext/fatfs/source/ff.c:1576-1582 | The number of free clusters falls by one. |
| Chains.CutFat | ext/fatfs/source/ff.c:1421-1480 | Freeing the rest of a chain keeps the FAT a union of disjoint chains, that chain cut. |
| Chains.NextInList | ext/fatfs/source/ff.c:1169-1193 | get_fat leads from every cluster of the denoted list to the next and at the end to an end mark, for contiguous, just fragmented and chained exFAT objects and on FAT12/16/32. |
| Chains.NextExactly | ext/fatfs/source/ff.c:1178-1184 | For every exFAT object of the right size: get_fat gives the next cluster of the list if and only if no last fragment is pending, or the cluster is one of the first fragment but its last. |
| ChainOps.CreateChain | ext/fatfs/source/ff.c:1496-1587 | On FAT12/16/32 and exFAT: follows the list, or appends a previously free cluster to it, keeping all lists disjoint and the count of free clusters right; 0 exactly when no cluster is free. A changed count is marked for the FSInfo sector. |
| ChainOps.AllocFat | ext/fatfs/source/ff.c:1544-1575 | FAT12/16/32: the search goes round once, and "full" means that no cluster is free. |
| ChainOps.AllocExFat | ext/fatfs/source/ff.c:1519-1543 | exFAT: the first free bit behind the cluster is taken and the object denotes its list with the new cluster appended. |
| ChainOps.RemoveChainFat | ext/fatfs/source/ff.c:1401-1487 | Ends on any FAT; on a valid volume it frees exactly the rest of the chain and keeps the volume valid; a changed count is marked for the FSInfo sector. |
| ChainOps.FreeLinks | ext/fatfs/source/ff.c:1421-1480 | The loop turns one non-zero link into zero each round, so it ends whatever the links are. |
| Deferred.AppendedDenotes | ext/fatfs/source/ff.c:1519-1543 | Whatever the state of an exFAT object (contiguous, just fragmented, chained with pending links), after appending the new state denotes the old list with the cluster at its end. |
| Deferred.FlushLast | ext/fatfs/source/ff.c:1375-1390 | Writing out the last fragment leaves the denoted list the same, with nothing pending. |
| Deferred.FlushFirst | ext/fatfs/source/ff.c:1352-1368 | Writing out the first fragment turns a just fragmented object into a chained one with the same list. |
| Deferred.FlushedIsSpelled | ext/fatfs/source/ff.c:1352-1390 | After both, the FAT links spell exactly the list, end mark included. |
| History.HistoryDenotes | ext/fatfs/source/ff.c:1352-1587 | For every history of appends and flushes of an exFAT object: its status and the FAT denote one list, the clusters appended in their order, and no link outside it has changed. |
| History.HistorySpelled | ext/fatfs/source/ff.c:1352-1587 | After fill_first_frag and fill_last_frag at the end of any history of a new object, the FAT spells exactly the clusters appended, unless the object is contiguous. |
| Removal.RemoveChainEx | ext/fatfs/source/ff.c:1401-1487 | exFAT: on a valid volume exactly the rest of the list is marked free, the count follows, and the object denotes what is left, whatever its status was; if the end mark reads as the number behind the last cluster, the last run of consecutive clusters stays marked as used. |
| Removal.FreeRuns | ext/fatfs/source/ff.c:1425-1458 | The loop ends whatever the FAT says, and frees run by run the clusters that get_fat leads through. |
| Removal.RestDenoted | ext/fatfs/source/ff.c:1460-1484 | The status that is chosen at the end (initial, contiguous again, or as before) and the FAT denote the part of the list that stays. |
| Removal.LastRunKept | ext/fatfs/source/ff.c:1440 | The last cluster of the removed list stays marked as used if and only if the end mark is its number plus one. |
| Removal.LastRunLost | ext/fatfs/source/ff.c:1440 | On the largest exFAT volume that happens: a proper call, for the file in the last cluster, that frees nothing. |
| ChainOps.FillFirstFrag | ext/fatfs/source/ff.c:1352-1368 | The loop writes exactly those links. |
| ChainOps.FillLastFrag | ext/fatfs/source/ff.c:1375-1390 | The loop writes exactly those links. |
| File.Write | ext/fatfs/source/ff.c:4050-4162 | The bytes reported as written replace those at the cursor, the cursor moves behind them, the file grows as needed, all other bytes of the file stay, despite the dirty sector buffer, direct transfers and chain growth, with or without a link map. All bytes are written, or on FAT12/16/32 those that fit below 4 GiB, so that the cursor ends at 2^32 - 1; fewer only when the clusters of the file are full and no cluster is free, or the file is in fast seek mode, in which it gets no more clusters. |
| File.Read | ext/fatfs/source/ff.c:3950-4040 | Exactly content[fptr..fptr+br] is put into memory, br is the number asked for clipped at the end of the file, no other byte of memory and no byte of the file changes; with or without a link map. |
| File.MappedCluster | ext/fatfs/source/ff.c:3981-3983 | The cluster change of f_read and f_write in fast seek mode: the link map gives the cluster at the cursor, and 0 exactly when the cursor is behind the last cluster. |
| File.FIL.constructor | ext/fatfs/source/ff.c:3870-3935 | A file as f_open leaves it satisfies the invariant that the others rely on. |
| Seek.Seek | ext/fatfs/source/ff.c:4544-4618 | The cursor goes to the target, which on FAT12/16/32 is at most 2^32 - 1 and for a file open for reading only at most its size, no byte changes, and the cursor stands in the cluster that a walk from the first cluster reaches, also when the seek continues from the current cluster; a file open for writing is stretched, up to where the volume is full, and is then marked as modified. |
| Seek.KeptPrefix | ext/fatfs/source/ff.c:4567-4599 | The bytes a file had before it was stretched are the same. |
| Files.OtherFileKept | ext/fatfs/source/ff.c:3950-4162 | Whatever f_read, f_write or f_lseek did to one file: a different open file has the same contents and still satisfies its invariant, and its link map still fits. |
| Files.OtherContent | ext/fatfs/source/ff.c:3950-4162 | The contents of another file, its own dirty buffer included, do not depend on sectors of this one. |
| Loader.Load | apps/hart0/boot/e51.c:238-259 | f_load copies the whole image into its region and changes no other memory; it reports success, too, for an image that is empty, too large or that of zone 1, and then copies nothing. |
| Sync.SyncFile | ext/fatfs/source/ff.c:4171-4241 | f_sync on FAT12/16/32: if no drive call failed, the drive alone holds the contents, the chain and a directory entry with the first cluster and size. |
| Sync.SyncLinks | ext/fatfs/source/ff.c:4171-4210 | f_sync on exFAT: all deferred links are written. |
| Sync.SyncedSpells | ext/fatfs/source/ff.c:4171-4210 | Then the FAT spells the list of the object, unless it is contiguous. |
| Sync.SyncFs | ext/fatfs/source/ff.c:1080-1106 | Without a drive failure the drive holds what the volume logically held, apart from the FSInfo sector; nothing is left to be written there, and the free count in it is the one remembered. |
| Info.FsInfoLoads | ext/fatfs/source/ff.c:1085-1097 | Mounting accepts the FSInfo sector that sync_fs writes and reads the same two numbers. |
| Remount.RememberedIsRight | ext/fatfs/source/ff.c:3516-3534 | When everything has been written, on any FAT12/16/32 volume that has kept its promise about the FSInfo sector, the free count that mounting takes from the drive is none or the number of free clusters of the same lists. |
| Remount.SyncAndMount | ext/fatfs/source/ff.c:1080-1106 | sync_fs, then mounting: if no drive call fails, a valid volume with the same FAT and the same lists. |
| Remount.WriteSyncMount | ext/fatfs/source/ff.c:4050-4241 | f_write, f_sync, then mounting: if no drive call fails, a valid volume on which the clusters of the file hold its contents with the bytes written. |
| DirEntry.SyncedLoads | ext/fatfs/source/ff.c:4222-4234 | The entry f_sync stores reads back as the same first cluster and size; only the archive bit and the dates change besides. |
| Sync.EntryOnlyData | ext/fatfs/source/ff.c:4222-4234 | Storing a directory entry changes no byte of a file. |
| LinkMap.CreateLinkMap | ext/fatfs/source/ff.c:4493-4518 | The table gets the runs of the chain if it is large enough, else the size needed; an internal error exactly when the end mark reads as the number behind the last cluster. |
| ClusterMap.LookupRuns | ext/fatfs/source/ff.c:1599-1617 | Looking up cluster number i in the runs gives cluster i of the chain, and 0 behind its end, for every chain. |
| ClusterMap.ClmtClust | ext/fatfs/source/ff.c:1599-1617 | clmt_clust(ofs) is the cluster that following the chain ofs / cluster size times reaches, or 0. |
| LinkMap.MapFailsAtVolumeEnd | ext/fatfs/source/ff.c:4507 | On the exFAT volume with the most clusters possible a one-byte file in the last cluster is well formed, and get_fat answers the number behind its cluster, whatever the FAT holds. |
| LinkMap.EndMarkAbove | ext/fatfs/source/ff.c:4507 | For every volume and cluster: the end mark that this code writes reads as the number behind the cluster if and only if that is cluster 0x7FFFFFFE on exFAT; otherwise it is above it. |
| LinkMap.MapFailsAtForeignMark | ext/fatfs/source/ff.c:4507 | On FAT12/16/32 a chain that ends in the last cluster with n_fatent itself as its mark, which this code never writes, has the same effect. |
| LinkMap.FastSeek | ext/fatfs/source/ff.c:4519-4540 | A fast seek lands where a walk would, clipped at the end of the file, without changing a byte; an internal error if and only if the map was made while the file was empty and the target is behind its first byte. |
| Directory.DirSdi | ext/fatfs/source/ff.c:1668-1707 | Succeeds at entry ofs / 32 exactly when the table has it (and no drive call failed), for static and chained tables. |
| Directory.DirNext | ext/fatfs/source/ff.c:1716-1767 | From entry k to entry k + 1 if the table has it; otherwise the object is disabled. |
| Directory.StepTo | ext/fatfs/source/ff.c:1668-1767 | dir_sdi(0) and n times dir_next succeed exactly when entry n exists. |
| Directory.StandsOnce | ext/fatfs/source/ff.c:1668-1767 | Offset, cluster, sector and place in the window are determined by the entry number, so both ways reach the same. |
| Lfn.SumSfn | ext/fatfs/source/ff.c:2024-2035 | The loop computes the rotating sum of the eleven bytes. |
| Lfn.PutLfn | ext/fatfs/source/ff.c:1930-1955 | The entry becomes part number ord of the name: 13 characters, terminator and filling, marks and checksum; for texts with U+FFFF in them, too, it is said what it becomes. |
| Lfn.CmpLfn | ext/fatfs/source/ff.c:1856-1884 | True exactly when the part in the entry matches the buffer up to case. |
| Lfn.PickLfn | ext/fatfs/source/ff.c:1892-1921 | For every entry: it is accepted if and only if its cluster field is zero, only filler follows the terminator and its characters fit into the buffer; then exactly its characters, and a terminator behind a full last part, have been put in their places. |
| Lfn.StorableExactly | ext/fatfs/source/ff.c:1930-1955 | For every text of up to 255 characters: put_lfn makes the entries of that name if and only if U+FFFF, which it takes for filling, is in it only at the end of a full last entry. |
| Lfn.PickName | ext/fatfs/source/ff.c:1892-1955 | For every name of 1 to 255 characters without U+FFFF, multiples of 13 included: picking up the entries that put_lfn made gives the name. |
| Lfn.MatchIsSame | ext/fatfs/source/ff.c:1856-1955 | All parts match exactly when the searched name equals the stored one up to case. |
| DirFind.DirFind | ext/fatfs/source/ff.c:2388-2425 | On FAT12/16/32: stops at the first short entry that the declarative specification selects, and reports "no file" only after all entries up to the end of the table. |
| DirFind.LongStepTracks | ext/fatfs/source/ff.c:2405-2413 | One step of the ord/sum scanner tracks exactly the runs of long entries in progress. |
| DirFind.LongTest | ext/fatfs/source/ff.c:2414-2416 | The test ord == 0 and matching checksum holds exactly when a complete matching run precedes the short entry. |
| DirFind.OneRun | ext/fatfs/source/ff.c:2405-2413 | At most one run is in progress, so one ord and one sum suffice. |
| DirFind.StoredIsFound | ext/fatfs/source/ff.c:2495-2510 | Entries in dir_register's order with the checksum of the short name are matched exactly when the given name equals the stored one up to case. |
| DirFind.LongEntries | ext/fatfs/source/ff.c:2495-2507 | The loop of dir_register stores the parts last first. |
| Tables.EntriesAreTable | ext/fatfs/source/ff.c:2388-2425 | The entries that dir_find walks over are the first ones of the table. |
| Tables.EntryStored | ext/fatfs/source/ff.c:2516-2527 | Storing 32 bytes at the place of entry k changes that entry of the table and no other. |
| Tables.MountedRoot | ext/fatfs/source/ff.c:3461-3511 | The root table of every FAT12/16 volume that mounting accepts lies in whole sectors between the FATs and the data. |
| Register.DirNextStretch | ext/fatfs/source/ff.c:1716-1767 | With stretching: the table grows by one cluster of blank entries and nothing else changes but the FATs; DENIED only when no cluster is free. |
| Register.DirClear | ext/fatfs/source/ff.c:1629-1658 | The cluster is filled with zeros and nothing else of the logical volume changes. |
| Register.DirAlloc | ext/fatfs/source/ff.c:1777-1808 | Stands at the end of the first block of n free entries in a row, for which the table is stretched if need be; DENIED only if there is no such block and the table cannot be stretched: the root table, 65536 entries, or no free cluster. |
| Register.NumberedName | ext/fatfs/source/ff.c:2480-2492 | The numbered short name that the loop settles on is one that no short entry before the end mark has; DENIED only if all 99 stand there. |
| Register.DirRegister | ext/fatfs/source/ff.c:2436-2531 | On FAT12/16/32: in the table, lengthened by blank entries if need be, exactly the first block of free entries is replaced by the parts of the name and the short entry; nothing outside the table changes but the FATs; a numbered name was not taken. DENIED only if all numbered names are taken, or there is no block of free entries and the table cannot be stretched. |
| Register.StillEndMarked | ext/fatfs/source/ff.c:2495-2526 | If there was nothing behind the end mark before, there is nothing behind it afterwards. |
| Register.RegisteredIsFound | ext/fatfs/source/ff.c:2388-2531 | A name that dir_register has stored is found by dir_find, at its entry or an earlier match, for every given name equal to it up to case. |
| Register.FileKept | ext/fatfs/source/ff.c:2436-2531 | Storing a name changes the contents of no file whose clusters are not the table's. |
| Pattern.PatternMatch | ext/fatfs/source/ff.c:2754-2793 | For every pattern, name and recursion allowance: it matches if and only if the allowance covers the wildcard terms and the pattern means the name, a term of 256 or more question marks counting as their number modulo 256 and a star. |
| Pattern.NameMatches | ext/fatfs/source/ff.c:2754-2793 | The test with four recursions; for patterns with fewer than 256 question marks in each term it holds exactly when there are at most four terms and the pattern means the name. |
| Pattern.RightExactly | ext/fatfs/source/ff.c:2754-2793 | The test is right for every name if and only if the pattern has at most four wildcard terms with fewer than 256 question marks each. |
| Pattern.ManyOnesAccepted | ext/fatfs/source/ff.c:2777-2780 | 256 question marks accept the name "a". |
| Pattern.FiveTermsRefused | ext/fatfs/source/ff.c:2775-2776 | "*a*a*a*a*" refuses "aaaa". |
| Pattern.ModestIsMeant | ext/fatfs/source/ff.c:2777-2780 | With fewer than 256 question marks in each term the code takes a pattern for what it is. |
| Pattern.TermMeans | ext/fatfs/source/ff.c:2777-2780 | A wildcard term means its number of question marks and whether it has a star, in any order. |
| Pattern.PlainMeans | ext/fatfs/source/ff.c:2784-2787 | Plain text means itself, case folded. |
| NameForm.CreateName | ext/fatfs/source/ff.c:2816-2931 | The long name is the segment without trailing spaces and dots, 1 to 255 characters, with U+FFFF in it only if the path has it. The 11 bytes are its short form; it counts as lossy, and a long entry is demanded, if and only if the rules of NameForm.ShortName say so; when none is demanded, get_fileinfo shows that name again, case included, from the 11 bytes and the case flags. |
| NameForm.ShortName | ext/fatfs/source/ff.c:2853-2931 | For every name: the 11 bytes are the first eight characters kept before the last dot and the first three behind it, upper-cased, an underscore for what a short name cannot hold, 0x05 for a leading 0xE5; lossy if and only if a space or dot is dropped, a part is too long or empty, or a character has no place; a long entry is demanded if and only if it is lossy, or has extended characters or a part of mixed case; the case flags are exact. |
| NameForm.DemandsExactly | ext/fatfs/source/ff.c:2853-2931 | A long entry is demanded if and only if the name has no short form with a body that shows it. |
| NameForm.ShortFormShows | ext/fatfs/source/ff.c:2657-2691 | What is shown from the short form is the name it was made from. |
| NameForm.PickAltName | ext/fatfs/source/ff.c:2657-2676 | The loop gives the short name as text: body and extension without padding, a dot between them, the first character restored. |
| NameForm.GetFileInfo | ext/fatfs/source/ff.c:2657-2691 | For an entry without a long name: the shown name is that text with its letters in the case that the two flags say, a question mark if it is blank; it is also the alternative name unless the flag byte is zero. |
| Free.GetFree | ext/fatfs/source/ff.c:3608-3696 | All three scans give the number of clusters that no list uses; a remembered count is returned as it is. |
| Free.CountFat12 | ext/fatfs/source/ff.c:3635-3645 | FAT12: walks the entries. |
| Free.CountBitmap | ext/fatfs/source/ff.c:3648-3666 | exFAT: counts zero bits, the last byte only in part. |
| Free.CountFatWide | ext/fatfs/source/ff.c:3667-3686 | FAT16/32: counts zero entries in the raw sectors, the two reserved ones included. |
| Free.ClearIsFree | ext/fatfs/source/ff.c:3632-3686 | Marks that agree with the lists count the free clusters. |
| Free.CountedLinks | ext/fatfs/source/ff.c:3667-3686 | That is the number of free clusters plus the number of reserved entries that are zero. |
| Free.CountedTooMany | ext/fatfs/source/ff.c:3667-3686 | A FAT16 volume with 4086 free clusters for which the scan counts 4088. |
| Mount.MountedOk | ext/fatfs/source/ff.c:3461-3511 | Whatever boot sector is accepted: every cluster stays inside the volume, and the FAT has an entry for every cluster and does not overlap with the clusters, if and only if the sizes do not overflow 32 bits. |
| Mount.WrappedAccepted | ext/fatfs/source/ff.c:3470 | A boot sector that is accepted although two FATs of 2^31 sectors overflow to nothing, so that data and FAT begin at the same sector. |
| Mount.MountVolume | ext/fatfs/source/ff.c:3334-3554 | For an unpartitioned FAT12/16/32 volume: mounting gives a volume with the geometry that the boot sector describes and exactly the counts of the FSInfo sector, marked for writing back or not; NO_FILESYSTEM exactly for a boot sector that is refused; DISK_ERR only if a drive call failed. Partition tables and exFAT boot sectors are outside. |
| Mount.SubType | ext/fatfs/source/ff.c:3482-3492 | The sub-type, the number of FAT entries, and where FAT and data begin, from the numbers in the boot sector: up to 4085 clusters FAT12, up to 65525 FAT16, more FAT32. |
| Mount.InfoPlaced | ext/fatfs/source/ff.c:3516-3534 | The FSInfo sector lies in front of the FAT if and only if the volume is not FAT32 or has more than one reserved sector; with one it is the first sector of the FAT. |
| Mkfs.ChoosePlan | ext/fatfs/source/ff.c:6111-6183 | The layout loop ends for every volume size and option, with an abort or with the layout that the recursive specification gives for that size and those options, which passes all checks of the loop. |
| Mkfs.LayoutAccepted | ext/fatfs/source/ff.c:6117-6183 | Whatever the specification lays out for a type passes the checks of the loop. |
| Mkfs.AcceptedIsSound | ext/fatfs/source/ff.c:6111-6183 | Every layout it accepts is sound: the sub-type fits the cluster count and the FAT has an entry for every cluster. |
| Mkfs.RequestedAligned | ext/fatfs/source/ff.c:6111-6183 | Every layout puts the data area on a multiple of the erase block, is FAT32 or not as allowed, and has the cluster size asked for, or the automatic one doubled or halved once. |
| Mkfs.ClusterBands | ext/fatfs/source/ff.c:6115-6125 | The automatic cluster size by volume size: FAT12/16 from 1 sector below 2 MiB to 64 from 1 GiB, FAT32 from 1 sector below 64 MiB to 64 from 2 GiB. |
| Mkfs.AnySizeRequested | ext/fatfs/source/ff.c:6111-6183 | With both types allowed, the cluster size left open, at most 512 root entries and erase blocks of at most 64 sectors, there is a layout for every volume from 128 to 2^32 - 1 sectors, and one with clusters from 129. |
| Format.MkfsMounts | ext/fatfs/source/ff.c:6190-6224 | mount_volume reads the boot sector as the same sub-type, cluster count, FAT start and data start, if and only if the volume has a cluster. |
| Format.FormattedWithoutClusters | ext/fatfs/source/ff.c:6143-6179 | 128 sectors, FAT, an erase block of 128 sectors: f_mkfs lays the volume out with no cluster, and mounting refuses its boot sector. |
| Format.HasCluster | ext/fatfs/source/ff.c:6143-6179 | For every request: the volume has a cluster if and only if one fits behind the boot sectors, FATs and root directory it asks for and the gap that aligns the data area. |
| Format.WriteVolume | ext/fatfs/source/ff.c:6190-6265 | What is on the drive after formatting: boot sector, FSInfo, FATs, root directory, zero elsewhere in them. |
| Format.FreshVolume | ext/fatfs/source/ff.c:6239-6265 | The FAT of a fresh volume agrees with an empty set of files. |
| Format.FormatAndMount | ext/fatfs/source/ff.c:5812-6265 | f_mkfs, then mounting, if no drive call fails: success if and only if the request can be laid out with a cluster, and then a valid volume with no files, all clusters free but the root directory's, and a right free count on the drive. |
| Printf.Snprintf | apps/hart0/zone2/printf.c:883-890 | For every size, format and argument list: returns the length of the whole text, and the buffer holds its first min(len, n-1) characters, NUL, and behind it what was there. |
| Printf.PrintAll | apps/hart0/zone2/printf.c:577-857 | Every path emits the text at consecutive indices, whatever the size of the buffer. |
| Printf.Convert | apps/hart0/zone2/printf.c:595-848 | One conversion: flags, width, precision and length are read and the specifier's text is emitted. |
| Printf.OutRev | apps/hart0/zone2/printf.c:199-223 | Emits the buffer in reverse with spaces on the side asked for. |
| Printf.NtoaFormat | apps/hart0/zone2/printf.c:227-277 | Zeros, prefix and sign are put on as the flags say, within 32 characters. |
| Printf.NtoaLong | apps/hart0/zone2/printf.c:281-301 | The digits are those of the value. |
| Printf.DigitsDenote | apps/hart0/zone2/printf.c:291-298 | Digits stand for the value modulo base to the 32. |
| Printf.ReadReversed | apps/hart0/zone2/printf.c:199-223 | Reading the emitted digits from the left gives what the buffer stands for. |
| Printf.NumberReadsBack | apps/hart0/zone2/printf.c:227-301 | Reading the text back (spaces, sign, digits) gives the number; the minus sign is lost exactly when the buffer is full. |
| Printf.PrintedIntegers | apps/hart0/zone2/printf.c:660-755 | For %d %i %u %x %X %o without # and for all flags, widths and precisions: reads back as the argument, and the field has the width, each with its exact exception. |
| Printf.SignLeftOut | apps/hart0/zone2/printf.c:264-274 | "%.32d" of -1 has no sign. |
| Printf.PrintedBinary | apps/hart0/zone2/printf.c:660-755 | %b without # and for all flags, widths and precisions: reads back as the low 32 bits. |
| Printf.LongLongDropped | apps/hart0/zone2/printf.c:646-752 | For every integer conversion of the length ll, with any flags, width and precision: it prints nothing and leaves its argument to the next conversion. |
| Printf.LongLongDecimal | apps/hart0/zone2/printf.c:646-752 | %lld is such a conversion, whatever follows. |
| Printf.HashReads | apps/hart0/zone2/printf.c:243-262 | For %x %X %o %b with # and all flags, widths and precisions: the text behind its prefix reads back as the argument if and only if it is zero, or it has at most 32 digits, none of them gives way to the prefix (a number as long as the width or precision), and the prefix itself is not cut by the end of the digit buffer. |
| Printf.HashedReadsBack | apps/hart0/zone2/printf.c:227-301 | The same for the number formatting alone. |
| Printf.HashDropsDigits | apps/hart0/zone2/printf.c:243-249 | "%#4x" of 0x1234 prints "0x34". |
| PrintfText.DirectiveRead | apps/hart0/zone2/printf.c:601-680 | What is read from a conversion specification as written, whatever follows: flags in any order; width and precision from decimal digits (their value, as an unsigned int) or an argument, a negative width asking for the left side and a negative precision being 0; the length; and the arguments left. |
| PrintfText.IntegerText | apps/hart0/zone2/printf.c:684-759 | The text of every integer conversion but those with # on octal, hexadecimal and binary: the digits of the argument, highest first, behind the sign that the flags ask for, with zeros up to the precision, or with 0 up to the width, never past 32 characters, and spaces up to the width on the side asked for; with - there are no zeros. |
| PrintfText.ValueIs | apps/hart0/zone2/printf.c:721-757 | The number printed is the argument, for every number that the length can hold. |
| PrintfText.StringText | apps/hart0/zone2/printf.c:796-820 | %s prints the string, or as many characters as the precision says, with spaces up to the width on the side asked for. |
| PrintfText.CharText | apps/hart0/zone2/printf.c:776-794 | %c likewise prints the character. |
| PrintfText.PercentText | apps/hart0/zone2/printf.c:840-843 | %% prints a percent sign, whatever stands between. |
| PrintfText.PointerText | apps/hart0/zone2/printf.c:822-838 | %p prints 16 upper-case digits. |
| PrintfText.PlainFormatted | apps/hart0/zone2/printf.c:587-594 | Everything but percent signs stands for itself. |
| PrintfText.ZeroPaddedHex | apps/hart0/zone2/printf.c:227-301 | "%0Nx": zeros up to N characters, for every N and argument. |
| PrintfText.Justified | apps/hart0/zone2/printf.c:199-223 | "%Nd" and "%-Nd": the number with its sign on the right and on the left of N characters. |
| LineEditor.Editor.ReadKey | apps/hart0/zone2/main.c:615-701 | One key on the arrays does what it does to the two-sided list editor. |
| LineEditor.KeyKeeps | apps/hart0/zone2/main.c:597-704 | Every key keeps: at most 32 characters, cursor inside, no terminator inside, at most eight non-empty history lines, neighbours different. |
| LineEditor.Undone | apps/hart1/main.c:280-345 | Backspace, or DEL, undoes a typed character, arrows undo each other, left and delete is backspace. |
| LineEditor.TypedAndRecalled | apps/hart1/main.c:337-358 | After any history of bytes, a typed line is handed over without the spaces at its ends, and the up arrow brings it back. |
| LineEditor.HistoryIs | apps/hart1/main.c:348-355 | Whatever bytes have come, the history is the last eight of the lines handed over that are not empty and not the same as the one before. |
| LineEditor.OlderLines | apps/hart1/main.c:305-316 | The up arrow pressed k times shows the k-th latest of those lines, or the oldest of eight. |
| LineEditor.NewerLines | apps/hart1/main.c:317-327 | The down arrow takes the up arrow back. |
| LineEditor.Editor.CloseGap | apps/hart1/main.c:284 | The shifting loop removes one character of the line. |
| LineEditor.Editor.OpenGap | apps/hart1/main.c:338-339 | The shifting loop inserts one character, dropping the 33rd. |
| LineEditor.Editor.TrimLine | apps/hart1/main.c:349-350 | Both loops together trim the line. |
| LineEditor.Editor.Save | apps/hart1/main.c:352-355 | Shifting the eight slots prepends the line to the history. |
| LineEditor.Console.ReadLine | apps/hart0/zone2/main.c:597-704 | With the UART interrupt anywhere between steps: bytes consumed and bytes buffered are the bytes accepted, in order, and the editor is what the consumed bytes make of it. |
| LineEditor.Console.UartIsr | apps/hart0/zone2/main.c:154-164 | The handler appends what fits. |
| LineEditor.Console.Poll | apps/hart0/zone2/main.c:756-763 | Lines handed over and editor state are a function of the bytes consumed. |
| OnDisk.InfoBytes | ext/fatfs/source/ff.c:1085-1097 | Every byte of the FSInfo sector: signatures, free count at 488, last cluster at 492, zeros elsewhere. |
| OnDisk.SyncedBytes | ext/fatfs/source/ff.c:4222-4234 | Every byte of the entry that f_sync writes: archive bit, dates, first cluster at 20 and 26, size at 28, the rest as before. |
| OnDisk.LongBytes | ext/fatfs/source/ff.c:1930-1955 | Every byte of a part of a long name: number, marks, checksum at 13, thirteen characters from 1, 14 and 28 on. |
| OnDisk.ChecksumBits | ext/fatfs/source/ff.c:2024-2035 | One step of the checksum moves every bit down by one place, the lowest to the top, and adds the byte. |
| OnDisk.EntryBytes | ext/fatfs/source/ff.c:1148-1193 | Which bytes and half bytes of the FAT an entry is, for each of the four types. |
| Mailbox.RunSafe | ext/multizone/mss_multizone.h:10-44 | In every interleaving: received messages are a prefix of those sent, at most one in flight, none torn; handled messages are a subsequence of those sent. |
| Mailbox.RunInv | ext/multizone/mss_multizone.h:10-44 | The invariant behind it. |
| Mailbox.AllHandled | ext/multizone/mss_multizone.h:10-44 | Messages do get through: for every list of messages that are not blank there is a run in which all of them are sent, received and handled, in order. |
| Robot.RunSafe | apps/hart4/main.c:107-206 | In every interleaving of main loop and timer interrupt: no sequence runs while a manual command is in force; between messages its stop timer is set, at most 300 ms ahead; no step is read outside its table. |
| Robot.ManualEnds | apps/hart4/main.c:146-165 | A timer interrupt at or after the set time ends the manual command, unless a newly connected device has moved the timer. |
| Robot.RunInv | apps/hart4/main.c:107-206 | The invariant behind both. |
| RobotRuns.StopHandled | apps/hart4/main.c:176 | Over every run: when the main loop is next between messages, a received "stop" has requested the stop, if a device was connected and no manual command in force where the main loop looked. |
| RobotRuns.StopEndsRun | apps/hart4/main.c:176 | Over every run: while a device stays connected, the sequence that is running when a "stop" has been handled ends at the latest with the timer interrupt number CallsToStop that finds its timer due. |
| RobotRuns.StopHolds | apps/hart4/main.c:176 | The request holds until a sequence is started again. |
| RobotRuns.StartHandled | apps/hart4/main.c:178-182 | Over every run: a received "start", "fold" or "unfold" that is let through while no sequence runs has started the sequence of that name from its beginning, its timer being due at once, unless that timer falls due while the variables are stored. |
| RobotRuns.StartLost | apps/hart4/main.c:178-182 | If it does before stop is cleared, the start is lost. |
| RobotRuns.ArmedUntil | apps/hart4/main.c:141-157 | While a device stays connected, the timer of a running sequence stays set, at most five seconds ahead, until it ends. |
| RobotRuns.StepLasts | apps/hart4/main.c:141-157 | Over every run: a step of a sequence lasts at least as long as its table says, unless a sequence is started meanwhile. |
| RobotRuns.ManualHandled | apps/hart4/main.c:184-200 | Over every run: a manual command that is let through is in force afterwards, with its stop timer 200 ms ahead, unless an older stop timer fell due while it was handled. |
| RobotRuns.DisconnectHandled | apps/hart4/main.c:243-252 | Over every run: when the event of a device that is not connected has been handled, the sequence is reset and none runs until the next start. |
| RobotRuns.IdleHolds | apps/hart4/main.c:107-206 | While no sequence is started, none runs. |
| RobotRuns.StalledHolds | apps/hart4/main.c:141-157 | A running sequence that has lost its timer neither advances nor ends, whatever messages come, until a disconnected device is handled. |
| RobotRuns.StallReached | apps/hart4/main.c:141-157 | A run in which that happens: the device is disconnected for one timer interrupt and connected again before the main loop looks. |
| Robot.Hart.TimerHandler | apps/hart4/main.c:119-127 | The handler's loop over the timer table does what the interrupt step of the state machine does. |
| OwiSequence.OwiState.NextStep | apps/hart4/owi_sequence.c:115-127 | Advances to the next step of the table, or reports the end. |
| OwiSequence.StopEnds | apps/hart4/owi_sequence.c:106-127 | After a stop request -1 is returned within size - stepIdx + 1 calls, for any step table, and not before the sequence has come round. |
| OwiSequence.AutoStop | apps/hart4/owi_sequence.c:121-124 | A table whose first step has no duration plays once and stops; one without goes on round and round. |
| OwiSequence.OwnTables | apps/hart4/owi_sequence.c:37-66 | Which of the robot's tables do. |
| OwiSequence.OwiState.GetCmd | apps/hart4/owi_sequence.c:129-136 | The light bit is on exactly until a stop is requested. |

## Left out

- Drivers, register access, the MultiZone kernel, the start-up code of the harts: disk_read and disk_write are operations on an array of sectors that may fail.
- Partition tables and GPT in find_volume, exFAT in mount_volume and f_mkfs: mounting does not compare the exFAT FAT size with the cluster count, so bounds would be assumptions.
- f_open, f_close, f_unlink, f_rename, f_mkdir and the other functions that only combine the ones modelled; exFAT directory entry sets; volume labels, timestamps, relative paths, f_printf.
- gen_numname: the text of a numbered short name is a function parameter of Register.DirRegister; all that is used is its length and that it does not start with the mark of a deleted entry.
- Register.DirRegister: exFAT entry sets; the directory object is taken to stand on a valid volume, its table being the root table or a list of the volume.
- Removal.RemoveChainEx: claims about the list are for objects without a pending last fragment, which f_lseek writes out before f_truncate can get behind it (ff.c:4485-4489).
- Trimming in remove_chain, which is not configured.
- DBCS code pages and UTF-8/16/32 paths: create_name takes its path as UTF-16 units, and converting an extended character to the OEM code page is an uninterpreted function.
- Sync.SyncFs: when writing the FSInfo sector fails the window no longer stands for the sector it names; the volume is then claimed usable only if no drive call failed.
- File.Write: after a failing drive call only the frame (other files, tables) is claimed, not the bytes of the sectors addressed.
- Robot.RunSafe: that the main loop goes on and looks at a message is not claimed; unread messages may be overwritten. The USB pipe's own state, which main loop and interrupt share, is not modelled.
- Mailbox.RunSafe: no claim that every received message is handled, since the inbox overwrites unread ones; one sender and one receiver per slot.
- LineEditor.Console.Poll: what the command handler does, apart from cutting up and clearing the line, and all terminal output.
- Printf.Snprintf: the conversion of the count to int; floating point, which is disabled.
- msi_isr and the inbox of zone 2, the console commands and banners.

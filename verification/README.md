# FAT storage: a verified model

This project models the FAT12/16/32 engine behind the storage service (FatFs as configured in
`external/fatfs/ffconf.h`: read/write, short names, 512-byte sectors, one volume, four lock slots)
and the service task that uses one file of that volume as an array of 512-byte blocks.
Verify it with Dafny 4.11: `dafny verify dfyconfig.toml`.

## Layers

- `FatTypes`, `BlockDevice`: value types and a disk whose every operation may fail, unless it is
  *reliable*. A failed write leaves any content, on an *atomic* disk the old or the new one. Contracts
  have two halves: what success means on any disk, and that a reliable disk never makes an operation fail.
- `Window`: the one-sector write-back window. Its ghost view `vol` is the logical volume: the disk
  overlaid by the dirty window. Its ghost `promise` names sectors and FAT links that are on the disk and
  stay there, whatever fails, until an operation says that it gives them up.
- `FatEntries`, `FatAccess`: packed FAT entries refine a map from cluster to value.
- `ChainTheory`, `Chains`: the FAT as a set of disjoint terminated chains; allocation and release.
- `ClusterMap`, `FileBytes`, `FileMap`, `FileObject`: an open file with its cursor and private sector
  buffer, and the ghost view of its content.
- `FileRead`, `FileWrite`, `FileSeek`, `FileTruncate`, `FileSync`, `DirEntry`, `FileReopen`: the file
  API, durability, and what a mount after a loss of power reads back.
- `FileSpec`: the byte array with a cursor that every run of the file API refines.
- `VolumePlan`, `BootSector`, `Mount`, `Format`, `FormatMount`, `FreeCount`: formatting, mounting, their
  agreement, and counting free clusters.
- `DirectoryMap`, `Directory`, `DirectorySearch`, `FileOpen`, `ShortNames`: directory tables as maps of
  names, opening and creating a file, 8.3 names.
- `PowerLoss`: what the disk alone tells after a sync, and coming back to it by mounting and opening.
- `Landmarks`: what a mount and a search of the root directory look at, and that it is out of the way of
  a file that grows.
- `FileLocks`, `Service`: the table of open files, and the service task with its flags and answers.
- `Survival`: what can still be read from the disk when an operation failed, or was cut short, at any point.
- `BlockStore`, `StorageRun`, `Sessions`: the request handlers, the block store they refine, and the whole
  way from a disk, blank or not, to the answers, power losses included.

## Main results

1. Any sequence of reads, writes, seeks, truncations and syncs on an open file is a byte array with a
   cursor (`FileSpec.RunOps`), also after a sync that failed; and it leaves every other chain of the
   volume as it was.
2. The service is a block store: a read returns the last full block written with Ok
   (`BlockStore.ReadAfterWrite`, `StorageRun.ServeAll`), a write changes no other block
   (`BlockStore.WriteKeepsOthers`), and its answer is decided by a condition a client can check
   (`BlockStore.WriteAnswer`).
3. A write answered Ok is durable at that moment, on any disk: the disk alone has everything from which
   mounting and opening the file by its name give back its content (`BlockStore.HandleWrite`,
   `PowerLoss.SyncedRemountable`, `PowerLoss.Remount`), for any volume that a mount comes to.
4. Acknowledged blocks survive a failure at any point. If a drive is pulled in the middle of a request,
   between any two sector writes, the file still has every byte it had when the last write was answered
   Ok, or at the start if it was synced then, but for the block that was being written; and on a volume
   of disjoint chains a mount still finds the volume and a search the name (`StorageRun.ServeAll`,
   `Survival.AfterFailure`, `Survival.FoundAfterFailure`). So whatever block a client was told is stored
   is there, in this session or any before (`Sessions.ServeSessions`), and the close at the end of the
   service takes nothing of it away (`StorageRun.ServeAndStop`).
5. What `f_mkfs` formats is what a mount finds (`FormatMount.FormattedMounts`), and the automatic format
   never fails on a working disk of reasonable size (`VolumePlan.ChoosePlan`, `Format.MakeFs`).
6. From a blank working disk the service formats, mounts, creates its file and serves requests; across
   any number of power losses after writes answered Ok it stays one block store
   (`Sessions.ServeFromBlank`). The same holds for a disk formatted elsewhere, starting with the content
   of the file found there (`Sessions.ServeFromVolume`), and for an open file on a disk that may fail at
   any time, up to the failure (`Sessions.ServeSessions`).
7. `create_chain` and `remove_chain` keep the FAT a set of disjoint terminated chains; a free count that
   was right when the volume was mounted stays right, and one that was not changes nothing else. Under
   arbitrary disk errors a store can damage only the entry being written, allocation no other used
   entry, and removal no entry that it does not mean to free (`FatAccess.PutFat`, `Chains.CreateChain`,
   `Chains.RemoveChain`); the free count is not kept exact after such an error.
8. A directory is a map of names (`DirectorySearch.DirRegister`, `DirFind`, `DirRemove`); sequential and
   random access to it agree (`DirectorySearch.SequentialIsRandom`).
9. The lock table never lets a writer share a file, stale handles release nothing, and the service is
   never locked out by itself (`FileLocks`, `Service.Run`).

## Where code and documentation disagree

The model follows the code.

- The block file is open for writing, so `f_lseek` past its end grows it. A block that was never written
  is answered Ok with no bytes, not as an invalid block (`BlockStore.ReadPastEnd`); the comment at
  `app/src/storage/storage_service.c:120` describes only a full volume.
- Block id 0x7FFFFF passes the offset check, but a full write of it stores 511 bytes and fails, since a
  file cannot reach 4 GiB (`BlockStore.LastBlockFails`).
- `fileOpen` can go from true to false (`Service.FileOpenDrops`), against the comment at
  `app/src/storage/storage_service.c:250-254`. Only `mounted` is monotone.
- A read error on the boot sector of the only partition is reported as "no file system", which the
  service answers by formatting. `Mount.ReadErrorForgotten` says exactly when a disk with a volume is
  taken for an empty one. Without read errors the report is right (`Mount.FindVolume`).
- `f_sync` drops its modified mark even if the last flush failed, so the next call reports success
  without doing anything. The report is right exactly if the entry on the disk is up to date all the same
  (`FileSync.SyncAgain`, `FileSync.DurableIff`); `FileSync.GrownAndLost` shows that it can be wrong for
  any file that a write made longer.
- The result of writing FSInfo is ignored. Whatever that leaves in the sector, the file survives, and a
  later mount has a right or unknown free count exactly if the sector says one
  (`PowerLoss.FsInfoLost`); with a count saved earlier it is wrong (`PowerLoss.StaleCount`), and
  `f_getfree` then returns it as it is (`FreeCount.GetFree`).
- The repository's README names FatFs R0.15; the vendored source is R0.12c.

## Model

| member | source | states |
|---|---|---|
| `Window.SyncWindow` | external/fatfs/src/ff.c:883-907 | Success leaves nothing pending; the logical volume (disk overlaid by the dirty window) never changes, whatever fails; on a working disk with copies that were equal at mount every clean FAT sector stays equal in both copies; on an atomic disk every sector is left as it was or as it is in the volume. |
| `Window.WriteMirrors` | external/fatfs/src/ff.c:899-902 | Repeats a FAT sector to the second copy and touches no other sector. |
| `Window.MoveWindow` | external/fatfs/src/ff.c:912-933 | Success means the window holds the logical content of the sector asked for; an error leaves the logical volume as it was and the window either unchanged or invalid. |
| `FatEntries.StoredEntry` | external/fatfs/src/ff.c:1094-1123 | put_fat then get_fat: the value read back is the value written masked to the entry width, for all three FAT types. |
| `FatEntries.StoredOther` | external/fatfs/src/ff.c:1094-1123 | Every other entry reads as before, including the FAT12 neighbour that shares a byte. |
| `FatEntries.HalfStored12` | external/fatfs/src/ff.c:1094-1106 | If the sector move between the two byte stores of a FAT12 entry fails, no other entry is damaged. |
| `FatEntries.HalfValue` | external/fatfs/src/ff.c:1094-1103 | The entry itself is then a mixture: the new low bits below the old high ones. |
| `FatEntries.HalfAny` | external/fatfs/src/ff.c:1094-1103 | Which can be the number of any cluster at all, although neither the old value nor the new one is. |
| `FatEntries.EntryMixed` | external/fatfs/src/ff.c:1094-1123 | An entry that reads the same in two images reads so in every mixture of their sectors, the FAT12 entry that straddles two sectors included. |
| `FatEntries.Pack28RoundTrip` | external/fatfs/src/ff.c:1115-1121 | A FAT32 store keeps the four reserved top bits and loads back the low 28. |
| `FatEntries.ReservedKept` | external/fatfs/src/ff.c:1093-1124 | Storing any entry leaves the bytes of the reserved entries 0 and 1 alone. |
| `FatAccess.GetFat` | external/fatfs/src/ff.c:1001-1070 | Equals the entry of the FAT map, 1 for a number that is no cluster, the error value only after a disk error. |
| `FatAccess.GetFat12` | external/fatfs/src/ff.c:1018-1025 | The two bytes of a FAT12 entry may lie in two sectors, with a window move between the loads. |
| `FatAccess.PutFat` | external/fatfs/src/ff.c:1081-1129 | Refines an update of the FAT map and says which bytes hold the value; nothing outside the FAT and neither reserved entry changes; a failure touches only the bytes of the entry itself, and for FAT16 and FAT32 nothing. Links that were promised to be on the disk stay there. |
| `FatAccess.PutFat12` | external/fatfs/src/ff.c:1093-1105 | The read-modify-write of both bytes, in one sector or two; the bits of the neighbours are kept, and only these two bytes can change even if the move between them fails. |
| `FatAccess.PutFat32` | external/fatfs/src/ff.c:1114-1124 | The same for FAT32: the reserved top four bits are stored back as they were. |
| `Chains.FindFree` | external/fatfs/src/ff.c:1400-1411 | The wrap-around scan returns the cyclically nearest free cluster after its start, and 0 only if no cluster is free. |
| `Chains.CreateChain` | external/fatfs/src/ff.c:1351-1427 | Follows a link, or takes the nearest free cluster for any hint, marks it and links it: the FAT after it is exactly determined; 0 means no cluster is free and nothing changed. A free count that was exact at mount stays exact, a wrong one matters for nothing, and FSInfo is marked for update. Whatever fails, no other used entry changes, and no link that was on the disk is lost from it. |
| `Chains.RemoveChain` | external/fatfs/src/ff.c:1271-1342 | Terminates the predecessor and frees everything reached from the given cluster, on any FAT, cyclic ones included; a free count that was exact at mount stays exact. Whatever fails, every entry that success would leave alone is left alone. |
| `Chains.FreeClusters` | external/fatfs/src/ff.c:1296-1328 | The removal loop terminates because every round that continues turns a used entry into a free one. |
| `Chains.TakenLayout` | external/fatfs/src/ff.c:1399-1416 | What create_chain does to the FAT as a set of chains: one new one-cluster chain, or exactly one chain longer by one formerly free cluster. |
| `Chains.RemovedLayout` | external/fatfs/src/ff.c:1271-1342 | What remove_chain does to it: the suffix of one chain is free, its prefix is terminated, all other chains are as they were, no cluster is lost. |
| `Chains.LastOfChain` | external/fatfs/src/ff.c:1365-1371 | A cluster with an end mark is the last one of exactly one chain. |
| `ChainTheory.LinkedUnique` | external/fatfs/src/ff.c:1001-1070 | The FAT and the first cluster determine a chain. |
| `ChainTheory.LinkedAllDistinct` | external/fatfs/src/ff.c:1271-1342 | A terminated chain never visits a cluster twice. |
| `ChainTheory.EraseLinked` | external/fatfs/src/ff.c:1296-1328 | On a terminated chain removal frees exactly the clusters of the chain. |
| `ChainTheory.EraseOnlyFrees` | external/fatfs/src/ff.c:1296-1328 | Removal sets entries to zero and does nothing else, on any FAT. |
| `ChainTheory.EraseIsCut` | external/fatfs/src/ff.c:1286-1328 | Removal at position k of a chain is the cut at k, and the free clusters grow by exactly the length cut off. |
| `ChainTheory.StretchLayout` | external/fatfs/src/ff.c:1412-1415 | Appending a free cluster keeps the chains terminated, disjoint and covering every used cluster. |
| `ChainTheory.CutLayout` | external/fatfs/src/ff.c:1286-1328 | So does cutting one. |
| `ClusterMap.SecsGood` | external/fatfs/src/ff.c:983-991 | The sectors of a chain lie inside the data area and no two are the same. |
| `FileObject.Fil.constructor` | external/fatfs/src/ff.c:3444-3471 | The end of f_open: a file object for the entry in the window, at its start, with the content the volume holds. |
| `FileObject.FlushBuf` | external/fatfs/src/ff.c:3664-3667 | Writes the dirty sector buffer of any file object back to its sector and changes no other one; the content of a consistent file stays. |
| `FileWrite.NextCluster` | external/fatfs/src/ff.c:3637-3655 | Follows or stretches the chain of the file; 0 only at its end with no cluster free. |
| `FileWrite.WriteDirect` | external/fatfs/src/ff.c:3672-3693 | The multi-sector path past the buffer, with the refill of a buffer it overtakes. |
| `FileWrite.WritePartial` | external/fatfs/src/ff.c:3700-3716 | The buffered path, which skips the fill read at the growing edge. |
| `FileWrite.WriteLoop` | external/fatfs/src/ff.c:3633-3718 | Whatever mixture of paths is taken, the content is the old one with the bytes written at the cursor. |
| `FileWrite.Write` | external/fatfs/src/ff.c:3611-3723 | f_write: content is the old one with the first bw bytes written at the cursor; fewer than asked for only at the 4 GiB limit or on a full volume; an error stays with the file and fails every later call. Whatever fails, the volume stays coherent, the file keeps its clusters in order with enough of them for its size, and only sectors in the range written to can be lost from the disk. |
| `FileRead.ReadDirect` | external/fatfs/src/ff.c:3557-3576 | The multi-sector read replaces the sector that is newer in the buffer. |
| `FileRead.Read` | external/fatfs/src/ff.c:3511-3601 | f_read delivers exactly the bytes at the cursor, as many as there are, and changes no content; an error stays with the file. |
| `FileSeek.DivIsIdx` | external/fatfs/src/ff.c:4087-4090 | Cluster comparison by division agrees with the position in the chain. |
| `FileSeek.SeekFollow` | external/fatfs/src/ff.c:4104-4125 | Walking or stretching the chain ends at the cluster of the target, or at the end of the last one if the volume is full. |
| `FileSeek.Seek` | external/fatfs/src/ff.c:4001-4153 | f_lseek: at the target, or clamped to the end of the last cluster of a full volume; the file grows to the cursor and keeps every byte it had. |
| `FileTruncate.CutChain` | external/fatfs/src/ff.c:4488-4500 | The clusters behind the cursor are freed, the one before it is terminated. |
| `FileTruncate.Truncate` | external/fatfs/src/ff.c:4475-4516 | f_truncate: the content is cut at the cursor, exactly the clusters no longer needed are free, no other chain changes. |
| `FileSync.SyncFs` | external/fatfs/src/ff.c:944-972 | Success leaves no pending write; FSInfo is marked up to date after it, and on a working disk it is. |
| `FileSync.Sync` | external/fatfs/src/ff.c:3732-3802 | f_sync of a file marked as modified: nothing pending, and directory entry, FAT and sectors read from the disk alone give the same size, chain and content. Of any other file: nothing at all changes. If it fails, the disk has the old entry, or all of the new file. A file that an earlier call gave up on is synced as that left it: success means that its buffer and an entry with its start cluster and size are written, and nothing else is. |
| `FileSync.SyncAgain` | external/fatfs/src/ff.c:3747-3797 | A flush that failed is forgotten: the second call succeeds without touching the disk. That is right exactly if the entry on the disk has the start cluster and size in memory, which it has if the window is clean. |
| `FileSync.DurableIff` | external/fatfs/src/ff.c:3747-3801 | Why: with nothing but the last flush missing, chain and data are on the disk already, and only the entry decides. |
| `FileSync.LostFlush` | external/fatfs/src/ff.c:3747-3801 | On a disk that works up to the last write, which leaves the old entry, the next call reports success for a file that is not on the disk. |
| `FileSync.GrownAndLost` | external/fatfs/src/ff.c:3611-3801 | So it can happen to any synced file: a write makes it longer, and the flush of the next sync is lost. |
| `FileSync.SavedCounts` | external/fatfs/src/ff.c:953-964 | The counters f_sync stores in FSInfo are those a mount reads. |
| `FileSync.OnDiskUnique` | external/fatfs/src/ff.c:3444-3471 | A disk image holds at most one content for a directory entry. |
| `DirEntry.UpdatedEntryIs` | external/fatfs/src/ff.c:3785-3793 | The entry update records start cluster and size and leaves the name and all other entries of the sector alone. |
| `DirEntry.StoreClustLoads` | external/fatfs/src/ff.c:1632-1660 | st_clust then ld_clust gives the cluster back. |
| `FileReopen.SyncedReopenable` | external/fatfs/src/ff.c:3732-3802 | After f_sync the disk has everything that opening the file again relies on. |
| `FileReopen.Reopen` | external/fatfs/src/ff.c:3444-3471 | After a loss of power the disk is mounted, the entry read at its known position and the file has exactly the content it had, whatever FSInfo says. |
| `FileReopen.LoadedCount` | external/fatfs/src/ff.c:3172-3186 | The free count that a mount of a working disk has is exact or unknown if and only if FSInfo is unused, unknown or right. |
| `FileReopen.SavedCount` | external/fatfs/src/ff.c:951-967 | A sync of a working disk saves an exact count. |
| `PowerLoss.BootsKept` | external/fatfs/src/ff.c:3048-3064 | Changes inside a volume that has no other boot sector in it do not change what the search of a mount comes to, on disks with any partitions. |
| `PowerLoss.BootsSame` | external/fatfs/src/ff.c:3048-3064 | Nor do changes of any sector that is neither sector 0 nor the first of a partition. |
| `PowerLoss.FormattedBoots` | external/fatfs/src/ff.c:5727-5745 | What f_mkfs has made is such a volume. |
| `PowerLoss.HomeKept` | external/fatfs/src/ff.c:3611-4153 | Working on a file keeps the volume bootable and its root directory with the same names, the file in its slot: no file operation touches a sector that is not its own. |
| `PowerLoss.SyncedRemountable` | external/fatfs/src/ff.c:3732-3802 | After f_sync on any disk, the disk alone has boot sector, FAT, directory, entry and content; on a working one with an exact free count also that. |
| `PowerLoss.FsInfoLost` | external/fatfs/src/ff.c:951-967 | Whatever a failed write leaves in the FSInfo sector, the file can be mounted and opened; the count is right or unknown exactly if that sector says so. |
| `PowerLoss.StaleCount` | external/fatfs/src/ff.c:951-967 | An image that mounts with a wrong count: one saved when another number of clusters was free. |
| `PowerLoss.Remount` | external/fatfs/src/ff.c:2993-3471 | From such a disk find_volume and f_open by name give the file back with exactly this content, ready to be worked on, and with an exact or unknown free count if and only if FSInfo has one. A disk that fails on the way is left as it is. |
| `FileSpec.Apply` | external/fatfs/src/ff.c:3611-4516 | Each call of the file API is one step of a byte array with a cursor, on any consistent file, also after a failed sync. |
| `FileSpec.RunOps` | external/fatfs/src/ff.c:3511-4516 | Any sequence of reads, writes, seeks, truncations and syncs on a working disk refines the byte array; if the volume is laid out in disjoint chains it stays so and every other chain is unchanged. |
| `FileSpec.OwnedClusters` | external/fatfs/src/ff.c:3630-3660 | A file owns exactly the clusters its size needs, has start cluster 0 if and only if it is empty, and stays below 4 GiB. |
| `FileSpec.WithinCapacity` | external/fatfs/src/ff.c:4108-4116 | Size and cursor stay within what the free clusters allow, with equality at the last cluster of a full volume. |
| `FileSpec.GrownLayout` | external/fatfs/src/ff.c:1399-1416 | Growing the file keeps the volume a set of disjoint chains and the other chains as they are. |
| `FileSpec.ShortenedLayout` | external/fatfs/src/ff.c:4488-4500 | So does shortening it. |
| `BlockStore.ComputeBlockOffset` | app/src/storage/storage_service.c:93-103 | Accepts exactly the block ids whose offset fits 32 bits. |
| `BlockStore.HandleRead` | app/src/storage/storage_service.c:105-133 | Refines the read request of the block store, on any volume that holds the file; the file grows up to the block, and InvalidBlock is told only beyond the address range or a full volume. If the volume is laid out in disjoint chains, the others stay as they are. If it fails, nothing on the disk is given up. |
| `BlockStore.HandleWrite` | app/src/storage/storage_service.c:135-165 | Refines the write request, on any volume that holds the file; Ok only if the block is on the disk so that the file can be reopened with it. If it fails, only the sector of the block and that of the directory entry can be lost from the disk, and the entry is the old one or everything is there. |
| `BlockStore.WriteKeepsOthers` | app/src/storage/storage_service.c:135-165 | A write never changes another block, and below the last block id a failed one on a working disk changes no existing byte: it never writes at the clamped position. |
| `BlockStore.WriteStores` | app/src/storage/storage_service.c:135-165 | A full block answered Ok is in the file. |
| `BlockStore.WriteAnswer` | app/src/storage/storage_service.c:135-165 | Ok if and only if there is nothing to write, or the block lies within the capacity and is not a full write of the last block id. |
| `BlockStore.LastBlockFails` | app/src/storage/storage_service.c:148-157 | A full write of block 0x7FFFFF stores 511 bytes and then fails, however large the volume. |
| `BlockStore.ReadPastEnd` | app/src/storage/storage_service.c:105-133 | Reading a block that was never written is answered Ok with no bytes unless the volume is full. |
| `BlockStore.ReadAfterWrite` | app/src/storage/storage_service.c:105-165 | The read that follows a full write answered Ok, with any other served requests in between, returns what was written. |
| `BlockStore.OneBlock` | app/src/storage/storage_service.c:148-157 | A write of at most a block at the start of a block, or at the end of a full volume, reaches at most one sector the file had. |
| `Survival.PrefixUnique` | external/fatfs/src/ff.c:3444-3471 | The entry and the links that its size needs determine at most one content, even if the chain goes on behind it. |
| `Survival.Torn` | external/fatfs/src/ff.c:3611-3801 | If all promised sectors but that of one block are on the disk, the file can be read from it with every other block. |
| `Survival.Rewrote` | external/fatfs/src/ff.c:3611-3801 | The same if the entry was written anew before the failure, for a file that had grown: it reads as at least the recorded bytes, but for the block. |
| `Survival.AfterFailure` | app/src/storage/storage_service.c:225-238 | After a request that failed at any point, on an atomic disk, the file can be read from it with every byte it had when it was last synced, outside the block being written. |
| `Survival.FoundAfterFailure` | external/fatfs/src/ff.c:3048-3064 | And it can be found: the search of a mount still comes to the volume, the root directory is still read from the same sectors, and the name is in its slot and no other. |
| `Landmarks.FindableHome` | external/fatfs/src/ff.c:2993-3471 | What a synced file has on the disk includes all that finding it takes. |
| `Landmarks.FindableKept` | external/fatfs/src/ff.c:2210-2281 | A file stays so if no more changes than other sectors, and in its entry what a sync writes there. |
| `Landmarks.MarksAside` | external/fatfs/src/ff.c:1351-1427 | Nothing that a mount or the search of the root directory looks at is in the FAT, in the file or in a cluster that the file can be given. |
| `StorageRun.Serve` | app/src/storage/storage_service.c:196-215 | The command switch of serviceRequest on an open file, every command with its code, on any volume that holds the file; a write answered Ok is on the disk with all that opening the file needs, and on a volume of disjoint chains with all that a mount needs; there the file stays in its directory slot. |
| `StorageRun.RunRemembers` | app/src/storage/storage_service.c:105-165 | Every run of requests has the block store property. |
| `StorageRun.ServeAll` | app/src/storage/storage_service.c:172-238 | The handlers applied to a list of requests up to the first I/O failure produce such a run. However it ends, on an atomic disk the file can be found and read from the disk alone with all bytes it had after the last write answered Ok, or at the start if it was synced, but for the block of the request that failed: so with every full block acknowledged and not written again, and every block of a synced file that was not written. |
| `StorageRun.BlocksSurvive` | app/src/storage/storage_service.c:172-238 | Why the one gives the other: over any run, bytes that survive up to the last acknowledged write have every block a client was told of. |
| `StorageRun.ServeAndStop` | app/src/storage/storage_service.c:325-334 | The same after the file is closed at the end of the service, whatever its last call came to: f_close writes the entry and the buffer of a file that was given up on, and what survived the failure survives that. |
| `Sessions.MountVolume` | app/src/storage/storage_service.c:40-73 | On any disk it ends with a volume that was there, with a new empty one, or with an error. On a working disk it formats exactly if the mount comes to "no file system": no volume, or one whose boot sector the analysis rejects; then it ends with the empty volume from 191 sectors on. Otherwise nothing is written, and the result is that of the mount. |
| `Sessions.OpenFresh` | app/src/storage/storage_service.c:40-84 | A working disk without a file system ends up formatted and mounted, with the new empty block file open. |
| `Sessions.PowerCycle` | app/src/storage/storage_service.c:303-315 | Losing everything in memory after a write answered Ok: mounting and opening again gives the same block store, content and capacity, and an exact free count if there was one. A disk that fails on the way is left as it is. |
| `Sessions.BlockFileName` | app/src/storage/storage_service.c:29 | The name of the block file is a valid 8.3 name. |
| `Sessions.ServeFromBlank` | app/src/storage/storage_service.c:240-340 | From a blank working disk to the answers, over any number of power losses after a write answered Ok: format, mount, create the file, serve, mount and open again. All requests together are one run of a block store that starts empty with all free clusters as capacity. |
| `Sessions.ServeSessions` | app/src/storage/storage_service.c:240-340 | From an open file on any volume, over any number of power losses after a write answered Ok, all requests are one run of a block store that starts with the content of the file, up to the first failure of a request, a mount or an open. Whenever that is, on an atomic disk what any session was told is stored can be found and read, but for the block that was being written. |
| `Sessions.KeptMore` | app/src/storage/storage_service.c:240-340 | Why: what survives of one session after others has the blocks of all of them. |
| `Sessions.OpenExisting` | app/src/storage/storage_service.c:40-84 | A working disk with a volume, wherever it was formatted: it is mounted and the block file opened with the content it had, or created; denied only for a read-only file, a directory, or a full one. |
| `Sessions.ServeFromVolume` | app/src/storage/storage_service.c:240-340 | Both together: from a disk formatted elsewhere to the answers. |
| `StorageRun.FreshRoot` | external/fatfs/src/ff.c:5696-5702 | The root directory of a formatted volume is a proper, blank table. |
| `Service.Task.MountVolume` | app/src/storage/storage_service.c:40-73 | Succeeds exactly if a mount worked, formatting a disk without a file system once; every path clears the lock table. |
| `Service.Task.OpenBlockFile` | app/src/storage/storage_service.c:75-84 | Opens exactly if the drive, path and disk allow it: after a mount the open is never refused because of a lock. |
| `Service.Task.Probe` | app/src/storage/storage_service.c:270-283 | The flags after an attempt to mount and open, decided by what the volume does. |
| `Service.Task.ServiceRequest` | app/src/storage/storage_service.c:172-238 | What the answer tells the requester: each code has exactly one cause, Fulfilled means that somebody waits, the volume was ready and the handler succeeded, and the volume stops being ready exactly if an I/O failure is told. |
| `Service.OnlyAnswer` | app/src/storage/storage_service.c:172-238 | These meanings leave exactly one answer and one new readiness. |
| `Service.Task.Round` | app/src/storage/storage_service.c:258-323 | One round refines a step of the flags and answers; a ready volume is mounted and has its file open and locked, and the published flag is the truth. |
| `Service.Task.Stop` | app/src/storage/storage_service.c:325-334 | After the end of the service task nothing is locked or mounted, also when the file object is stale. |
| `Service.Run` | app/src/storage/storage_service.c:240-323 | Over any events and failures, up to the wrap of the mount id, flags and answers are those of the specification and the lock table stays exact. |
| `Service.FlagsOverRuns` | app/src/storage/storage_service.c:248-331 | Over any run a ready volume is mounted with its file open, what is published is the truth, and mounted is never reset. |
| `Service.AnswersJustified` | app/src/storage/storage_service.c:172-238 | Over any run every request gets exactly one answer, in order, and one it can get. |
| `Service.Recovers` | app/src/storage/storage_service.c:228-237 | Whatever happened before, a request that finds a disk that mounts and a file that opens is handled. |
| `Service.JustifiedMeans` | app/src/storage/storage_service.c:174-184 | Cancelled is answered exactly when nobody waits any more. |
| `Service.FileOpenDrops` | app/src/storage/storage_service.c:250-254 | A run from the start in which fileOpen goes from true to false: an open file, an I/O failure, and a mount that does not open it again. |
| `Service.FileOpenKept` | app/src/storage/storage_service.c:309-315 | Exactly when that happens: the mount worked and the open did not. |
| `FileLocks.LockTable.ChkLock` | external/fatfs/src/ff.c:771-794 | Refused if and only if the file is open and either side writes; too many if and only if it is not open and the table is full. |
| `FileLocks.LockTable.EnqLock` | external/fatfs/src/ff.c:798-804 | Whether a slot is blank. |
| `FileLocks.LockTable.IncLock` | external/fatfs/src/ff.c:808-836 | Cannot fail once chk_lock has allowed the open; the entry counts exactly the open handles. |
| `FileLocks.LockTable.DecLock` | external/fatfs/src/ff.c:840-859 | Releases exactly the entry of the handle. |
| `FileLocks.LockTable.ClearLock` | external/fatfs/src/ff.c:863-872 | Leaves no entry of the volume. |
| `FileLocks.LockTable.Remount` | external/fatfs/src/ff.c:3277-3297 | After a mount no file is locked and the mount id is one that no handle has, before the id wraps. |
| `FileLocks.LockTable.Open` | external/fatfs/src/ff.c:3338-3429 | The lock steps of f_open: the three outcomes are decided by the table alone. |
| `FileLocks.LockTable.Close` | external/fatfs/src/ff.c:3821-3833 | A stale handle is refused and releases nothing. |
| `FileLocks.WriterExclusive` | external/fatfs/src/ff.c:771-836 | A writer is the only open handle of its file. |
| `FileLocks.ReaderLimit` | external/fatfs/src/ff.c:828-833 | The entry stays exact if and only if there are fewer than 255 readers already; the 256th reads as a writer. |
| `VolumePlan.AutoCluster` | external/fatfs/src/ff.c:5556-5569 | The table walk picks the cluster size whose thresholds enclose the volume size. |
| `VolumePlan.Candidate` | external/fatfs/src/ff.c:5552-5594 | One pass computes exactly the areas and cluster count of its FAT type. |
| `VolumePlan.Fat16Fits` | external/fatfs/src/ff.c:5566-5594 | A FAT16 layout that is not rejected had no overflow and its FAT size fits 16 bits. |
| `VolumePlan.AcceptedSensible` | external/fatfs/src/ff.c:5594-5619 | An accepted layout has a FAT large enough for its clusters and a cluster count that determines its own FAT type. |
| `VolumePlan.LayoutPass` | external/fatfs/src/ff.c:5552-5621 | What a pass decides, and that a retry is accepted for good reason. |
| `VolumePlan.ChoosePlan` | external/fatfs/src/ff.c:5552-5621 | The retry loop terminates; its plan is sensible and follows the options; with automatic cluster size it finds a plan for every volume of at least 128 sectors if any FAT type will do, and up to 65526 clusters of 32 KiB if only FAT12/16 will. |
| `BootSector.ParsedValid` | external/fatfs/src/ff.c:3115-3163 | A boot sector that passes the analysis, without overflow and inside the disk, describes a layout the rest relies on. |
| `Mount.CheckFs` | external/fatfs/src/ff.c:2965-2983 | Classifies the sector it could read. |
| `Mount.Locate` | external/fatfs/src/ff.c:3048-3064 | On a working disk the search ends at sector 0 or at the first partition with a FAT boot sector, and nowhere else; on any disk its outcomes are those the image and the read errors allow. |
| `Mount.SettledIs` | external/fatfs/src/ff.c:3060-3064 | The partition loop ends with a volume exactly if one check found one, and otherwise with the last outcome. |
| `Mount.ReadErrorForgotten` | external/fatfs/src/ff.c:3060-3066 | On a disk that has a volume the search ends with "no file system" exactly if the checks of all FAT partitions failed to read and the last check did not. |
| `Mount.OnlyPartition` | external/fatfs/src/ff.c:3060-3066 | With one partition, the first: one failing read of its boot sector does it, and this can happen. |
| `FormatMount.FormattedForgotten` | external/fatfs/src/ff.c:3060-3066 | It can happen to every partitioned disk that f_mkfs has formatted, which the service would then format again. |
| `Mount.LoadFsInfo` | external/fatfs/src/ff.c:3166-3188 | The counters are those of FSInfo if it is there, unknown otherwise. |
| `Mount.FindVolume` | external/fatfs/src/ff.c:2993-3206 | Mounts exactly the disks whose volume passes the analysis, with nothing pending and the FAT of the disk; "no file system" exactly if the search came to nothing or the analysis rejects the boot sector. On a working disk the result is a function of the image, a disk error only if the last partition starts beyond its end. |
| `Format.MakeVbr` | external/fatfs/src/ff.c:5627-5661 | Every field a mount reads is the one planned. |
| `Format.VbrParses` | external/fatfs/src/ff.c:3115-3163 | The analysis of that boot sector returns the plan, for every sensible plan. |
| `Format.MakeMbr` | external/fatfs/src/ff.c:5727-5745 | A partition table with exactly one entry, which is that of the volume. |
| `Format.Fill` | external/fatfs/src/ff.c:5686-5702 | Writes the first sector given and zeros behind it, in pieces of any work buffer. |
| `Format.WriteVolume` | external/fatfs/src/ff.c:5627-5703 | Boot sector, FSInfo, FAT and root directory are on the disk with the FAT32 backup copies and sectors before the volume are not touched. |
| `Format.MakeFs` | external/fatfs/src/ff.c:5301-5749 | f_mkfs: success means an empty volume by a sensible plan that follows the options; the automatic format of a working disk from 191 sectors on (128 without partition table) never fails. |
| `FormatMount.FormattedMounts` | external/fatfs/src/ff.c:2993-3206 | For every disk f_mkfs has formatted the mount finds this volume and recovers FAT type, bases, cluster size and count. |
| `FormatMount.FormattedFat` | external/fatfs/src/ff.c:5676-5694 | Every cluster is free except the FAT32 root directory. |
| `FormatMount.FreshLayout` | external/fatfs/src/ff.c:5663-5694 | The FAT is a proper set of chains and its free count is the one written to FSInfo. |
| `FormatMount.FreshSurplus` | external/fatfs/src/ff.c:4439-4458 | f_getfree counts a formatted volume right. |
| `FormatMount.MakeAndMount` | external/fatfs/src/ff.c:5301-5749 | Formatting and mounting as one operation: on a working disk the mount succeeds whenever f_mkfs did, for every option and allocation unit, and then the volume is the planned one with its counts; the automatic format of a disk of the size that `Format.MakeFs` asks for always succeeds. |
| `FreeCount.ScanSectors` | external/fatfs/src/ff.c:4439-4458 | The sector-stepping scan counts the free clusters plus those of the reserved entries that are zero. |
| `FreeCount.ScanEntries` | external/fatfs/src/ff.c:4412-4420 | The FAT12 scan counts the free clusters. |
| `FreeCount.SurplusZero` | external/fatfs/src/ff.c:4439-4458 | The scan agrees with reading each entry if and only if neither reserved entry is zero. |
| `FreeCount.SurplusKept` | external/fatfs/src/ff.c:1351-1427 | Allocation and removal do not change that. |
| `FreeCount.GetFree` | external/fatfs/src/ff.c:4388-4466 | f_getfree: a stored count in range is returned as it is, and is right if it was at mount; otherwise the scan is, stored and marked for update in FSInfo. |
| `Directory.DirSdi` | external/fatfs/src/ff.c:1470-1509 | Positions on an entry, and fails exactly for an offset that is none. |
| `Directory.DirNext` | external/fatfs/src/ff.c:1519-1578 | The next entry; the end is reported exactly at the end of the table, Denied only on a full volume; past the end no sector is current. |
| `Directory.StretchTable` | external/fatfs/src/ff.c:1551-1563 | One more cluster, all zero; every other sector outside the FAT is unchanged. |
| `Directory.ZeroCluster` | external/fatfs/src/ff.c:1557-1563 | Filling through the window leaves a coherent volume even if a write fails on the way. |
| `DirectorySearch.SequentialIsRandom` | external/fatfs/src/ff.c:1470-1578 | Walking k entries and positioning on entry k reach the same cluster, sector and offset, or both fail, in tables of any length and unless a disk error ends one of them. |
| `DirectorySearch.DirFind` | external/fatfs/src/ff.c:2210-2281 | Finds the entry of the name, or none exists. |
| `DirectorySearch.DirAlloc` | external/fatfs/src/ff.c:1589-1620 | The first blank slot, stretching the table only if there is none. |
| `DirectorySearch.DirRegister` | external/fatfs/src/ff.c:2292-2384 | Adds exactly the name; every other object keeps its name and slot; names stay unique and the tail stays blank. |
| `DirectorySearch.DirRemove` | external/fatfs/src/ff.c:2396-2432 | Removes exactly one. |
| `DirectoryMap.EnteredMap` | external/fatfs/src/ff.c:2365-2381 | Why: reusing a deleted slot, moving the end and stretching all add one name and lose none. |
| `DirectoryMap.DeletedMap` | external/fatfs/src/ff.c:2424-2428 | The same for the deletion mark. |
| `FileOpen.CreatedFields` | external/fatfs/src/ff.c:3391-3398 | A created entry has its name, no cluster and no byte. |
| `FileOpen.FindOrCreate` | external/fatfs/src/ff.c:3332-3398 | The directory part of f_open: the entry found, or a new one that is the only addition. |
| `FileOpen.EntrySafe` | external/fatfs/src/ff.c:3424-3426 | The sector of the entry is outside the FAT and never part of the file. |
| `FileOpen.OpenAlways` | external/fatfs/src/ff.c:3308-3503 | f_open in the mode of the service: a consistent file at its start, empty if it did not exist; denied exactly for a read-only file or a directory, or when no entry can be added. |
| `ShortNames.CreateName` | external/fatfs/src/ff.c:2742-2801 | Accepts exactly the paths that start with an 8.3 name and returns its directory form and where the next segment starts. |
| `ShortNames.EncodedIsFileName` | external/fatfs/src/ff.c:2795-2797 | A created name is never the terminator or the deletion mark, so it never matches a deleted entry. |
| `ShortNames.GetName` | external/fatfs/src/ff.c:2518-2527 | Prints at most 12 characters and a terminator. |
| `ShortNames.PrintedName` | external/fatfs/src/ff.c:2518-2527 | A created name is printed in upper case with a dot only before an extension. |
| `ShortNames.RoundTrip` | external/fatfs/src/ff.c:2518-2527 | The printed name is a valid path for the same 11 bytes, for every name that is not blank. |
| `ShortNames.BlankName` | external/fatfs/src/ff.c:2742-2801 | A segment of a single dot is accepted; it gives a blank name that prints as nothing and cannot be parsed. |
| `ShortNames.CanonicalPrintsBack` | external/fatfs/src/ff.c:2518-2527 | Exactly the canonical spellings are printed back unchanged. |
| `ShortNames.PrintAndParse` | external/fatfs/src/ff.c:2518-2801 | A path segment parsed, printed and parsed again gives the same directory entry name, unless it is blank. |

## Left out

- Long names, exFAT, code pages, fast seek, TRIM, `f_expand`, `f_forward`, `f_fdisk`, labels, relative paths: compiled out by `external/fatfs/ffconf.h`.
- `f_mkdir`, `f_rename`, `f_unlink`, `f_opendir`, `f_stat`, `f_printf`: little state that the modelled parts do not have.
- Timestamps, drive status and the request queue are arbitrary values; the drive cache behind CTRL_SYNC, delays, the watchdog and the promise library are not modelled.
- Products and divisions by the cluster size stand for the masks and shifts of the code; both agree for the powers of two that a mount accepts.
- One file is open at a time; two files writing through one window are not modelled. Locking several files is the subject of `FileLocks` alone, not repeated inside `FileOpen`.
- FileOpen.OpenAlways: models the root directory and the one open mode the service uses; sub-directories and the other modes are left out.
- FileReopen.Reopen: starts at the position of the directory entry and takes the boot sector to be intact, for a file in any directory; `PowerLoss.Remount` derives it and searches the name, for a file in the root directory.
- Service.Task.MountVolume: the outcomes of `f_mount` and `f_mkfs` are arbitrary there; `Sessions.MountVolume` is the real mount and format.
- Service.Task.ServiceRequest: the outcomes of the handlers are arbitrary there; what they do to the file is the subject of `BlockStore` and `StorageRun`.
- StorageRun.ServeAll: ends at the first I/O failure, of a working disk at the first write that does not fit. What is then on the disk is stated, that it can be found and read too; a mount there and the work on such a disk are not modelled: the chain can be longer than the size says, end at a cluster whose entry was still in the window and is free on the disk, and on FAT12 its last link can be stored by half (`FatEntries.HalfAny`) and lead anywhere.
- Sessions.ServeSessions: a next session begins only after a write answered Ok; after a failure it says what is on the disk, as `StorageRun.ServeAll` does, and ends. A disk that may fail must have no other volume, or a read error could lead a mount to that one.
- Sessions.ServeFromBlank: a working disk; like the sessions in it, it ends at the first write that does not fit, after which the service mounts again.
- Sessions.ServeFromVolume: ends there too.
- PowerLoss.Remount: a disk that may fail must have no other volume, for the same reason.
- Mount.FindVolume: assumes that the sums of the BPB do not wrap, that the volume lies on the disk, that FAT32 stays below its reserved cluster numbers and keeps FSInfo out of its FAT; the code checks none of these.
- FreeCount.GetFree: a scan that fails stores the partial count, so the contract is stated for success.
- Erase-block alignment of `f_mkfs`: the drive layer always reports blocks of one sector.
- A mount while a second volume object is registered: the configuration has one volume.

# A verified model of the IF2230 file system driver and page-frame allocator

The project models two parts of a teaching operating system:

- the file system driver of `src/ch1/fat32/fat32.c` (the "FAT32 - IF2230 edition" format: an
  allocation table of 512 words in cluster 1, a root directory in cluster 2, one-cluster directory
  tables of 64 entries), on top of the 4 MiB byte image of
  `src/ch2/external-inserter/external-inserter.c`;
- the page-frame allocator of `src/ch2/paging/paging.c`.

`dafny verify dfyconfig.toml` checks everything.

## How the files fit together

| file | contents |
|---|---|
| `Bytes.dfy`, `Layout.dfy` | machine words, little-endian encoding, byte-exact layout of directory entries, directory tables and the allocation table |
| `Blocks.dfy` | the blocks that cluster writes consist of, and what any prefix of them does to the clusters |
| `Storage.dfy` | the byte image, its block transfers with their history, and its view as a sequence of clusters |
| `Fat.dfy`, `ClaimLoop.dfy` | cluster chains in the allocation table; the claim loop of `write` |
| `Volume.dfy` | what each operation computes, as functions of the disk and the cached table |
| `Driver.dfy` | the driver as a class that updates its cached table, directory buffer and disk in place; each method is proved against `Volume` |
| `Tree.dfy`, `Frames.dfy`, `Entries.dfy` | directory tree, consistency invariant, map of names to nodes; what each kind of change does to them |
| `Refinement.dfy` | `write` and `delete` against that map |
| `Fields.dfy` | what the operations store and answer, in bytes and plain numbers |
| `FileSystem.dfy` | the abstract file system: return codes, deliveries and effects from the map alone |
| `Lookup.dfy`, `Effects.dfy`, `Runs.dfy`, `Syscalls.dfy` | the driver's checks and changes in those terms; whole runs; the system-call dispatch |
| `Readable.dfy`, `Conservation.dfy` | over runs: when all files stay readable, and the balance of free space |
| `Crash.dfy`, `RoundTrip.dfy`, `Structure.dfy`, `Boundaries.dfy` | power loss, round trips, shape of the allocation table and tree, what happens outside the hypotheses |
| `MarkedVariant.dfy`, `Examples.dfy` | a variant of the claim loop, and concrete runs that go wrong |
| `Paging.dfy` | the page-frame allocator |

A state is the disk, as 2048 clusters, and the cached allocation table. A volume is *sound* with
respect to a directory tree when the cached table is the one stored in cluster 1, every live entry
of every directory heads an ascending chain no longer than its recorded size, no cluster belongs to
two entries, identifiers are unique in each directory, the root says that it is a directory, and
every other directory is named by exactly one entry, which has the directory attribute. It is
*consistent* when, besides, every used cluster is referred to.

The map sends (directory, 11-byte identifier) to a file (size and clusters), a directory (and
whether its own first entry makes it usable as a parent) or an *impostor*: an entry with the
directory attribute that is no directory of the tree, because it is a file in a reused slot, or was
made from a table that was not empty. The driver takes impostors for directories, and the abstract
file system says what it answers then. Its state is the map, the number of free clusters, and the
directories that have a slot in which a file would become an impostor. Every return code is a
function of that state; what a request delivers and does is determined by it up to the number of a
new directory's cluster and, where such a slot exists, whether the next file takes it.

The tree is not extra information: a sound volume has only one that counts every directory entry as
a directory (`Structure.TreeIsDetermined`). Where there are impostors, the disk alone cannot always
tell (`Structure.ImpostorMayBeDirectory`).

The device keeps a ghost history of every block written to it. Its contract says that a transfer
appends exactly its blocks, in order, and asks at every call that the history accounts for the whole
image. `Write`, `Delete`, `CreateFat32` and `InitializeFilesystemFat32` promise the exact blocks that
they append, which is what the power-loss results are about: these hold for a cut after any block, also
inside the four blocks of one cluster.

## Where the code departs from its documentation

The code is followed in each case.

- `write` does not mark a cluster when it claims it, so that it claims each cluster twice. Of `n`
  chunks it stores `ceil(n/2)`, namely chunks 1, 3, 5, ... and the last one. The caller's bytes come
  back exactly when the slot is not stale and they fill less than one cluster, or are one or two whole
  clusters in which the lost chunk equals those that took its place (`RoundTrip.RoundTripExact`).
  `MarkedVariant` gives a loop that marks at once and proves the round trip through `read` for every
  size.
- `write` never clears the directory attribute of a reused slot. A file can be read back exactly when
  its slot carries no such attribute (`RoundTrip.WrittenIsReadable`); `RoundTrip.ReusedSlotIsUnreadable`
  shows the whole failing family and `Examples.StaleAttribute` one run from an unformatted disk.
  `Readable.RunStaysClean` says which runs never meet it. Such a file is also refused by `delete` when
  its first surviving chunk looks like a table with a live entry (`RoundTrip.DeleteUndoesWrite`).
- `write` stores the caller's table for a new directory as it is. The entry is a directory exactly when
  that table has no live entry (`Boundaries.DirectoryExactly`).
- The test on the parent cluster also accepts the last cluster of a file whose byte 11 is 0x10
  (`Structure.ParentTestExact`, `RoundTrip.NewClusterAsParent`). A write through it stores a table over
  the end of that file and loses its own clusters; it spares the other names exactly when the parent is
  a directory (`Boundaries.LookAlikeWriteOverwrites`, `Boundaries.WriteSparesOthersExactly`). A delete
  through it frees a cluster that is in use, or the word of the table's own cluster; a delete leaves a
  sound volume exactly when its parent is a directory (`Boundaries.DeleteSurvivesExactly`). `Examples.RootLost` is a run in which the root goes.
- `delete` stores the allocation table before the directory and is not safe against power loss
  between the two, nor is formatting, which stores the signature first. `Crash.DeleteCrashExactly` and
  `Crash.FormatCrashExactly` say after which blocks a cut does harm; `write` is safe after every block
  (`Crash.WriteIsCrashSafe`).
- `fat32.h` says that a directory has filesize 0; `write` records 2048.
- `paging.h` says that `paging_allocate_check` takes bytes; it compares with a number of frames.

## Hypotheses

- Requests name a parent cluster below 512: the code indexes its table without testing that.
- The buffer of a write that succeeds holds `n` whole chunks, `n` being `buffer_size / 2048 + 1`: that
  is what the code takes from it, always more than `buffer_size` bytes.
- Results about the map ask that a parent which passes the code's test is a directory of the tree.
  `Runs.Legal` collects this and the point before. `Boundaries` shows that writes and deletes need it.
- `Read` and `Delete` ask that a chain they walk ends, `Read` that the caller's buffer has room for it,
  and `ReadDirectory` and `Delete` that a directory they load lies on the disk; the code checks none of
  this. Every sound volume meets it (`Refinement.SoundWalkable`, `Runs.ReadIsNode`).
- Runs of the allocator start after the loader has cleared page directory entry 0.

## Model

| member | source | states |
|---|---|---|
| `Bytes.Le32RoundTrip` | src/ch1/fat32/fat32.h:58-60 | 32-bit words and their four bytes correspond one to one |
| `Bytes.Le32Bytes` | src/ch1/fat32/fat32.h:58-60 | the value of a stored 32-bit word, from its four bytes, low byte first |
| `Layout.EntryRoundTrip` | src/ch1/fat32/fat32.h:82-98 | a packed directory entry, with its split cluster number, decodes to itself, and every 32 bytes are the encoding of what they decode to |
| `Layout.SlotBytes` | src/ch1/fat32/fat32.h:82-98 | from which bytes of a cluster each field of slot i is taken: name, extension, attribute, mark, both halves of the cluster number, and size |
| `Layout.DirRoundTrip` | src/ch1/fat32/fat32.h:100-103 | a directory table survives being stored in one cluster |
| `Layout.DirBytesRoundTrip` | src/ch1/fat32/fat32.h:100-103 | a cluster read as a table and stored again is byte for byte the same |
| `Layout.FatRoundTrip` | src/ch1/fat32/fat32.h:58-60 | the allocation table survives being stored in one cluster |
| `Layout.WordBytes` | src/ch1/fat32/fat32.h:58-60 | from which bytes of its cluster each word of the allocation table is taken, low byte first |
| `Layout.StoredWord` | src/ch1/fat32/fat32.h:58-60 | each word is stored as its digits in base 256, low byte first |
| `Layout.FatBytesRoundTrip` | src/ch1/fat32/fat32.h:58-60 | a cluster read as an allocation table and stored again is byte for byte the same |
| `Storage.CopyBytes` | src/ch0/stdlib/string.c:12-18 | exactly the destination range is replaced by the source bytes |
| `Storage.BlockDevice.ReadBlocks` | src/ch2/external-inserter/external-inserter.c:13-21 | the requested blocks of the image, and nothing else, arrive in the destination |
| `Storage.BlockDevice.WriteBlocks` | src/ch2/external-inserter/external-inserter.c:23-31 | exactly the bytes of the addressed blocks change, and the history grows by exactly these blocks, in order, and still accounts for the whole image |
| `Storage.WriteOneCluster` | src/ch1/fat32/fat32.c:26-29 | the byte offset reached through the block address is that of the cluster: one cluster changes, all others stay |
| `Storage.WriteRunOfBlocks` | src/ch2/external-inserter/external-inserter.c:23-31 | a transfer of blocks does to the clusters exactly what its blocks do, one after the other |
| `Blocks.PutsLand` | src/ch1/fat32/fat32.c:111-122 | whole cluster writes, taken as their blocks, do what the cluster writes do |
| `Blocks.PrefixLands` | src/ch1/fat32/fat32.c:111-122 | any prefix of those blocks is some whole cluster writes and the first blocks of the next |
| `Blocks.MixedFat` | src/ch1/fat32/fat32.h:58-60 | the first blocks of a new allocation table over an old one are a table with the words of those blocks new |
| `Blocks.MixedDir` | src/ch1/fat32/fat32.h:100-103 | the first blocks of a directory table with one entry changed are the old table, or the new one once the entry's block is there |
| `Driver.FAT32Driver.WriteClusters` | src/ch1/fat32/fat32.c:111-122 | the disk changes by exactly `count` consecutive cluster writes, in order; more than 63 clusters is refused |
| `Driver.FAT32Driver.ReadClusters` | src/ch1/fat32/fat32.c:124-135 | the destination receives the concatenation of the clusters; more than 63 clusters is refused |
| `Driver.ClustersReadBack` | src/ch1/fat32/fat32.c:111-135 | writing any number of clusters and reading them back is the identity and leaves all other clusters alone |
| `Driver.OnePut` | src/ch1/fat32/fat32.c:354-355 | a transfer of one cluster, the only kind the four operations ask for, is a single cluster write |
| `Driver.FAT32Driver.OpenParent` | src/ch1/fat32/fat32.c:193-210 | accepts exactly the clusters that are at least 2, end a chain and whose first entry is a directory entry, and loads their table |
| `Driver.FAT32Driver.FindIdentifier` | src/ch1/fat32/fat32.c:216-221 | finds the first live slot from 2 up with the identifier |
| `Driver.FAT32Driver.FindFreeSlot` | src/ch1/fat32/fat32.c:285-295 | finds the first slot from 2 up that is not live |
| `Driver.FAT32Driver.CountAvailable` | src/ch1/fat32/fat32.c:301-307 | counts the EMPTY words from 2 up |
| `Driver.FAT32Driver.InitDirectoryTable` | src/ch1/fat32/fat32.c:31-53 | the whole resulting table |
| `Driver.FAT32Driver.IsEmptyStorage` | src/ch1/fat32/fat32.c:55-59 | true exactly when the signature is missing from the boot sector |
| `Driver.FAT32Driver.CreateFat32` | src/ch1/fat32/fat32.c:61-99 | the device receives exactly the boot block, the initial table and the root directory, in that order |
| `Driver.FAT32Driver.InitializeFilesystemFat32` | src/ch1/fat32/fat32.c:101-109 | formats exactly when the signature is missing, with the exact blocks of a format, and caches the stored table and the root directory |
| `Driver.FAT32Driver.ReadDirectory` | src/ch1/fat32/fat32.c:143-191 | return code and delivered table; nothing else in the buffer and nothing on disk changes |
| `Driver.FAT32Driver.Read` | src/ch1/fat32/fat32.c:193-250 | return code and delivered clusters, none of them past those of the chain; nothing else changes |
| `Driver.FAT32Driver.CopyChain` | src/ch1/fat32/fat32.c:236-242 | the loop that follows links only delivers the whole chain in order |
| `Driver.FAT32Driver.Write` | src/ch1/fat32/fat32.c:252-358 | return code, resulting disk and cached table, and the exact sequence of blocks the device receives; a failure changes nothing |
| `Driver.FAT32Driver.ClaimClusters` | src/ch1/fat32/fat32.c:322-351 | the loop leaves one chain of the first ceil(n/2) EMPTY clusters and stores chunk i in cluster i/2 of it |
| `Driver.FAT32Driver.NextEmpty` | src/ch1/fat32/fat32.c:328-331 | the search that tests no bound stops inside the table, at the EMPTY cluster whose turn it is |
| `Driver.FAT32Driver.Delete` | src/ch1/fat32/fat32.c:360-441 | return code, resulting disk and cached table, and the exact sequence of blocks the device receives; a failure changes nothing |
| `Driver.FAT32Driver.FreeChain` | src/ch1/fat32/fat32.c:418-431 | exactly the clusters of the chain become EMPTY |
| `ClaimLoop.AfterStep` | src/ch1/fat32/fat32.c:327-345 | one more time round, with the self-link that comes and goes, leads from the closed form for i to that for i+1 |
| `ClaimLoop.SearchStops` | src/ch1/fat32/fat32.c:328-331 | between the start of a search and its target there is no EMPTY cluster, and the target still is |
| `ClaimLoop.LoopMakesLink` | src/ch1/fat32/fat32.c:350-351 | the end-of-file mark turns the loop's table into one chain of the first ceil(n/2) EMPTY clusters, for odd and even n |
| `Fat.Empties` | src/ch1/fat32/fat32.c:301-307 | lists exactly the EMPTY clusters, in ascending order |
| `Fat.SameStart` | src/ch1/fat32/fat32.c:238-242 | following links from one cluster leads through one list of clusters only, in whatever order the links go |
| `Fat.ChainDistinct` | src/ch1/fat32/fat32.c:238-242 | a chain that ends meets no cluster twice, in whatever order its links go |
| `Fat.LinkMakesChain` | src/ch1/fat32/fat32.c:338-351 | linked clusters form exactly that chain, an ascending one, and no other word changes |
| `Fat.ClearUndoesLink` | src/ch1/fat32/fat32.c:420-431 | freeing a chain undoes storing it in EMPTY clusters, word for word |
| `Fat.ClearFreeCount` | src/ch1/fat32/fat32.c:425-431 | freeing raises the number of EMPTY clusters by exactly the chain's length |
| `Fat.LinkFreeCount` | src/ch1/fat32/fat32.c:338-351 | storing a chain lowers it by exactly the chain's length |
| `Tree.SearchFinds` | src/ch1/fat32/fat32.c:212-227 | with unique identifiers, the driver's search for a live entry's identifier ends at that entry |
| `Tree.AbsAt` | src/ch1/fat32/fat32.c:212-242 | the map sends each live entry's name to that entry's file, directory or impostor |
| `Frames.Frame` | src/ch1/fat32/fat32.c:343-355 | a change confined to clusters that nothing refers to keeps the volume sound and its map |
| `Entries.AddEntry` | src/ch1/fat32/fat32.c:313-355 | storing an entry for clusters that nothing refers to adds exactly its name |
| `Entries.RemoveEntry` | src/ch1/fat32/fat32.c:433-438 | clearing an entry of a file or of an empty directory removes exactly its name |
| `Refinement.ScheduleKeeps` | src/ch1/fat32/fat32.c:343-345 | cluster k of the new chain ends up with chunk min(2k+1, n-1) |
| `Refinement.StoreEntryFields` | src/ch1/fat32/fat32.c:313-348 | the new entry is live, carries the requested name, names the chain's first cluster and records n clusters, without wrap-around |
| `Volume.ChunksLaw` | src/ch1/fat32/fat32.c:309-309 | `write` takes the least number of whole clusters that is more than `buffer_size` bytes |
| `Fields.WriteStoresEntry` | src/ch1/fat32/fat32.c:313-348 | a successful write changes 32 bytes of its parent's cluster, those of a free slot: name, extension, mark 0xAA, the chain's first cluster, a size that is the least multiple of 2048 above `buffer_size`, the attribute only of a directory, the time stamps not at all |
| `Fields.WriteLength` | src/ch1/fat32/fat32.c:343-355 | a successful write stores n clusters of data, n being the least number with `buffer_size` < 2048n, and two more |
| `Fields.RefusedForSpace` | src/ch1/fat32/fat32.c:301-311 | a write with a usable parent, a new name and a free slot is refused exactly when the free clusters hold no more than `buffer_size` bytes |
| `Fields.DeleteClearsOneByte` | src/ch1/fat32/fat32.c:433-438 | a successful delete changes one byte of its parent's cluster: the mark of the entry with that name becomes 0 |
| `Volume.MatchesFields` | src/ch1/fat32/fat32.c:168-176 | what the searches compare: name and extension, or for `read_directory` the name and an extension of zeros |
| `Fields.ExtensionIgnored` | src/ch1/fat32/fat32.c:168-170 | `read_directory` answers and delivers the same whatever extension its request has |
| `Fields.SearchesAgree` | src/ch1/fat32/fat32.c:167-188 | with an extension of zeros `read_directory` finds the slot that `read` and `delete` find, and their answers correspond one to one |
| `Fields.DocumentedCodes` | src/ch1/fat32/fat32.h:208-248 | the documented codes of the four operations, for a bad parent, a name that is not there and one that is |
| `Refinement.StagedSound` | src/ch1/fat32/fat32.c:343-354 | until the parent's table is stored the map is the old one and nothing refers to the new chain |
| `Refinement.WriteRefines` | src/ch1/fat32/fat32.c:313-357 | every successful write keeps the volume sound, leaks nothing and adds exactly one name, with the surviving chunks; whether it is a file, a directory or an impostor is decided by the request, the slot's old attribute and the caller's table; every other name is unchanged |
| `Refinement.WriteTakes` | src/ch1/fat32/fat32.c:301-345 | a successful write takes n - n/2 free clusters |
| `Refinement.SoundWalkable` | src/ch1/fat32/fat32.c:229-242 | in a sound volume every entry found heads a terminated chain no longer than its recorded size |
| `Refinement.DeleteRefines` | src/ch1/fat32/fat32.c:403-440 | a successful delete keeps the volume sound and removes exactly one name; every other name is unchanged |
| `Refinement.DeleteNoLeak` | src/ch1/fat32/fat32.c:403-440 | refusing to delete a directory that is not empty keeps every used cluster referred to |
| `Refinement.DeleteGivesBack` | src/ch1/fat32/fat32.c:420-431 | a delete gives back exactly the clusters of the chain |
| `Crash.MountIsTransparent` | src/ch1/fat32/fat32.c:55-109 | mounting a volume whose cache is in step does not format it and changes nothing |
| `Crash.WriteIsCrashSafe` | src/ch1/fat32/fat32.c:343-355 | after any prefix of a write's blocks, also within a cluster, the next mount shows exactly the old file system or exactly the new state, and turns at the one block that holds the new entry; before that only free clusters can be missing, exactly those of the new chain whose words are stored |
| `Crash.DeleteCrashExactly` | src/ch1/fat32/fat32.c:420-438 | after any prefix of a delete's blocks: nothing has happened as long as no word of the chain is stored, all has once the entry's block is, and in between the entry is there, some of its clusters are EMPTY, and no tree that has the parent or counts all directory entries as directories makes the volume sound |
| `Crash.FormatCrashExactly` | src/ch1/fat32/fat32.c:61-99 | after any prefix of a format's blocks the next mount does not format again and keeps the old bytes of the missing blocks; it is as good as formatted exactly when these were right already |
| `Lookup.ParentIsUsable` | src/ch1/fat32/fat32.c:193-210 | the parent test accepts exactly the root and the directories of the map that are marked usable |
| `Lookup.SearchIsLookup` | src/ch1/fat32/fat32.c:212-247 | a name is in the map exactly when the search finds it, and the map gives what is found |
| `Lookup.FullExactly` | src/ch1/fat32/fat32.c:285-299 | a directory has no free slot exactly when it holds 62 names |
| `Lookup.OccupiedMeans` | src/ch1/fat32/fat32.c:403-416 | `delete` refuses exactly directories with names in them and impostors whose first cluster looks like one |
| `Lookup.CodesAreAnswers` | src/ch1/fat32/fat32.c:143-441 | every return code of the four operations is the one that the map and the number of free clusters call for |
| `Lookup.TableLists` | src/ch1/fat32/fat32.c:182-186 | a directory's table lists exactly the names filed under it |
| `Effects.WriteAdds` | src/ch1/fat32/fat32.c:313-357 | a successful write adds one node, lowers the free clusters by its size, and makes a file an impostor only where a stale slot was left |
| `Effects.DeleteRemoves` | src/ch1/fat32/fat32.c:418-440 | a successful delete removes one node, raises the free clusters by its size, and leaves a stale slot exactly when the node was not a readable file |
| `Runs.ReadIsNode` | src/ch1/fat32/fat32.c:228-246 | a successful `read` delivers exactly the clusters of the file of that name, and they fit in `buffer_size` bytes although the copy loop never looks at it |
| `Runs.ReadDirectoryIsTable` | src/ch1/fat32/fat32.c:177-187 | a successful `read_directory` delivers a table that lists exactly the names of that directory, or an impostor's first cluster |
| `Runs.StepRefines` | src/ch1/fat32/fat32.c:143-441 | every legal request in a sound volume gets exactly the return code the abstract file system calls for, delivers and changes what it says, refuses nothing else, and keeps the volume sound and free of leaks |
| `Runs.RunRefines` | src/ch1/fat32/fat32.c:143-441 | every run is a run of the abstract file system with the same replies |
| `Runs.FormatIsConsistent` | src/ch1/fat32/fat32.c:61-99 | a freshly formatted volume is consistent and stands for the file system with no names and 509 free clusters |
| `Fields.InitialFatStored` | src/ch1/fat32/fat32.c:65-73 | the 2048 bytes of a fresh allocation table |
| `Fields.InitialTableEntries` | src/ch1/fat32/fat32.c:31-53 | the first entry carries the given name, the second is named `..` and heads the parent, all others are zero |
| `Fields.RootTableEntries` | src/ch1/fat32/fat32.c:75-98 | the root's table: entries `root` and `..`, both of cluster 2, and zeros |
| `Fields.SignatureMeans` | src/ch1/fat32/fat32.c:7-15 | a disk counts as formatted exactly when its first block is the text, zeros and `Ok` |
| `Runs.ReachableIsConsistent` | src/ch1/fat32/fat32.c:61-441 | every state reachable from an unformatted disk is consistent, and the run simulates the abstract file system from the empty map |
| `Runs.RemountIsTransparent` | src/ch1/fat32/fat32.c:101-109 | mounting again at any point of a run changes no later reply and no state |
| `Syscalls.Dispatch` | src/ch1/interrupt/interrupt.c:116-137 | the four file system calls, made on the driver itself, are served exactly as the abstract file system says and deliver exactly the promised clusters |
| `Syscalls.CallNumbers` | src/ch1/interrupt/interrupt.c:116-137 | call 0 reads, 1 reads a directory, 2 writes, 3 deletes |
| `Syscalls.ServeRun` | src/ch1/interrupt/interrupt.c:116-137 | the driver itself, mounted on any unformatted disk and serving any sequence of legal calls and restarts, ends consistent, with the return codes, deliveries and state of the abstract file system started empty |
| `Structure.UsedIsOwned` | src/ch1/fat32/fat32.c:322-355 | the used clusters from 2 up are exactly the root and the clusters of live entries, each of exactly one |
| `Structure.LinksIncrease` | src/ch1/fat32/fat32.c:238-242 | every used word ends a chain or links to a larger, used, in-range cluster |
| `Structure.NoSharedTarget` | src/ch1/fat32/fat32.c:238-242 | no two used words link to the same cluster |
| `Structure.ParentTestExact` | src/ch1/fat32/fat32.c:258-269 | the parent test accepts directories and, besides, exactly the last clusters of files that look like one |
| `Structure.PathsStayInTree` | src/ch1/fat32/fat32.c:182-186 | without impostors, every path of directory entries from the root leads to a directory of the tree, at the depth of its length |
| `Structure.TreeIsReached` | src/ch1/fat32/fat32.c:182-186 | every directory of the tree is reached by a path from the root, of the length of its depth |
| `Structure.TreeIsDetermined` | src/ch1/fat32/fat32.c:182-186 | a sound volume has at most one tree without impostors, and every other tree of it is a part of that one |
| `Structure.ImpostorMayBeDirectory` | src/ch1/fat32/fat32.c:403-416 | a one-cluster impostor that decodes to an empty table may equally be counted as a directory |
| `RoundTrip.WrittenIsReadable` | src/ch1/fat32/fat32.c:316-320 | a file just written is accepted by `read` exactly when its slot had no directory attribute |
| `RoundTrip.ReadBack` | src/ch1/fat32/fat32.c:193-250 | reading the name just written delivers the surviving chunks |
| `RoundTrip.RoundTripExact` | src/ch1/fat32/fat32.c:327-345 | the caller's `buffer_size` bytes come back through `read` exactly when the slot had no directory attribute and they fill less than one cluster, or are one cluster equal to the chunk after it, or two equal clusters equal to the chunk after them |
| `RoundTrip.ChunksBackExactly` | src/ch1/fat32/fat32.c:327-345 | all n chunks that `write` takes come back exactly when n is 1 and the slot had no directory attribute |
| `RoundTrip.DeleteUndoesWrite` | src/ch1/fat32/fat32.c:418-438 | deleting the name just written is refused exactly when its entry looks like a directory with a live entry; otherwise it restores the allocation table word for word, the tree and the map |
| `RoundTrip.ReusedSlotIsUnreadable` | src/ch1/fat32/fat32.c:434-434 | wherever a directory can be made, after making and deleting it the next file written there, under any name, is refused by `read` |
| `RoundTrip.NewClusterAsParent` | src/ch1/fat32/fat32.c:258-269 | the last cluster of what was just written passes as a parent exactly when byte 11 of its last chunk is the directory attribute |
| `MarkedVariant.MarkedLoopClaims` | src/ch1/fat32/fat32.c:327-345 | VARIANT of the source: a loop that marks each cluster when it claims it claims the first n EMPTY clusters |
| `MarkedVariant.SameChainExact` | src/ch1/fat32/fat32.c:327-345 | the as-coded loop claims the same chain as the variant exactly when the data fills less than one cluster |
| `MarkedVariant.MarkedRoundTrip` | src/ch1/fat32/fat32.h:225-239 | with the variant a written file holds all its chunks in order, for every size, and unless its slot was stale `read` accepts it and delivers all of them |
| `Conservation.RequestKeepsSpace` | src/ch1/fat32/fat32.c:301-431 | no request the abstract file system allows changes the sum of free and taken clusters |
| `Conservation.RunBalances` | src/ch1/fat32/fat32.c:301-431 | over every run of the driver, free clusters plus the clusters of all files and directories of the map keep their sum |
| `Conservation.RefusedExactly` | src/ch1/fat32/fat32.c:285-311 | from an unformatted disk that sum is 509, and a write with a usable parent and a new name is refused exactly when the directory holds 62 names or the map leaves fewer than n of the 509 clusters |
| `Readable.CleanExactly` | src/ch1/fat32/fat32.c:316-320 | a file system without impostors and stale slots stays so exactly under requests that neither delete a directory nor make one from an unclean table |
| `Readable.FormatIsClean` | src/ch1/fat32/fat32.c:61-99 | a freshly formatted volume has neither impostors nor stale slots |
| `Readable.RunStaysClean` | src/ch1/fat32/fat32.c:316-320 | over a run of such requests every file stays readable and every directory entry is a directory |
| `Boundaries.DirectoryExactly` | src/ch1/fat32/fat32.c:316-343 | a request for a directory makes one, under any tree that keeps the old directories, exactly when the caller's table has no live entry |
| `Boundaries.LookAlikeWriteLeaks` | src/ch1/fat32/fat32.c:258-269 | a write whose parent only looks like a directory succeeds, keeps the volume sound, and leaks all its clusters; its name is in no directory |
| `Boundaries.LookAlikeWriteOverwrites` | src/ch1/fat32/fat32.c:258-269 | it changes the map at exactly one other name: the file or impostor whose last cluster served as parent, which now ends with the table of the new entry |
| `Boundaries.WriteSparesOthersExactly` | src/ch1/fat32/fat32.c:258-269 | a successful write leaves every other name as it was exactly when its parent is a directory of the tree |
| `Boundaries.LookAlikeDeleteUnsound` | src/ch1/fat32/fat32.c:366-377 | a delete whose parent only looks like a directory makes the volume unsound for every tree that keeps the old directories |
| `Boundaries.DeleteSurvivesExactly` | src/ch1/fat32/fat32.c:366-377 | a successful delete leaves a sound volume with all other directories exactly when its parent is a directory of the tree |
| `Boundaries.LookAlikeDeleteTakesRoot` | src/ch1/fat32/fat32.c:418-431 | in every sound volume, writing a one-cluster file that reads as a table naming the root and deleting that name through the file's cluster empties the root's cluster and leaves no sound tree |
| `Examples.StaleAttribute` | src/ch1/fat32/fat32.c:316-320 | on any unformatted disk: make a directory, delete it, write a file of the same name, and `read` answers 1 |
| `Examples.RootLost` | src/ch1/fat32/fat32.c:366-377 | on any unformatted disk: write one such file, delete one name through its cluster, and the root is no parent any more |
| `Paging.FrameAddress` | src/ch2/paging/paging.c:41-43 | the frame number survives the trip through its physical address, without wrap-around |
| `Paging.PageManager.AllocateUserPageFrame` | src/ch2/paging/paging.c:61-99 | fails exactly when all frames are marked and then changes nothing; otherwise the whole resulting bitmap, counter and directory, for any value of the flag bits that are not assigned, and the page is a present, writable, user-accessible 4 MiB page |
| `Paging.PageManager.FreeUserPageFrame` | src/ch2/paging/paging.c:101-123 | fails exactly when the page is not mapped; otherwise the whole resulting state |
| `Paging.PageManager.UpdatePageDirectoryEntry` | src/ch2/paging/paging.c:35-45 | exactly the flags and address of the page's entry change |
| `Paging.PageManager.AllocateCheck` | src/ch2/paging/paging.c:55-58 | when the counter is right, true exactly when that many frames of the bitmap can be chosen that are all unmarked |
| `Paging.CheckIsEnough` | src/ch2/paging/paging.c:55-99 | that many allocations in a row succeed exactly when the check for their number passes |
| `Paging.PageManager.constructor` | src/ch2/paging/paging.c:25-33 | only frame 0 is marked |
| `Paging.AllocateExact` | src/ch2/paging/paging.c:55-87 | allocation succeeds exactly when the check for one frame passes, and takes the lowest free frame |
| `Paging.AllocateKeeps` | src/ch2/paging/paging.c:61-99 | bitmap, counter and directory stay in agreement, even over a mapped page |
| `Paging.AllocateAccounts` | src/ch2/paging/paging.c:88-96 | every frame stays accounted for exactly when the page was not mapped already |
| `Paging.FreeKeeps` | src/ch2/paging/paging.c:101-123 | freeing keeps the three in agreement and gives back one frame |
| `Paging.RunKeeps` | src/ch2/paging/paging.c:61-123 | over every run the counter counts the unmarked frames and distinct mapped pages name distinct marked frames; without mapping over a mapped page, marked and mapped frames coincide and free plus mapped is 32 |
| `Paging.FramesAddUp` | src/ch2/paging/paging.c:61-123 | every frame is free, mapped or lost, and the three numbers add up to 32 |
| `Paging.RunBalances` | src/ch2/paging/paging.c:61-123 | over every run the lost frames grow by exactly the number of allocations over a mapped page, and every frame stays accounted for exactly when there is none |
| `Paging.ReachableAgrees` | src/ch2/paging/paging.c:6-33 | the same from the state after boot, with as many lost frames as allocations over a mapped page, and frame 0 is never handed out unless the kernel's page is freed |
| `Paging.StepFlags` | src/ch2/paging/paging.c:88-120 | a request that succeeds makes its page a writable user page of 4 MiB, or zero, and changes no other entry |
| `Paging.RunGrants` | src/ch2/paging/paging.c:61-123 | over every run a page is user-accessible exactly when the last request for it that succeeded was an allocation, and present entries are writable 4 MiB pages |
| `Paging.ReachableGrants` | src/ch2/paging/paging.c:6-120 | the same from boot, where no page is a user page; from every reachable state freeing a page just allocated restores the whole state |
| `Paging.KernelFrameReleased` | src/ch2/paging/paging.c:114-117 | freeing the kernel's page hands frame 0 to the next allocation |
| `Paging.NoAliasing` | src/ch2/paging/paging.c:35-45 | different mapped virtual addresses have different physical addresses |
| `Paging.FreeUndoesAllocate` | src/ch2/paging/paging.c:88-120 | freeing a page just allocated restores bitmap and counter, and the whole state exactly when the entry's flags and address were zero |

## Left out

- The ATA port driver, descriptor tables, interrupt controller, TLB flush and assembly stubs: hardware effects; the byte image stands for the disk.
- `main` of the inserter and `kernel_setup`: argument parsing and plumbing around the driver.
- The user shell and its commands: they are not built.
- Keyboard, framebuffer and the system calls that serve them: they hold no file system or paging state.
- Memory layout of requests: a request's buffer is a separate array, distinct from the disk image and the driver's tables, so that a caller whose buffer overlaps them is not modelled.
- Reinterpretation of memory: the code transfers its tables as raw bytes in place; the model encodes and decodes them around each transfer.
- Power loss inside one block write, and interrupts during a call.
- Contracts of one call see the image at its device calls and at its end: a body that changed image bytes behind the device's back and put them back before the next device call is not told apart.
- Bits of a page directory entry that the MMU sets by itself.
- Several page directories: the repository has one.
- Driver.FAT32Driver.Read: asks, of a read that will succeed, that the chain ends and fits in the caller's buffer, because the code checks neither; every sound volume meets this.
- Driver.FAT32Driver.Delete: asks that a directory entry found lies on the disk and, of a delete that will succeed, that the chain ends, because the code checks neither; every sound volume meets this.
- Driver.FAT32Driver.ReadDirectory: asks that a directory entry found lies on the disk, because the code does not check it; every sound volume meets this.
- Driver.FAT32Driver.Write: asks, of a write that will succeed, for a buffer of `n` whole chunks, because the code takes that many bytes from it without checking.
- Paging.PageManager.FreeUserPageFrame: asks that a present entry names one of the 32 frames, because the code uses it as an index without checking; every state in which bitmap, counter and directory agree meets this.
- Readable.RunStaysClean: a run that is not clean may still leave a file readable, when the slot it takes is not the stale one.

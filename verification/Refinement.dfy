/** `write` and `delete` against the abstract file map. */
module Refinement {
  import opened Bytes
  import opened Layout
  import opened Fat
  import opened Volume
  import opened Tree
  import opened Frames
  import opened Entries

  // ---------- What the data writes leave on the disk ----------

  /** The last write to a cluster decides its contents. */
  lemma {:induction false} LastWriteWins(disk: Disk, puts: seq<Put>, i: nat)
    requires i < |puts| && forall j :: i < j < |puts| ==> puts[j].cluster != puts[i].cluster
    ensures Apply(disk, puts)[puts[i].cluster] == puts[i].data
  {
    var last := |puts| - 1;
    if i < last {
      LastWriteWins(disk, puts[..last], i);
    }
  }

  /** Number of the chunk that stays in cluster `k` of a chain of `n` chunks. */
  function KeptChunk(n: nat, k: nat): nat
    requires 2 * k < n
  {
    if 2 * k + 1 < n then 2 * k + 1 else n - 1
  }

  /** The chunks of `buf` that a write of `n` chunks leaves on the disk. */
  function KeptChunks(buf: seq<byte>, n: nat): (r: seq<Cluster>)
    requires CLUSTER_SIZE * n <= |buf|
    ensures |r| == (n + 1) / 2
  {
    seq<Cluster>((n + 1) / 2, k requires 0 <= k < (n + 1) / 2 => Chunk(buf, KeptChunk(n, k)))
  }

  /** Cluster `k` of the new chain ends up with chunk min(2k+1, n-1). */
  lemma ScheduleKeeps(disk: Disk, chain: seq<nat>, buf: seq<byte>, n: nat, k: nat)
    requires InTable(chain) && |chain| == (n + 1) / 2 && k < |chain| && CLUSTER_SIZE * n <= |buf|
    ensures Apply(disk, DataPuts(Schedule(chain, n), buf))[chain[k]] == Chunk(buf, KeptChunk(n, k))
  {
    hide Apply, Chunk;
    var puts := DataPuts(Schedule(chain, n), buf);
    var i := KeptChunk(n, k);
    assert puts[i].cluster == chain[k];
    forall j | i < j < n
      ensures puts[j].cluster != puts[i].cluster
    {
      assert j / 2 > k;
    }
    LastWriteWins(disk, puts, i);
  }

  // ---------- The three phases of a store ----------

  /** All of `puts` go to EMPTY clusters. */
  ghost predicate IntoEmpty(fat: FatMap, puts: seq<Put>) {
    forall p :: p in puts ==> 2 <= p.cluster < CLUSTER_MAP_SIZE && fat[p.cluster] == EMPTY_ENTRY
  }

  /** Data written to EMPTY clusters is invisible. */
  lemma DataPhase(s: State, t: Tree, puts: seq<Put>)
    requires Sound(s, t) && IntoEmpty(s.fat, puts)
    ensures var s1 := State(Apply(s.disk, puts), s.fat);
            Sound(s1, t) && Abs(s1, t) == Abs(s, t) && SameReferenced(s, s1, t)
  {
    hide EncodeFat, DecodeDir, DirsOk, EntriesOk, NoSharing, UniqueIds, Referenced, Apply, Abs;
    var s1 := State(Apply(s.disk, puts), s.fat);
    ApplyElsewhere(s.disk, puts, BOOT_SECTOR);
    ApplyElsewhere(s.disk, puts, FAT_CLUSTER_NUMBER);
    assert Mounted(s1);
    forall c | 0 <= c < CLUSTER_MAP_SIZE && Referenced(s, t, c)
      ensures s1.disk[c] == s.disk[c]
    {
      ReferencedUsed(s, t, c);
      ApplyElsewhere(s.disk, puts, c);
    }
    Frame(s, s1, t);
  }

  /** `s` with `fat` cached and stored. */
  ghost function WithFat(s: State, fat: FatMap): State {
    State(s.disk[FAT_CLUSTER_NUMBER := EncodeFat(fat)], fat)
  }

  lemma WithFatMounted(s: State, fat: FatMap)
    requires Mounted(s) && fat[0] == s.fat[0] && fat[1] == s.fat[1]
    ensures Mounted(WithFat(s, fat))
  {
    hide EncodeFat;
  }

  /** A table that differs only in words nothing refers to is invisible. */
  lemma FatPhase(s: State, t: Tree, fat: FatMap)
    requires Sound(s, t) && fat[0] == s.fat[0] && fat[1] == s.fat[1]
    requires forall c :: 2 <= c < CLUSTER_MAP_SIZE && Referenced(s, t, c) ==> fat[c] == s.fat[c]
    ensures Sound(WithFat(s, fat), t) && Abs(WithFat(s, fat), t) == Abs(s, t) && SameReferenced(s, WithFat(s, fat), t)
  {
    hide EncodeFat, DirsOk, EntriesOk, NoSharing, UniqueIds, Referenced, Mounted, Abs;
    WithFatMounted(s, fat);
    forall c | 0 <= c < CLUSTER_MAP_SIZE && Referenced(s, t, c)
      ensures fat[c] == s.fat[c] && c != FAT_CLUSTER_NUMBER
    {
      ReferencedUsed(s, t, c);
    }
    Frame(s, WithFat(s, fat), t);
  }

  // ---------- A store, on any chain of EMPTY clusters ----------

  /** `buf` can be stored on the EMPTY clusters `chain`, chunk `i` in `schedule[i]`. */
  ghost predicate Fits(fat: FatMap, buf: seq<byte>, chain: seq<nat>, schedule: seq<nat>) {
    ClaimsFree(fat, chain) && CLUSTER_SIZE * |schedule| <= |buf| &&
    forall i :: 0 <= i < |schedule| ==> schedule[i] in chain
  }

  /** A write that passes its checks, is asked of a directory of the tree and
      stores `r.Chunks()` chunks on a chain no longer than that. */
  ghost predicate CanStore(s: State, t: Tree, r: Request, buf: seq<byte>, chain: seq<nat>, schedule: seq<nat>) {
    Sound(s, t) && r.parent < CLUSTER_MAP_SIZE && WriteCode(s, r) == 0 && r.parent as nat in t &&
    Fits(s.fat, buf, chain, schedule) && |chain| <= |schedule| == r.Chunks()
  }

  /** The request makes a directory, from a table without live entries. Any other
      table gives an entry that only looks like one. */
  predicate MakesDirectory(r: Request, buf: seq<byte>)
    requires CLUSTER_SIZE <= |buf|
  {
    r.buffer_size == 0 && IsEmptyTable(DecodeDir(Chunk(buf, 0)))
  }

  ghost function StoreSlot(s: State, r: Request): (a: Slot)
    requires r.parent < CLUSTER_MAP_SIZE && WriteCode(s, r) == 0
    ensures InRange(a)
  {
    Slot(r.parent, FreeSlot(Table(s, r.parent)))
  }

  ghost function StoreEntry(s: State, r: Request, chain: seq<nat>): DirEntry
    requires r.parent < CLUSTER_MAP_SIZE && WriteCode(s, r) == 0 && |chain| > 0
  {
    NewEntry(Entry(s, StoreSlot(s, r)), r, chain[0])
  }

  /** Data and allocation table stored, the parent's table not yet. */
  ghost function Staged(s: State, buf: seq<byte>, chain: seq<nat>, schedule: seq<nat>): State
    requires Fits(s.fat, buf, chain, schedule)
  {
    WithFat(State(Apply(s.disk, DataPuts(schedule, buf)), s.fat), Link(s.fat, chain))
  }

  lemma DataIntoEmpty(fat: FatMap, buf: seq<byte>, chain: seq<nat>, schedule: seq<nat>)
    requires Fits(fat, buf, chain, schedule)
    ensures IntoEmpty(fat, DataPuts(schedule, buf))
  {
    hide Chunk;
  }

  lemma NewFat(fat: FatMap, chain: seq<nat>)
    requires ClaimsFree(fat, chain)
    ensures Ordered(Link(fat, chain), chain[0]) && Chain(Link(fat, chain), chain[0]) == chain
    ensures Link(fat, chain)[0] == fat[0] && Link(fat, chain)[1] == fat[1]
    ensures forall c :: 0 <= c < CLUSTER_MAP_SIZE && fat[c] != EMPTY_ENTRY ==> Link(fat, chain)[c] == fat[c]
    ensures forall c :: c in chain ==> 2 <= c < CLUSTER_MAP_SIZE && fat[c] == EMPTY_ENTRY && Link(fat, chain)[c] != EMPTY_ENTRY
    ensures forall c :: 2 <= c < CLUSTER_MAP_SIZE && Link(fat, chain)[c] != EMPTY_ENTRY ==> fat[c] != EMPTY_ENTRY || c in chain
  {
    hide Link, Terminated, Chain;
    LinkMakesChain(fat, chain);
  }

  /** The first `w` words of `g`, and the others of `f`. */
  function Partly(f: FatMap, g: FatMap, w: nat): (r: FatMap)
    requires w <= CLUSTER_MAP_SIZE
  {
    g[..w] + f[w..]
  }

  /** Data stored, and the first `w` words of the new allocation table. */
  ghost function PartlyStaged(s: State, buf: seq<byte>, chain: seq<nat>, schedule: seq<nat>, w: nat): State
    requires Fits(s.fat, buf, chain, schedule) && w <= CLUSTER_MAP_SIZE
  {
    WithFat(State(Apply(s.disk, DataPuts(schedule, buf)), s.fat), Partly(s.fat, Link(s.fat, chain), w))
  }

  /** Whatever part of the new table is stored, the map is the old one and nothing
      refers to the new chain. */
  lemma PartlySound(s: State, t: Tree, buf: seq<byte>, chain: seq<nat>, schedule: seq<nat>, w: nat)
    requires Sound(s, t) && Fits(s.fat, buf, chain, schedule) && w <= CLUSTER_MAP_SIZE
    ensures var s2 := PartlyStaged(s, buf, chain, schedule, w);
            Sound(s2, t) && Abs(s2, t) == Abs(s, t) && SameReferenced(s, s2, t) &&
            (forall c :: Referenced(s2, t, c) <==> Referenced(s, t, c)) && forall c :: c in chain ==> !Referenced(s2, t, c)
  {
    hide Sound, Referenced, Abs, Apply, DataPuts, Link, Terminated, Chain, IntoEmpty, EncodeFat;
    var s1 := State(Apply(s.disk, DataPuts(schedule, buf)), s.fat);
    var part := Partly(s.fat, Link(s.fat, chain), w);
    DataIntoEmpty(s.fat, buf, chain, schedule);
    DataPhase(s, t, DataPuts(schedule, buf));
    NewFat(s.fat, chain);
    forall c: nat
      ensures Referenced(s1, t, c) <==> Referenced(s, t, c)
      ensures Referenced(s, t, c) ==> 2 <= c < CLUSTER_MAP_SIZE && s.fat[c] != EMPTY_ENTRY
    {
      FrameReferenced(s, s1, t, c);
      if Referenced(s, t, c) {
        ReferencedUsed(s, t, c);
      }
    }
    FatPhase(s1, t, part);
    forall c: nat
      ensures Referenced(PartlyStaged(s, buf, chain, schedule, w), t, c) <==> Referenced(s1, t, c)
    {
      FrameReferenced(s1, WithFat(s1, part), t, c);
    }
  }

  /** Until the parent's table is stored, the map is the old one and nothing
      refers to the new chain. */
  lemma StagedSound(s: State, t: Tree, buf: seq<byte>, chain: seq<nat>, schedule: seq<nat>)
    requires Sound(s, t) && Fits(s.fat, buf, chain, schedule)
    ensures var s2 := Staged(s, buf, chain, schedule);
            s2.fat == Link(s.fat, chain) && Sound(s2, t) && Abs(s2, t) == Abs(s, t) && SameReferenced(s, s2, t) &&
            (forall c :: Referenced(s2, t, c) <==> Referenced(s, t, c)) && forall c :: c in chain ==> !Referenced(s2, t, c)
  {
    hide Sound, Referenced, Abs, Apply, DataPuts, Link, SameReferenced, EncodeFat;
    PartlySound(s, t, buf, chain, schedule, CLUSTER_MAP_SIZE);
    assert Partly(s.fat, Link(s.fat, chain), CLUSTER_MAP_SIZE) == Link(s.fat, chain);
  }

  lemma StagedTable(s: State, t: Tree, buf: seq<byte>, chain: seq<nat>, schedule: seq<nat>, d: nat)
    requires Sound(s, t) && Fits(s.fat, buf, chain, schedule)
    requires d in t && d < CLUSTER_MAP_SIZE
    ensures Table(Staged(s, buf, chain, schedule), d) == Table(s, d)
  {
    hide Sound, DecodeDir, Abs, Staged;
    StagedSound(s, t, buf, chain, schedule);
    assert Referenced(s, t, d);
  }

  /** The new entry names the new chain. */
  lemma StoreEntryFields(s: State, r: Request, chain: seq<nat>)
    requires r.parent < CLUSTER_MAP_SIZE && WriteCode(s, r) == 0 && ClaimsFree(s.fat, chain)
    ensures var e := StoreEntry(s, r, chain);
            e.Head() == chain[0] && e.Id() == r.Id() && e.IsLive() && e.filesize == r.Chunks() * CLUSTER_SIZE &&
            e.attribute == if r.buffer_size == 0 then ATTR_SUBDIRECTORY else Entry(s, StoreSlot(s, r)).attribute
  {
    hide DecodeDir, Find, FreeSlot, ParentOk;
    AscendingBound(Empties(s.fat, 2));
  }

  lemma StagedContents(s: State, buf: seq<byte>, chain: seq<nat>, schedule: seq<nat>)
    requires Fits(s.fat, buf, chain, schedule)
    ensures forall c :: c in chain ==>
      0 <= c < CLUSTER_MAP_SIZE && Staged(s, buf, chain, schedule).disk[c] == Apply(s.disk, DataPuts(schedule, buf))[c]
  {
    hide Apply, DataPuts, EncodeFat, Link;
  }

  /** A new directory's cluster holds the caller's table. */
  lemma StagedDirectory(s: State, buf: seq<byte>, chain: seq<nat>, schedule: seq<nat>)
    requires Fits(s.fat, buf, chain, schedule)
    requires |chain| == 1 && |schedule| == 1
    ensures Table(Staged(s, buf, chain, schedule), chain[0]) == DecodeDir(Chunk(buf, 0))
  {
    hide DecodeDir, Apply, Staged, Chunk;
    StagedContents(s, buf, chain, schedule);
    assert schedule[0] == chain[0];
    LastWriteWins(s.disk, DataPuts(schedule, buf), 0);
  }

  lemma StoreCanAdd(s: State, t: Tree, r: Request, buf: seq<byte>, chain: seq<nat>, schedule: seq<nat>)
    requires CanStore(s, t, r, buf, chain, schedule)
    ensures CanAdd(Staged(s, buf, chain, schedule), t, StoreSlot(s, r), StoreEntry(s, r, chain), MakesDirectory(r, buf))
  {
    hide DecodeDir, Sound, Referenced, Staged, Link, Terminated, Chain, StoreEntry, Abs, DataPuts, Apply, Chunk,
         SameReferenced, FreeCount;
    var s2, a, e := Staged(s, buf, chain, schedule), StoreSlot(s, r), StoreEntry(s, r, chain);
    StagedSound(s, t, buf, chain, schedule);
    StagedTable(s, t, buf, chain, schedule, r.parent);
    NewFat(s.fat, chain);
    StoreEntryFields(s, r, chain);
    forall b | IsLive(s2, t, b) && b.dir == r.parent
      ensures Entry(s2, b).Id() != e.Id()
    {
      SearchFails(s2, t, b, r.Id());
    }
    if r.buffer_size == 0 {
      StagedDirectory(s, buf, chain, schedule);
      OneCluster(Link(s.fat, chain), chain[0]);
    }
  }

  lemma OneCluster(fat: FatMap, h: nat)
    requires Terminated(fat, h)
    ensures fat[h] == END_OF_FILE <==> |Chain(fat, h)| == 1
  {
  }

  /** The state after all cluster writes of a store. */
  ghost function Stored(s: State, r: Request, buf: seq<byte>, chain: seq<nat>, schedule: seq<nat>): State
    requires r.parent < CLUSTER_MAP_SIZE && WriteCode(s, r) == 0 && Fits(s.fat, buf, chain, schedule)
  {
    State(Apply(s.disk, StoreTrace(s, r, buf, chain, schedule)), Link(s.fat, chain))
  }

  ghost function StoreTree(s: State, t: Tree, r: Request, buf: seq<byte>, chain: seq<nat>): Tree
    requires r.parent < CLUSTER_MAP_SIZE && WriteCode(s, r) == 0 && |chain| > 0 && r.parent as nat in t
    requires CLUSTER_SIZE <= |buf|
  {
    TreeWith(t, StoreSlot(s, r), StoreEntry(s, r, chain), MakesDirectory(r, buf))
  }

  /** The whole store is the staged state plus one entry. */
  lemma StoredIsStagedPlusEntry(s: State, t: Tree, r: Request, buf: seq<byte>, chain: seq<nat>, schedule: seq<nat>)
    requires CanStore(s, t, r, buf, chain, schedule)
    ensures Stored(s, r, buf, chain, schedule)
         == WithEntry(Staged(s, buf, chain, schedule), StoreSlot(s, r), StoreEntry(s, r, chain))
  {
    hide Sound, DecodeDir, EncodeDir, EncodeFat, Link, DataPuts, Apply, NewEntry, FreeCount;
    StagedTable(s, t, buf, chain, schedule, r.parent);
    var fat, table := Link(s.fat, chain), NewTable(Table(s, r.parent), r, chain[0]);
    ApplyAppend(s.disk, DataPuts(schedule, buf), BackPuts(fat, r.parent, table));
    ApplyTwo(Apply(s.disk, DataPuts(schedule, buf)), BackPuts(fat, r.parent, table)[0], BackPuts(fat, r.parent, table)[1]);
  }

  /** The node that a write adds when its chain starts at `head` and ends up with
      `contents`. An entry that is made without a directory attribute keeps the
      one its slot had. */
  ghost function NewNode(s: State, r: Request, buf: seq<byte>, head: nat, contents: seq<Cluster>): Node
    requires r.parent < CLUSTER_MAP_SIZE && WriteCode(s, r) == 0
    requires CLUSTER_SIZE <= |buf| && r.Chunks() * CLUSTER_SIZE < 0x1_0000_0000
  {
    if MakesDirectory(r, buf) then Directory(head, DecodeDir(Chunk(buf, 0))[0].IsDirectory())
    else if r.buffer_size == 0 || Entry(s, StoreSlot(s, r)).IsDirectory() then Impostor(r.Chunks() * CLUSTER_SIZE, contents)
    else File(r.Chunks() * CLUSTER_SIZE, contents)
  }

  ghost function StoreNode(s: State, r: Request, buf: seq<byte>, chain: seq<nat>, schedule: seq<nat>): Node
    requires r.parent < CLUSTER_MAP_SIZE && WriteCode(s, r) == 0 && CLUSTER_SIZE <= |buf|
    requires Fits(s.fat, buf, chain, schedule) && r.Chunks() * CLUSTER_SIZE < 0x1_0000_0000
  {
    NewNode(s, r, buf, chain[0], Contents(Apply(s.disk, DataPuts(schedule, buf)), chain))
  }

  lemma StoreSizes(s: State, r: Request)
    requires r.parent < CLUSTER_MAP_SIZE && WriteCode(s, r) == 0
    ensures r.Chunks() <= CLUSTER_MAP_SIZE - 2
  {
    hide DecodeDir, Find, FreeSlot;
    AscendingBound(Empties(s.fat, 2));
  }

  lemma StoredNode(s: State, t: Tree, r: Request, buf: seq<byte>, chain: seq<nat>, schedule: seq<nat>)
    requires CanStore(s, t, r, buf, chain, schedule) && r.Chunks() <= CLUSTER_MAP_SIZE - 2
    ensures var s', t', e := Stored(s, r, buf, chain, schedule), StoreTree(s, t, r, buf, chain), StoreEntry(s, r, chain);
            Ordered(s'.fat, e.Head()) && NodeOf(s', t', e) == StoreNode(s, r, buf, chain, schedule)
  {
    hide Sound, DecodeDir, EncodeDir, Apply, DataPuts, StoreEntry, Link, Chain, Terminated, FreeSlot, FreeCount,
         Staged, StoreTrace, WithEntry, Chunk, Referenced;
    var s2, s', a, e := Staged(s, buf, chain, schedule), Stored(s, r, buf, chain, schedule), StoreSlot(s, r), StoreEntry(s, r, chain);
    StoreEntryFields(s, r, chain);
    NewFat(s.fat, chain);
    StoredIsStagedPlusEntry(s, t, r, buf, chain, schedule);
    StoreCanAdd(s, t, r, buf, chain, schedule);
    NewHead(s2, t, a, e, MakesDirectory(r, buf));
    StagedContents(s, buf, chain, schedule);
    StagedSound(s, t, buf, chain, schedule);
    if MakesDirectory(r, buf) {
      StagedDirectory(s, buf, chain, schedule);
      WithEntryMark(s2, a, e, chain[0]);
    } else {
      StoredContents(s, t, r, buf, chain, schedule);
    }
  }

  lemma StoredContents(s: State, t: Tree, r: Request, buf: seq<byte>, chain: seq<nat>, schedule: seq<nat>)
    requires CanStore(s, t, r, buf, chain, schedule)
    ensures var s' := Stored(s, r, buf, chain, schedule);
            Terminated(s'.fat, chain[0]) &&
            ChainClusters(s', chain[0]) == Contents(Apply(s.disk, DataPuts(schedule, buf)), chain)
  {
    hide Sound, DecodeDir, EncodeDir, Apply, DataPuts, StoreEntry, Link, Chain, Terminated, FreeSlot, FreeCount,
         Staged, StoreTrace, Chunk, Referenced;
    var s2, a, e := Staged(s, buf, chain, schedule), StoreSlot(s, r), StoreEntry(s, r, chain);
    StoreEntryFields(s, r, chain);
    NewFat(s.fat, chain);
    StoredIsStagedPlusEntry(s, t, r, buf, chain, schedule);
    StoreCanAdd(s, t, r, buf, chain, schedule);
    NewHead(s2, t, a, e, MakesDirectory(r, buf));
    StagedContents(s, buf, chain, schedule);
    StagedSound(s, t, buf, chain, schedule);
  }

  /** A store adds exactly one name to the map, keeps the volume sound, leaks
      nothing, and takes `|chain|` free clusters. */
  lemma StoreRefines(s: State, t: Tree, r: Request, buf: seq<byte>, chain: seq<nat>, schedule: seq<nat>)
    requires CanStore(s, t, r, buf, chain, schedule)
    ensures var s', t' := Stored(s, r, buf, chain, schedule), StoreTree(s, t, r, buf, chain);
            var key := Key(r.parent, r.Id());
            r.Chunks() <= CLUSTER_MAP_SIZE - 2 && Sound(s', t') && key !in Abs(s, t) &&
            Abs(s', t') == Abs(s, t)[key := StoreNode(s, r, buf, chain, schedule)]
  {
    hide Sound, StoreEntry, StoreNode, Stored, Staged, NodeOf, Abs, WithEntry, CanStore, CanAdd, Terminated, Fits,
         FreeSlot, DecodeDir;
    CanStoreMeans(s, t, r, buf, chain, schedule);
    StoreSizes(s, r);
    StoreEntryFields(s, r, chain);
    StagedSound(s, t, buf, chain, schedule);
    StoreCanAdd(s, t, r, buf, chain, schedule);
    StoredIsStagedPlusEntry(s, t, r, buf, chain, schedule);
    AddEntry(Staged(s, buf, chain, schedule), t, StoreSlot(s, r), StoreEntry(s, r, chain), MakesDirectory(r, buf));
    StoredNode(s, t, r, buf, chain, schedule);
  }

  lemma CanStoreMeans(s: State, t: Tree, r: Request, buf: seq<byte>, chain: seq<nat>, schedule: seq<nat>)
    requires CanStore(s, t, r, buf, chain, schedule)
    ensures Sound(s, t) && r.parent < CLUSTER_MAP_SIZE && WriteCode(s, r) == 0 && r.parent as nat in t
    ensures Fits(s.fat, buf, chain, schedule) && ClaimsFree(s.fat, chain) && CLUSTER_SIZE <= |buf|
  {
  }

  lemma StoreNoLeak(s: State, t: Tree, r: Request, buf: seq<byte>, chain: seq<nat>, schedule: seq<nat>)
    requires CanStore(s, t, r, buf, chain, schedule) && NoLeak(s, t)
    ensures NoLeak(Stored(s, r, buf, chain, schedule), StoreTree(s, t, r, buf, chain))
  {
    hide Sound, DecodeDir, StoreEntry, StoreSlot, Stored, Staged, Referenced, Abs, WithEntry, CanAdd, Terminated,
         Chain, Link, FreeSlot, SameReferenced;
    var s2, s', t' := Staged(s, buf, chain, schedule), Stored(s, r, buf, chain, schedule), StoreTree(s, t, r, buf, chain);
    var a, e := StoreSlot(s, r), StoreEntry(s, r, chain);
    StagedSound(s, t, buf, chain, schedule);
    StoreCanAdd(s, t, r, buf, chain, schedule);
    StoreEntryFields(s, r, chain);
    StoredIsStagedPlusEntry(s, t, r, buf, chain, schedule);
    WithEntryFat(s2, a, e);
    NewFat(s.fat, chain);
    forall c: nat | 2 <= c < CLUSTER_MAP_SIZE && s'.fat[c] != EMPTY_ENTRY
      ensures Referenced(s', t', c)
    {
      AddedReferenced(s2, t, a, e, MakesDirectory(r, buf), c);
    }
  }

  // ---------- write ----------

  /** What a caller of `write` has to respect for a request that will succeed:
      the parent is a directory, and the buffer holds all the chunks that `write`
      takes from it, which is always more than `buffer_size` bytes. */
  ghost predicate LegalWrite(s: State, t: Tree, r: Request, buf: seq<byte>) {
    r.parent < CLUSTER_MAP_SIZE &&
    (WriteCode(s, r) == 0 ==> r.parent as nat in t && CLUSTER_SIZE * r.Chunks() <= |buf|)
  }

  ghost function WriteTree(s: State, t: Tree, r: Request, buf: seq<byte>): Tree
    requires r.parent < CLUSTER_MAP_SIZE && WriteCode(s, r) == 0 && r.parent as nat in t
    requires CLUSTER_SIZE <= |buf|
  {
    StoreTree(s, t, r, buf, WriteChain(s, r))
  }

  lemma WriteCanStore(s: State, t: Tree, r: Request, buf: seq<byte>)
    requires Sound(s, t) && LegalWrite(s, t, r, buf) && WriteCode(s, r) == 0
    ensures var chain := WriteChain(s, r);
            var schedule := Schedule(chain, r.Chunks());
            CanStore(s, t, r, buf, chain, schedule) && WriteResult(s, r, buf) == Stored(s, r, buf, chain, schedule)
  {
    hide Sound, DecodeDir, Find, Empties, Link, Apply, DataPuts;
  }

  /** The node that `write` adds: of `n` chunks, ceil(n/2) survive. */
  ghost function WrittenNode(s: State, r: Request, buf: seq<byte>): Node
    requires r.parent < CLUSTER_MAP_SIZE && WriteCode(s, r) == 0
    requires r.Chunks() <= CLUSTER_MAP_SIZE - 2 && CLUSTER_SIZE * r.Chunks() <= |buf|
  {
    NewNode(s, r, buf, WriteChain(s, r)[0], KeptChunks(buf, r.Chunks()))
  }

  lemma WriteContents(disk: Disk, chain: seq<nat>, buf: seq<byte>, n: nat)
    requires InTable(chain) && |chain| == (n + 1) / 2 && CLUSTER_SIZE * n <= |buf|
    ensures Contents(Apply(disk, DataPuts(Schedule(chain, n), buf)), chain) == KeptChunks(buf, n)
  {
    hide Apply, Chunk, DataPuts;
    forall k | 0 <= k < |chain|
      ensures Apply(disk, DataPuts(Schedule(chain, n), buf))[chain[k]] == Chunk(buf, KeptChunk(n, k))
    {
      ScheduleKeeps(disk, chain, buf, n, k);
    }
  }

  lemma WrittenIsStored(s: State, r: Request, buf: seq<byte>)
    requires r.parent < CLUSTER_MAP_SIZE && WriteCode(s, r) == 0
    requires r.Chunks() <= CLUSTER_MAP_SIZE - 2 && CLUSTER_SIZE * r.Chunks() <= |buf|
    ensures var chain := WriteChain(s, r);
            StoreNode(s, r, buf, chain, Schedule(chain, r.Chunks())) == WrittenNode(s, r, buf)
  {
    hide Apply, Chunk, DataPuts, FreeCount, Empties, KeptChunks;
    WriteContents(s.disk, WriteChain(s, r), buf, r.Chunks());
  }

  /** A successful write adds exactly one name to the map, whose node is made of
      the surviving chunks, and changes no other name. */
  lemma WriteRefines(s: State, t: Tree, r: Request, buf: seq<byte>)
    requires Sound(s, t) && LegalWrite(s, t, r, buf) && WriteCode(s, r) == 0
    ensures var s', t' := WriteResult(s, r, buf), WriteTree(s, t, r, buf);
            var key := Key(r.parent, r.Id());
            r.Chunks() <= CLUSTER_MAP_SIZE - 2 && Sound(s', t') && key !in Abs(s, t) &&
            Abs(s', t') == Abs(s, t)[key := WrittenNode(s, r, buf)]
    ensures NoLeak(s, t) ==> NoLeak(WriteResult(s, r, buf), WriteTree(s, t, r, buf))
  {
    hide Sound, Abs, NoLeak, Stored, StoreNode, WrittenNode, WriteChain, CanStore, Schedule, StoreTree, DecodeDir,
         WriteResult;
    var chain := WriteChain(s, r);
    var schedule := Schedule(chain, r.Chunks());
    WriteCanStore(s, t, r, buf);
    StoreRefines(s, t, r, buf, chain, schedule);
    WrittenIsStored(s, r, buf);
    if NoLeak(s, t) {
      StoreNoLeak(s, t, r, buf, chain, schedule);
    }
  }

  /** `write` checks for `n` free clusters and takes ceil(n/2) of them. */
  lemma WriteTakes(s: State, r: Request, buf: seq<byte>)
    requires r.parent < CLUSTER_MAP_SIZE && WriteCode(s, r) == 0 && CLUSTER_SIZE * r.Chunks() <= |buf|
    ensures FreeCount(WriteResult(s, r, buf).fat) == FreeCount(s.fat) - (r.Chunks() - r.Chunks() / 2)
  {
    hide Link, Apply, WriteTrace, Empties, DecodeDir, Find, FreeSlot;
    LinkFreeCount(s.fat, WriteChain(s, r));
  }

  // ---------- delete ----------

  ghost function DeleteSlot(s: State, r: Request): Slot
    requires r.parent < CLUSTER_MAP_SIZE
  {
    SlotOf(s, Key(r.parent, r.Id()))
  }

  /** A request made of a directory of the tree finds entries that head chains. */
  lemma SoundWalkable(s: State, t: Tree, p: word, id: seq<byte>)
    requires Sound(s, t) && p < CLUSTER_MAP_SIZE && (ParentOk(s, p) ==> p as nat in t)
    ensures Walkable(s, p, id) && Bounded(s, p, id)
    ensures var a := SlotOf(s, Key(p, id));
            ParentOk(s, p) && a.index < TABLE_SIZE ==> IsLive(s, t, a) && EntryOk(s, t, a) && KeyOf(s, a) == Key(p, id)
  {
    hide DecodeDir, DirsOk, Chain, Terminated;
    var a := SlotOf(s, Key(p, id));
    if ParentOk(s, p) && a.index < TABLE_SIZE {
      assert IsLive(s, t, a);
      assert EntryOk(s, t, a);
    }
  }

  ghost function DeleteTree(s: State, t: Tree, r: Request): Tree
    requires r.parent < CLUSTER_MAP_SIZE && InRange(DeleteSlot(s, r))
  {
    TreeWithout(s, t, DeleteSlot(s, r))
  }

  lemma DeleteCanRemove(s: State, t: Tree, r: Request)
    requires Sound(s, t) && r.parent < CLUSTER_MAP_SIZE && (ParentOk(s, r.parent) ==> r.parent as nat in t)
    requires Walkable(s, r.parent, r.Id()) && DeleteCode(s, r) == 0
    ensures var a := DeleteSlot(s, r);
            CanRemove(s, t, a) && KeyOf(s, a) == Key(r.parent, r.Id()) && a.dir == r.parent &&
            DeleteFat(s, r) == Clear(s.fat, Chain(s.fat, Head(s, a)))
  {
    hide DecodeDir, Chain, Terminated, IsEmptyTable, Clear, Sound;
    SoundWalkable(s, t, r.parent, r.Id());
  }

  /** The result is the state without the entry, plus the freed table. */
  lemma DeleteIsRemovePlusFree(s: State, t: Tree, r: Request)
    requires Sound(s, t) && r.parent < CLUSTER_MAP_SIZE && (ParentOk(s, r.parent) ==> r.parent as nat in t)
    requires Walkable(s, r.parent, r.Id()) && DeleteCode(s, r) == 0 && InRange(DeleteSlot(s, r))
    ensures var a := DeleteSlot(s, r);
            DeleteResult(s, r) == WithFat(WithEntry(s, a, Dead(s, a)), DeleteFat(s, r))
  {
    hide DecodeDir, Chain, Terminated, IsEmptyTable, Clear, Sound, EncodeDir, EncodeFat, Apply;
    var puts := DeleteTrace(s, r);
    ApplyTwo(s.disk, puts[0], puts[1]);
  }

  lemma ClearedFat(fat: FatMap, h: nat)
    requires Ordered(fat, h)
    ensures var f := Clear(fat, Chain(fat, h));
            f[0] == fat[0] && f[1] == fat[1] && forall c :: 0 <= c < CLUSTER_MAP_SIZE ==>
              f[c] == if c in Chain(fat, h) then EMPTY_ENTRY else fat[c]
  {
    hide Chain, Terminated;
    ChainIsChain(fat, h);
  }

  /** A successful delete removes exactly one name from the map. */
  lemma DeleteRefines(s: State, t: Tree, r: Request)
    requires Sound(s, t) && r.parent < CLUSTER_MAP_SIZE && (ParentOk(s, r.parent) ==> r.parent as nat in t)
    requires Walkable(s, r.parent, r.Id()) && DeleteCode(s, r) == 0
    ensures InRange(DeleteSlot(s, r))
    ensures var s', t' := DeleteResult(s, r), DeleteTree(s, t, r);
            var key := Key(r.parent, r.Id());
            Sound(s', t') && key in Abs(s, t) && Abs(s', t') == Abs(s, t) - {key}
  {
    hide DecodeDir, Chain, Sound, Abs, WithFat, WithEntry, DeleteResult, DeleteFat, Owns, Referenced, Clear, SlotOf,
         EntryOk, DeleteCode, Walkable;
    DeleteCanRemove(s, t, r);
    var a := DeleteSlot(s, r);
    var s1, t' := WithEntry(s, a, Dead(s, a)), DeleteTree(s, t, r);
    RemoveEntry(s, t, a);
    DeleteIsRemovePlusFree(s, t, r);
    DeletedWords(s, t, a);
    FatPhase(s1, t', DeleteFat(s, r));
  }

  /** The freed words are not referred to once the entry is gone. */
  lemma DeletedWords(s: State, t: Tree, a: Slot)
    requires CanRemove(s, t, a)
    ensures Ordered(s.fat, Head(s, a))
    ensures var s1, t' := WithEntry(s, a, Dead(s, a)), TreeWithout(s, t, a);
            var fat := Clear(s.fat, Chain(s.fat, Head(s, a)));
            fat[0] == s1.fat[0] && fat[1] == s1.fat[1] &&
            forall c :: 2 <= c < CLUSTER_MAP_SIZE && Referenced(s1, t', c) ==> fat[c] == s1.fat[c]
  {
    hide DecodeDir, Chain, Sound, WithEntry, Referenced, Clear, Entry, TreeWithout;
    var s1, t' := WithEntry(s, a, Dead(s, a)), TreeWithout(s, t, a);
    WithEntryFat(s, a, Dead(s, a));
    ClearedFat(s.fat, Head(s, a));
    forall c: nat | 2 <= c < CLUSTER_MAP_SIZE && Referenced(s1, t', c)
      ensures !Owns(s, a, c)
    {
      if Owns(s, a, c) {
        RemovedDropsChain(s, t, a, c);
      }
    }
  }

  lemma DeleteNoLeak(s: State, t: Tree, r: Request)
    requires Consistent(s, t) && r.parent < CLUSTER_MAP_SIZE && (ParentOk(s, r.parent) ==> r.parent as nat in t)
    requires Walkable(s, r.parent, r.Id()) && DeleteCode(s, r) == 0 && InRange(DeleteSlot(s, r))
    ensures NoLeak(DeleteResult(s, r), DeleteTree(s, t, r))
  {
    hide DecodeDir, Chain, Sound, Abs, WithEntry, DeleteResult, DeleteFat, Referenced, Clear, SlotOf, EntryOk,
         DeleteCode, Walkable, Entry, EncodeFat;
    DeleteCanRemove(s, t, r);
    var a := DeleteSlot(s, r);
    var s1, t' := WithEntry(s, a, Dead(s, a)), DeleteTree(s, t, r);
    RemoveEntry(s, t, a);
    DeleteIsRemovePlusFree(s, t, r);
    DeletedWords(s, t, a);
    ClearedFat(s.fat, Head(s, a));
    FatPhase(s1, t', DeleteFat(s, r));
    forall c: nat | 2 <= c < CLUSTER_MAP_SIZE && DeleteFat(s, r)[c] != EMPTY_ENTRY
      ensures Referenced(DeleteResult(s, r), t', c)
    {
      RemovedKeepsRest(s, t, a, c);
      FrameReferenced(s1, WithFat(s1, DeleteFat(s, r)), t', c);
    }
  }

  /** `delete` gives back exactly the clusters of the chain. */
  lemma DeleteGivesBack(s: State, t: Tree, r: Request)
    requires Sound(s, t) && r.parent < CLUSTER_MAP_SIZE && (ParentOk(s, r.parent) ==> r.parent as nat in t)
    requires Walkable(s, r.parent, r.Id()) && DeleteCode(s, r) == 0
    ensures var table := Table(s, r.parent);
            FreeCount(DeleteResult(s, r).fat) == FreeCount(s.fat) + |Chain(s.fat, table[Find(table, r.Id())].Head())|
  {
    hide DecodeDir, Chain, Terminated, Clear, FreeCount, Apply, Sound, IsEmptyTable;
    SoundWalkable(s, t, r.parent, r.Id());
    ClearFreeCount(s.fat, Head(s, DeleteSlot(s, r)));
  }
}

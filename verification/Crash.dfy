/** What a mount finds after power was lost between two cluster writes. */
module Crash {
  import opened Bytes
  import opened Layout
  import opened Fat
  import opened Volume
  import opened Blocks
  import opened Tree
  import opened Frames
  import opened Entries
  import opened Refinement
  import opened FileSystem
  import opened Lookup
  import opened Structure

  /** Mounting a disk whose cached state is in step with it changes nothing: the
      signature survives and the cache is what it was. */
  lemma MountIsTransparent(s: State)
    requires Mounted(s)
    ensures Mount(s.disk) == s && MountTrace(s.disk) == []
  {
    hide DecodeFat, EncodeFat;
    FatRoundTrip(s.fat);
    ApplyNone(s.disk);
  }

  /** Clusters that are marked as used although nothing refers to them. */
  ghost predicate Leaked(s: State, t: Tree, c: nat) {
    2 <= c < CLUSTER_MAP_SIZE && s.fat[c] != EMPTY_ENTRY && !Referenced(s, t, c)
  }

  /** The directories keep their stale slots when nothing referred to changes. */
  lemma TaintedFrame(s: State, s': State, t: Tree)
    requires SameReferenced(s, s', t)
    ensures Tainted(s', t) == Tainted(s, t)
  {
    hide HasStaleSlot, DecodeDir;
    forall d | d in t && d < CLUSTER_MAP_SIZE
      ensures Table(s', d) == Table(s, d)
    {
      assert Referenced(s, t, d);
    }
  }

  /** Data in EMPTY clusters: what the next mount finds. */
  lemma DataMounted(s: State, t: Tree, puts: seq<Put>)
    requires Sound(s, t) && IntoEmpty(s.fat, puts)
    ensures var m := Mount(Apply(s.disk, puts));
            Sound(m, t) && Shown(m, t) == Shown(s, t) && forall c :: Leaked(m, t, c) <==> Leaked(s, t, c)
  {
    hide Sound, Abs, Apply, Mount, Referenced, SameReferenced, Tainted, FreeCount;
    var m := State(Apply(s.disk, puts), s.fat);
    DataPhase(s, t, puts);
    TaintedFrame(s, m, t);
    assert Mounted(m) by { SoundMounted(m, t); }
    MountIsTransparent(m);
    forall c: nat
      ensures Leaked(m, t, c) <==> Leaked(s, t, c)
    {
      FrameReferenced(s, m, t, c);
    }
  }

  lemma SoundMounted(s: State, t: Tree)
    requires Sound(s, t)
    ensures Mounted(s)
  {
  }

  // ---------- write, block by block ----------

  /** The clusters of `chain` whose words are among the first `limit`. */
  ghost function Below(chain: seq<nat>, limit: int): set<nat> {
    set c | c in chain && c < limit
  }

  /** Part of the new table stored: what the next mount finds. */
  lemma PartlyMounted(s: State, t: Tree, buf: seq<byte>, chain: seq<nat>, schedule: seq<nat>, w: nat)
    requires Sound(s, t) && Fits(s.fat, buf, chain, schedule) && w <= CLUSTER_MAP_SIZE
    ensures var m := PartlyStaged(s, buf, chain, schedule, w);
            Mount(m.disk) == m && Sound(m, t) && |Below(chain, w)| <= FreeCount(s.fat) &&
            Shown(m, t) == Shown(s, t).(free := FreeCount(s.fat) - |Below(chain, w)|) &&
            forall c :: Leaked(m, t, c) <==> Leaked(s, t, c) || c in Below(chain, w)
  {
    hide Sound, Abs, Mount, Referenced, SameReferenced, Link, Chain, Terminated, Tainted, FreeCount, Apply, DataPuts,
         EncodeFat;
    var m := PartlyStaged(s, buf, chain, schedule, w);
    PartlySound(s, t, buf, chain, schedule, w);
    TaintedFrame(s, m, t);
    assert Mounted(m) by { SoundMounted(m, t); }
    MountIsTransparent(m);
    NewFat(s.fat, chain);
    PartlyFree(s.fat, chain, w);
  }

  lemma PartlyFree(fat: FatMap, chain: seq<nat>, w: nat)
    requires ClaimsFree(fat, chain) && w <= CLUSTER_MAP_SIZE
    ensures FreeCount(Partly(fat, Link(fat, chain), w)) + |Below(chain, w)| == FreeCount(fat)
  {
    hide FreeCount, Link, Chain, Terminated;
    NewFat(fat, chain);
    var part := Partly(fat, Link(fat, chain), w);
    FreeCountIsSize(fat);
    FreeCountIsSize(part);
    assert FreeSet(fat) == FreeSet(part) + Below(chain, w);
    assert FreeSet(part) !! Below(chain, w);
  }

  /** The disk when the first `m` blocks of a write reached it. */
  ghost function Cut(s: State, r: Request, buf: seq<byte>, m: nat): Disk
    requires r.parent < CLUSTER_MAP_SIZE && WriteCode(s, r) == 0 && CLUSTER_SIZE * r.Chunks() <= |buf|
    requires m <= |PutsBlocks(WriteTrace(s, r, buf))|
  {
    PutsOnDevice(WriteTrace(s, r, buf));
    LandAll(s.disk, PutsBlocks(WriteTrace(s, r, buf))[..m])
  }

  /** Cut within the data. */
  lemma CutInData(s: State, t: Tree, data: seq<Put>, rest: seq<Put>, m: nat)
    requires Sound(s, t) && IntoEmpty(s.fat, data) && m <= CLUSTER_BLOCK_COUNT * |data|
    ensures var some := PutsBlocks(data + rest)[..m];
            OnDevice(some) &&
            var after := Mount(LandAll(s.disk, some));
            Sound(after, t) && Shown(after, t) == Shown(s, t) && forall c :: Leaked(after, t, c) <==> Leaked(s, t, c)
  {
    hide Sound, Shown, Apply, Mount, Leaked, PutsBlocks, LandAll, Mixed;
    ApplyNone(s.disk);
    if m == 0 {
      LandNothing(s.disk, PutsBlocks(data + rest)[..0]);
      DataMounted(s, t, []);
    } else {
      var k := (m - 1) / CLUSTER_BLOCK_COUNT;
      var j := m - CLUSTER_BLOCK_COUNT * k;
      PrefixLands(s.disk, data + rest, k, j);
      assert (data + rest)[..k] == data[..k] && (data + rest)[k] == data[k];
      var last := Put(data[k].cluster, Mixed(Apply(s.disk, data[..k])[data[k].cluster], data[k].data, j));
      ApplyOne(s.disk, data[..k], last);
      DataMounted(s, t, data[..k] + [last]);
    }
  }

  /** The trace of a write in its three parts. */
  lemma TraceParts(s: State, t: Tree, r: Request, buf: seq<byte>)
    requires Sound(s, t) && LegalWrite(s, t, r, buf) && WriteCode(s, r) == 0
    ensures var chain := WriteChain(s, r);
            var schedule := Schedule(chain, r.Chunks());
            CanStore(s, t, r, buf, chain, schedule) && IntoEmpty(s.fat, DataPuts(schedule, buf)) &&
            WriteTrace(s, r, buf) == DataPuts(schedule, buf) +
              [Put(FAT_CLUSTER_NUMBER, EncodeFat(Link(s.fat, chain))),
               Put(r.parent, EncodeDir(NewTable(Table(s, r.parent), r, chain[0])))]
  {
    hide Sound, DecodeDir, EncodeDir, EncodeFat, Link, FindFrom, FreeSlotFrom, Empties, NewEntry;
    WriteCanStore(s, t, r, buf);
    DataIntoEmpty(s.fat, buf, WriteChain(s, r), Schedule(WriteChain(s, r), r.Chunks()));
  }

  /** Cut within the allocation table: some of its words are the new ones. */
  lemma CutInFat(s: State, t: Tree, r: Request, buf: seq<byte>, j: nat)
    requires Sound(s, t) && LegalWrite(s, t, r, buf) && WriteCode(s, r) == 0 && j <= CLUSTER_BLOCK_COUNT
    ensures var chain, n := WriteChain(s, r), r.Chunks();
            var schedule := Schedule(chain, n);
            Fits(s.fat, buf, chain, schedule) && CLUSTER_BLOCK_COUNT * n + j <= |PutsBlocks(WriteTrace(s, r, buf))| &&
            Cut(s, r, buf, CLUSTER_BLOCK_COUNT * n + j) == PartlyStaged(s, buf, chain, schedule, WORDS_PER_BLOCK * j).disk
  {
    hide Sound, DecodeDir, EncodeDir, EncodeFat, Link, FindFrom, FreeSlotFrom, Empties, NewTable, Apply, DataPuts,
         PutsBlocks,
         LandAll, Mixed, WriteTrace;
    var chain := WriteChain(s, r);
    var data := DataPuts(Schedule(chain, r.Chunks()), buf);
    TraceParts(s, t, r, buf);
    var trace := WriteTrace(s, r, buf);
    PrefixLands(s.disk, trace, r.Chunks(), j);
    assert trace[..r.Chunks()] == data;
    FatUntouched(s, t, data);
    MixedFat(s.fat, Link(s.fat, chain), j);
  }

  lemma FatUntouched(s: State, t: Tree, data: seq<Put>)
    requires Sound(s, t) && IntoEmpty(s.fat, data)
    ensures Apply(s.disk, data)[FAT_CLUSTER_NUMBER] == EncodeFat(s.fat)
  {
    hide EncodeFat, DirsOk, EntriesOk, NoSharing, UniqueIds, Apply, FsSignature;
    ApplyElsewhere(s.disk, data, FAT_CLUSTER_NUMBER);
  }

  /** Cut within the parent's table: the new entry is there, or the table is the old
      one. */
  lemma CutInTable(s: State, t: Tree, r: Request, buf: seq<byte>, j: nat)
    requires Sound(s, t) && LegalWrite(s, t, r, buf) && WriteCode(s, r) == 0 && j <= CLUSTER_BLOCK_COUNT
    ensures var chain, n := WriteChain(s, r), r.Chunks();
            var schedule := Schedule(chain, n);
            var m := CLUSTER_BLOCK_COUNT * (n + 1) + j;
            Fits(s.fat, buf, chain, schedule) && m <= |PutsBlocks(WriteTrace(s, r, buf))| &&
            Cut(s, r, buf, m) == if StoreSlot(s, r).index < ENTRIES_PER_BLOCK * j then WriteResult(s, r, buf).disk
                                 else Staged(s, buf, chain, schedule).disk
  {
    hide Sound, DecodeDir, EncodeDir, EncodeFat, Link, FindFrom, FreeSlotFrom, Empties, NewEntry, Apply, DataPuts,
         PutsBlocks,
         LandAll, Mixed, WriteTrace;
    var chain := WriteChain(s, r);
    var schedule := Schedule(chain, r.Chunks());
    var data := DataPuts(schedule, buf);
    TraceParts(s, t, r, buf);
    var trace := WriteTrace(s, r, buf);
    PrefixLands(s.disk, trace, r.Chunks() + 1, j);
    assert trace[..r.Chunks() + 1] == data + [trace[r.Chunks()]];
    ApplyOne(s.disk, data, trace[r.Chunks()]);
    assert trace == trace[..r.Chunks() + 1] + [trace[r.Chunks() + 1]];
    ApplyOne(s.disk, trace[..r.Chunks() + 1], trace[r.Chunks() + 1]);
    StagedTable(s, t, buf, chain, schedule, r.parent);
    DirBytesRoundTrip(Staged(s, buf, chain, schedule).disk[r.parent]);
    var table := Table(s, r.parent);
    MixedDir(table, FreeSlot(table), NewEntry(table[FreeSlot(table)], r, chain[0]), j);
  }

  /** Whatever prefix of a write's blocks reached the disk, the next mount shows exactly
      the old file system or exactly the state the write returns with; it turns from one
      to the other at the single block that holds the new directory entry. Before that
      the only trace is fewer free clusters, from when their words are stored on: those
      of the new chain, which nothing refers to. The volume is sound throughout, so
      that later operations work on it. */
  lemma WriteIsCrashSafe(s: State, t: Tree, r: Request, buf: seq<byte>, m: nat)
    requires Sound(s, t) && LegalWrite(s, t, r, buf) && WriteCode(s, r) == 0
    requires m <= |PutsBlocks(WriteTrace(s, r, buf))|
    ensures var n, slot := r.Chunks(), StoreSlot(s, r).index;
            var lost := Below(WriteChain(s, r), 128 * (m - 4 * n));
            var after := Mount(Cut(s, r, buf, m));
            |PutsBlocks(WriteTrace(s, r, buf))| == 4 * (n + 2) &&
            if m <= 4 * (n + 1) + slot / 16 then
              Sound(after, t) && |lost| <= FreeCount(s.fat) &&
              Shown(after, t) == Shown(s, t).(free := FreeCount(s.fat) - |lost|) &&
              forall c :: Leaked(after, t, c) <==> Leaked(s, t, c) || c in lost
            else
              after == WriteResult(s, r, buf) && Sound(after, WriteTree(s, t, r, buf))
  {
    hide Sound, Shown, Leaked, Staged, PartlyStaged, DecodeDir, EncodeDir, EncodeFat, Link, Mount, Apply, WriteChain,
         FreeCount,
         WriteTree, WriteTrace, DataPuts, PutsBlocks, LandAll, StoreSlot, CanStore, WriteResult;
    var n, chain := r.Chunks(), WriteChain(s, r);
    var schedule := Schedule(chain, n);
    TraceParts(s, t, r, buf);
    CutInFat(s, t, r, buf, 0);
    if m <= 4 * n {
      CutInData(s, t, DataPuts(schedule, buf),
                [Put(FAT_CLUSTER_NUMBER, EncodeFat(Link(s.fat, chain))),
                 Put(r.parent, EncodeDir(NewTable(Table(s, r.parent), r, chain[0])))], m);
      assert Below(chain, 128 * (m - 4 * n)) == {};
      FreeUnchanged(s, t);
    } else if m <= 4 * (n + 1) {
      CutInFat(s, t, r, buf, m - 4 * n);
      PartlyMounted(s, t, buf, chain, schedule, 128 * (m - 4 * n));
    } else {
      var j := m - 4 * (n + 1);
      CutInTable(s, t, r, buf, j);
      if StoreSlot(s, r).index < 16 * j {
        WriteRefines(s, t, r, buf);
        SoundMounted(WriteResult(s, r, buf), WriteTree(s, t, r, buf));
        MountIsTransparent(WriteResult(s, r, buf));
      } else {
        PartlyMounted(s, t, buf, chain, schedule, CLUSTER_MAP_SIZE);
        WholeIsStaged(s, buf, chain, schedule);
        AllBelow(s.fat, chain, 128 * (m - 4 * n));
      }
    }
  }

  lemma FreeUnchanged(s: State, t: Tree)
    requires Sound(s, t)
    ensures Shown(s, t) == Shown(s, t).(free := FreeCount(s.fat) - 0)
  {
  }

  lemma WholeIsStaged(s: State, buf: seq<byte>, chain: seq<nat>, schedule: seq<nat>)
    requires Fits(s.fat, buf, chain, schedule)
    ensures PartlyStaged(s, buf, chain, schedule, CLUSTER_MAP_SIZE) == Staged(s, buf, chain, schedule)
  {
    hide Link, EncodeFat, Apply, DataPuts;
    assert Partly(s.fat, Link(s.fat, chain), CLUSTER_MAP_SIZE) == Link(s.fat, chain);
  }

  lemma AllBelow(fat: FatMap, chain: seq<nat>, limit: int)
    requires ClaimsFree(fat, chain) && limit >= CLUSTER_MAP_SIZE
    ensures Below(chain, limit) == Below(chain, CLUSTER_MAP_SIZE)
  {
  }

  // ---------- delete ----------

  /** A directory stays one in every volume with the same tables, under any tree
      that counts all directory entries as directories. */
  lemma {:induction false} StaysDirectory(s: State, t: Tree, m: State, t': Tree, d: nat)
    requires Sound(s, t) && Sound(m, t') && NoImpostors(m, t') && d in t
    requires forall c :: c in t && c < CLUSTER_MAP_SIZE ==> Table(m, c) == Table(s, c)
    ensures d in t'
    decreases t[d].depth
  {
    hide DecodeDir, Mounted, EntriesOk, NoSharing, UniqueIds;
    if d != ROOT_CLUSTER_NUMBER {
      assert DirOk(s, t, d);
      var a := t[d].slot;
      StaysDirectory(s, t, m, t', a.dir);
      assert IsLive(m, t', a);
    }
  }

  /** The disk when the first `m` blocks of a delete reached it. */
  ghost function DeleteCut(s: State, r: Request, m: nat): Disk
    requires r.parent < CLUSTER_MAP_SIZE && Walkable(s, r.parent, r.Id()) && DeleteCode(s, r) == 0
    requires m <= |PutsBlocks(DeleteTrace(s, r))|
  {
    PutsOnDevice(DeleteTrace(s, r));
    LandAll(s.disk, PutsBlocks(DeleteTrace(s, r))[..m])
  }

  /** Cut within the allocation table: some of its words are the cleared ones. */
  lemma DeleteCutInFat(s: State, t: Tree, r: Request, j: nat)
    requires Sound(s, t) && r.parent < CLUSTER_MAP_SIZE && r.parent as nat in t
    requires Walkable(s, r.parent, r.Id()) && DeleteCode(s, r) == 0 && j <= CLUSTER_BLOCK_COUNT
    ensures |PutsBlocks(DeleteTrace(s, r))| == 2 * CLUSTER_BLOCK_COUNT
    ensures DeleteCut(s, r, j) == WithFat(s, Partly(s.fat, DeleteFat(s, r), WORDS_PER_BLOCK * j)).disk
  {
    hide DirsOk, EntriesOk, NoSharing, UniqueIds, DecodeDir, EncodeDir, EncodeFat, Apply, PutsBlocks, LandAll, Mixed,
         DeleteFat,
         Walkable, DeleteCode, Find, DeleteTable, FsSignature;
    var trace := DeleteTrace(s, r);
    PrefixLands(s.disk, trace, 0, j);
    ApplyNone(s.disk);
    assert trace[..0] == [];
    MixedFat(s.fat, DeleteFat(s, r), j);
  }

  /** Cut within the parent's table: the entry is cleared, or still there. */
  lemma DeleteCutInTable(s: State, t: Tree, r: Request, j: nat)
    requires Sound(s, t) && r.parent < CLUSTER_MAP_SIZE && r.parent as nat in t
    requires Walkable(s, r.parent, r.Id()) && DeleteCode(s, r) == 0 && j <= CLUSTER_BLOCK_COUNT
    ensures CLUSTER_BLOCK_COUNT + j <= |PutsBlocks(DeleteTrace(s, r))|
    ensures DeleteCut(s, r, CLUSTER_BLOCK_COUNT + j) == if DeleteSlot(s, r).index < ENTRIES_PER_BLOCK * j then DeleteResult(s, r).disk
                                                        else WithFat(s, DeleteFat(s, r)).disk
  {
    hide EntriesOk, NoSharing, UniqueIds, Mounted, DecodeDir, EncodeDir, EncodeFat, Apply, PutsBlocks, LandAll, Mixed,
         DeleteFat,
         Walkable, FindFrom;
    var trace := DeleteTrace(s, r);
    assert DirOk(s, t, r.parent);
    PrefixLands(s.disk, trace, 1, j);
    ApplyNone(s.disk);
    ApplyOne(s.disk, [], trace[0]);
    ApplyTwo(s.disk, trace[0], trace[1]);
    assert trace[..1] == [] + [trace[0]];
    DirBytesRoundTrip(s.disk[r.parent]);
    var table, i := Table(s, r.parent), Find(Table(s, r.parent), r.Id());
    MixedDir(table, i, table[i].(user_attribute := 0), j);
  }

  /** An entry that owns a cluster whose word became EMPTY has no chain any more. */
  lemma BrokenChain(s: State, fat': FatMap, b: Slot, c: nat)
    requires Owns(s, b, c) && c < CLUSTER_MAP_SIZE && fat'[c] == EMPTY_ENTRY
    requires forall x :: 0 <= x < CLUSTER_MAP_SIZE ==> fat'[x] == s.fat[x] || fat'[x] == EMPTY_ENTRY
    ensures !Ordered(fat', Head(s, b))
  {
    hide Chain, Terminated, Entry;
    var h := Head(s, b);
    if Ordered(fat', h) {
      forall x | x in Chain(fat', h)
        ensures x < CLUSTER_MAP_SIZE && fat'[x] != EMPTY_ENTRY && s.fat[x] == fat'[x]
      {
        ChainAllocated(fat', h, x);
      }
      ChainFrame(fat', s.fat, h);
    }
  }

  /** Some of a live entry's clusters are EMPTY: no tree makes the volume sound that has
      the entry's directory, or that counts every directory entry as a directory. */
  lemma DanglingUnsound(s: State, t: Tree, fat: FatMap, a: Slot, c: nat, t': Tree)
    requires Sound(s, t) && IsLive(s, t, a) && Owns(s, a, c) && c < CLUSTER_MAP_SIZE && fat[c] == EMPTY_ENTRY
    requires forall x :: 0 <= x < CLUSTER_MAP_SIZE ==> fat[x] == s.fat[x] || fat[x] == EMPTY_ENTRY
    ensures var m := WithFat(s, fat);
            IsLive(m, t, a) && Entry(m, a) == Entry(s, a) && !(Sound(m, t') && (a.dir in t' || NoImpostors(m, t')))
  {
    hide DecodeDir, Mounted, NoSharing, UniqueIds, Chain, Terminated, EncodeFat, Owns;
    var m := WithFat(s, fat);
    forall d | d in t && d < CLUSTER_MAP_SIZE
      ensures Table(m, d) == Table(s, d)
    {
      assert DirOk(s, t, d);
    }
    if Sound(m, t') && (a.dir in t' || NoImpostors(m, t')) {
      if NoImpostors(m, t') {
        StaysDirectory(s, t, m, t', a.dir);
      }
      SoundEntry(m, t', a);
      BrokenChain(s, fat, a, c);
    }
  }

  /** The words that are EMPTY once part of the freed table is stored. */
  lemma PartlyCleared(s: State, a: Slot, w: nat)
    requires InRange(a) && Ordered(s.fat, Head(s, a)) && w <= CLUSTER_MAP_SIZE
    ensures var chain := Chain(s.fat, Head(s, a));
            var part := Partly(s.fat, Clear(s.fat, chain), w);
            (forall x :: 0 <= x < CLUSTER_MAP_SIZE ==> part[x] == if x in Below(chain, w) then EMPTY_ENTRY else s.fat[x]) &&
            part[0] == s.fat[0] && part[1] == s.fat[1] && forall c :: c in Below(chain, w) ==> 2 <= c < CLUSTER_MAP_SIZE
  {
    hide Chain, Terminated, Entry;
  }

  /** `delete` stores the allocation table first. Cut before a word of the chain is
      stored, nothing has happened; cut after the block that holds the entry, all has.
      In between the entry is still there and some of its clusters are EMPTY, so that
      no tree makes the volume sound that has the parent, or that counts every
      directory entry as a directory. */
  lemma DeleteCrashExactly(s: State, t: Tree, r: Request, m: nat, t': Tree)
    requires Sound(s, t) && r.parent < CLUSTER_MAP_SIZE && r.parent as nat in t
    requires Walkable(s, r.parent, r.Id()) && DeleteCode(s, r) == 0 && m <= |PutsBlocks(DeleteTrace(s, r))|
    ensures var a := DeleteSlot(s, r);
            InRange(a) && Ordered(s.fat, Head(s, a)) && |PutsBlocks(DeleteTrace(s, r))| == 8 &&
            var lost, after := Below(Chain(s.fat, Head(s, a)), 128 * m), Mount(DeleteCut(s, r, m));
            if lost == {} then
              after == s
            else if m <= 4 + a.index / 16 then
              IsLive(after, t, a) && Entry(after, a) == Entry(s, a) && Entry(after, a).Id() == r.Id() &&
              (forall c :: c in lost ==> c < CLUSTER_MAP_SIZE && after.fat[c] == EMPTY_ENTRY) &&
              !(Sound(after, t') && (r.parent as nat in t' || NoImpostors(after, t')))
            else
              after == DeleteResult(s, r) && Sound(after, DeleteTree(s, t, r))
  {
    hide Sound, DecodeDir, EncodeDir, EncodeFat, Chain, Terminated, DeleteFat, DeleteResult, DeleteTree, DeleteCut,
         DeleteTrace,
         Mount, Walkable, DeleteCode, Find, Clear, NoImpostors, Mounted, SlotOf, IsEmptyTable, PutsBlocks;
    DeleteCutInFat(s, t, r, 0);
    DeleteCanRemove(s, t, r);
    var a := DeleteSlot(s, r);
    var chain := Chain(s.fat, Head(s, a));
    var w := if m < 4 then 128 * m else CLUSTER_MAP_SIZE;
    PartlyCleared(s, a, w);
    SameBelow(s, a, m);
    var part := Partly(s.fat, DeleteFat(s, r), w);
    SoundMounted(s, t);
    WithFatMounted(s, part);
    MountIsTransparent(WithFat(s, part));
    MountIsTransparent(s);
    if m <= 4 {
      DeleteCutInFat(s, t, r, m);
    } else {
      DeleteCutInTable(s, t, r, m - 4);
      assert part == DeleteFat(s, r);
    }
    if Below(chain, w) == {} {
      assert part == s.fat;
      MountedWithFat(s, t);
      assert Head(s, a) in chain;
    } else if m <= 4 + a.index / 16 {
      var c :| c in Below(chain, w);
      DanglingUnsound(s, t, part, a, c, t');
    } else {
      DeleteRefines(s, t, r);
      SoundMounted(DeleteResult(s, r), DeleteTree(s, t, r));
      MountIsTransparent(DeleteResult(s, r));
    }
  }

  lemma SameBelow(s: State, a: Slot, m: nat)
    requires InRange(a) && Ordered(s.fat, Head(s, a)) && m <= 8
    ensures var chain := Chain(s.fat, Head(s, a));
            Below(chain, 128 * m) == Below(chain, if m < 4 then 128 * m else CLUSTER_MAP_SIZE) &&
            (m >= 4 ==> Head(s, a) in Below(chain, 128 * m))
  {
    hide Chain, Terminated, Entry;
    assert Chain(s.fat, Head(s, a))[0] == Head(s, a);
  }

  lemma MountedWithFat(s: State, t: Tree)
    requires Sound(s, t)
    ensures WithFat(s, s.fat) == s
  {
    hide EncodeFat, DirsOk, EntriesOk, NoSharing, UniqueIds, FsSignature;
  }

  // ---------- create_fat32 ----------

  /** The disk when the first `m` blocks of a format reached it. */
  lemma FormatCut(disk: Disk, m: nat)
    requires 1 <= m <= 9
    ensures |FormatBlocks(disk)| == 9
    ensures var some := FormatBlocks(disk)[..m];
            var a, b := if m <= 5 then m - 1 else 4, if m <= 5 then 0 else m - 5;
            OnDevice(some) && LandAll(disk, some) ==
              disk[BOOT_SECTOR := FormatTrace(disk)[0].data]
                  [FAT_CLUSTER_NUMBER := Mixed(disk[FAT_CLUSTER_NUMBER], EncodeFat(InitialFat()), a)]
                  [ROOT_CLUSTER_NUMBER := Mixed(disk[ROOT_CLUSTER_NUMBER], EncodeDir(RootTable()), b)]
  {
    hide PutBlocks, PutsBlocks, EncodeFat, EncodeDir, FsSignature, Land, LandAll, Apply, Mixed, InitialFat, RootTable;
    var boot, rest := Block(BOOT_SECTOR, FsSignature()), FormatTrace(disk)[1..];
    var one := Land(disk, boot);
    BootLands(disk);
    LandNothing(disk, []);
    LandOne(disk, [], boot);
    assert [] + [boot] == [boot];
    ApplyNone(one);
    MixedEnds(disk[FAT_CLUSTER_NUMBER], EncodeFat(InitialFat()));
    MixedEnds(disk[ROOT_CLUSTER_NUMBER], EncodeDir(RootTable()));
    assert FormatBlocks(disk)[..m] == [boot] + PutsBlocks(rest)[..m - 1];
    if m <= 5 {
      PrefixLands(one, rest, 0, m - 1);
      assert rest[..0] == [];
    } else {
      PrefixLands(one, rest, 1, m - 5);
      ApplyOne(one, [], rest[0]);
      assert rest[..1] == [] + [rest[0]];
    }
    LandAppend(disk, [boot], PutsBlocks(rest)[..m - 1]);
  }

  /** `create_fat32` stores the signature first. Cut after that, the next mount takes the
      disk for a formatted one, with the old bytes wherever the blocks that follow are
      missing. It is as good as formatted exactly when those were right already. */
  lemma FormatCrashExactly(disk: Disk, m: nat)
    requires !HasSignature(disk) && 1 <= m <= |FormatBlocks(disk)|
    ensures OnDevice(FormatBlocks(disk)[..m])
    ensures var d := LandAll(disk, FormatBlocks(disk)[..m]);
            var a, b := if m <= 5 then m - 1 else 4, if m <= 5 then 0 else m - 5;
            MountTrace(d) == [] && Mount(d) == State(d, DecodeFat(d[FAT_CLUSTER_NUMBER])) &&
            d[FAT_CLUSTER_NUMBER] == Mixed(disk[FAT_CLUSTER_NUMBER], EncodeFat(InitialFat()), a) &&
            d[ROOT_CLUSTER_NUMBER] == Mixed(disk[ROOT_CLUSTER_NUMBER], EncodeDir(RootTable()), b) &&
            (Mount(d) == Mount(disk) <==>
              disk[FAT_CLUSTER_NUMBER][512 * a..] == EncodeFat(InitialFat())[512 * a..] &&
              disk[ROOT_CLUSTER_NUMBER][512 * b..] == EncodeDir(RootTable())[512 * b..])
  {
    hide Apply, EncodeFat, EncodeDir, DecodeFat, RootTable, InitialFat, FsSignature, LandAll, FormatBlocks, Mixed,
         OnDevice;
    FormatLength(disk);
    FormatCut(disk, m);
    var d := LandAll(disk, FormatBlocks(disk)[..m]);
    var puts := FormatTrace(disk);
    ApplyNone(d);
    ApplyThree(disk, puts[0], puts[1], puts[2]);
    assert puts == [puts[0], puts[1], puts[2]];
    SignatureStays(disk, d);
    var a, b := if m <= 5 then m - 1 else 4, if m <= 5 then 0 else m - 5;
    MixedIsNew(disk[FAT_CLUSTER_NUMBER], EncodeFat(InitialFat()), a);
    MixedIsNew(disk[ROOT_CLUSTER_NUMBER], EncodeDir(RootTable()), b);
  }

  lemma SignatureStays(disk: Disk, d: Disk)
    requires d[BOOT_SECTOR] == FormatTrace(disk)[0].data
    ensures HasSignature(d)
  {
    hide FsSignature, EncodeFat, EncodeDir, RootTable, InitialFat;
  }

  lemma MixedIsNew(was: Cluster, now: Cluster, j: nat)
    requires j <= CLUSTER_BLOCK_COUNT
    ensures Mixed(was, now, j) == now <==> was[BLOCK_SIZE * j..] == now[BLOCK_SIZE * j..]
  {
    var n := BLOCK_SIZE * j;
    assert now == now[..n] + now[n..];
    assert Mixed(was, now, j)[n..] == was[n..];
  }
}

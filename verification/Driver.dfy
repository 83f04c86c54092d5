/** The driver itself: cached allocation table, directory buffer, and the four
    operations, each proved to compute what `Volume` says. */
module Driver {
  import opened Bytes
  import opened Layout
  import opened Blocks
  import opened Storage
  import opened Fat
  import opened ClaimLoop
  import opened Volume

  /** The writes that store `count` consecutive clusters. */
  ghost function ClusterPuts(ptr: seq<byte>, cluster: nat, count: nat): (p: seq<Put>)
    requires CLUSTER_SIZE * count <= |ptr| && cluster + count <= DISK_CLUSTERS
    ensures |p| == count
  {
    seq<Put>(count, i requires 0 <= i < count => Put(cluster + i, Chunk(ptr, i)))
  }

  lemma ClusterPutAt(ptr: seq<byte>, cluster: nat, count: nat, i: nat)
    requires CLUSTER_SIZE * count <= |ptr| && cluster + count <= DISK_CLUSTERS && i < count
    ensures CLUSTER_SIZE * (i + 1) <= |ptr| && ClusterPuts(ptr, cluster, count)[i] == Put(cluster + i, Chunk(ptr, i))
  {
  }

  /** One more of the cluster writes `all`. */
  lemma OneMore(disk: Disk, history: seq<Block>, all: seq<Put>, i: nat)
    requires i < |all|
    ensures Apply(disk, all[..i + 1]) == Apply(disk, all[..i])[all[i].cluster := all[i].data]
    ensures history + PutsBlocks(all[..i + 1]) == history + PutsBlocks(all[..i]) + PutBlocks(all[i])
  {
    hide *;
    assert all[..i + 1] == all[..i] + [all[i]];
    ApplyOne(disk, all[..i], all[i]);
    BlocksOne(all[..i], all[i]);
    HistoryAssoc(history, PutsBlocks(all[..i]), PutBlocks(all[i]));
  }

  /** With a count of one, which is all that the four operations ask for, a
      transfer stores one cluster ... */
  lemma OnePut(disk: Disk, c: Cluster, cluster: ClusterIndex)
    ensures ClusterPuts(c, cluster, 1) == [Put(cluster, c)]
    ensures Apply(disk, ClusterPuts(c, cluster, 1)) == disk[cluster := c]
  {
    assert Chunk(c, 0) == c;
    assert [Put(cluster, c)][..0] == [];
  }

  /** ... or loads one. */
  lemma OneGet(disk: Disk, cluster: ClusterIndex)
    ensures Flatten(disk[cluster..cluster + 1]) == disk[cluster]
  {
    var run := disk[cluster..cluster + 1];
    assert run == [disk[cluster]] && run[..0] == [];
  }

  /** Copying cluster `i` of a run behind the `i` clusters already copied. */
  lemma SpliceNext(s: seq<byte>, at: nat, run: seq<Cluster>, i: nat)
    requires i < |run| && at + CLUSTER_SIZE * (i + 1) <= |s|
    ensures Splice(Splice(s, at, Flatten(run[..i])), at + CLUSTER_SIZE * i, run[i]) == Splice(s, at, Flatten(run[..i + 1]))
  {
    hide *;
    assert run[..i + 1] == run[..i] + [run[i]];
    FlattenOne(run[..i], run[i]);
    SpliceTwice(s, at, Flatten(run[..i]), run[i]);
  }

  /** Reading back what was written to `count` consecutive clusters gives the
      bytes written, and no other cluster has changed. */
  lemma {:induction false} ClustersReadBack(disk: Disk, ptr: seq<byte>, cluster: nat, count: nat)
    requires CLUSTER_SIZE * count <= |ptr| && cluster + count <= DISK_CLUSTERS
    ensures var disk' := Apply(disk, ClusterPuts(ptr, cluster, count));
            Flatten(disk'[cluster..cluster + count]) == ptr[..CLUSTER_SIZE * count] &&
            forall c :: 0 <= c < DISK_CLUSTERS && !(cluster <= c < cluster + count) ==> disk'[c] == disk[c]
  {
    hide Apply, Flatten, Chunk;
    ApplyNone(disk);
    FlattenNothing();
    if count == 0 {
      assert ClusterPuts(ptr, cluster, 0) == [];
    } else {
      ClustersReadBack(disk, ptr, cluster, count - 1);
      var before := Apply(disk, ClusterPuts(ptr, cluster, count - 1));
      var last := Put(cluster + count - 1, Chunk(ptr, count - 1));
      assert ClusterPuts(ptr, cluster, count) == ClusterPuts(ptr, cluster, count - 1) + [last];
      ApplyOne(disk, ClusterPuts(ptr, cluster, count - 1), last);
      var after := Apply(disk, ClusterPuts(ptr, cluster, count));
      assert after[cluster..cluster + count] == before[cluster..cluster + count - 1] + [last.data];
      FlattenOne(before[cluster..cluster + count - 1], last.data);
      ChunkAppends(ptr, count - 1);
    }
  }

  lemma ChunkAppends(ptr: seq<byte>, i: nat)
    requires CLUSTER_SIZE * (i + 1) <= |ptr|
    ensures ptr[..CLUSTER_SIZE * i] + Chunk(ptr, i) == ptr[..CLUSTER_SIZE * (i + 1)]
  {
  }

  /** Writing the first block of a cluster is writing the cluster with its other
      blocks as they were. */
  lemma BootBlock(image: Image, block: seq<byte>)
    requires |block| == BLOCK_SIZE
    ensures Splice(image, 0, block) == Splice(image, 0, block + Clusters(image)[BOOT_SECTOR][BLOCK_SIZE..])
  {
    SpliceTwice(image, 0, block, image[BLOCK_SIZE..CLUSTER_SIZE]);
    assert Splice(Splice(image, 0, block), BLOCK_SIZE, image[BLOCK_SIZE..CLUSTER_SIZE]) == Splice(image, 0, block);
  }

  lemma ClearNone(fat: FatMap, chain: seq<nat>)
    ensures Clear(fat, chain[..0]) == fat
  {
  }

  lemma ClearKeeps(fat: FatMap, chain: seq<nat>, c: nat)
    requires c < CLUSTER_MAP_SIZE && c !in chain
    ensures Clear(fat, chain)[c] == fat[c]
  {
  }

  lemma ClearOne(fat: FatMap, chain: seq<nat>, k: nat)
    requires k < |chain| && chain[k] < CLUSTER_MAP_SIZE
    ensures Clear(fat, chain[..k])[chain[k] := EMPTY_ENTRY] == Clear(fat, chain[..k + 1])
  {
    assert chain[..k + 1] == chain[..k] + [chain[k]];
  }

  /** The data writes of the first `i` times round the claim loop. */
  ghost function LoopPuts(e: seq<nat>, buf: seq<byte>, i: nat): seq<Put>
    requires InTable(e) && i <= |e| && CLUSTER_SIZE * i <= |buf|
  {
    DataPuts(Schedule(e, i), buf)
  }

  lemma LoopPutsNext(disk: Disk, e: seq<nat>, buf: seq<byte>, i: nat)
    requires InTable(e) && i < |e| && CLUSTER_SIZE * (i + 1) <= |buf|
    ensures LoopPuts(e, buf, 0) == []
    ensures Claimed(e, i) < CLUSTER_MAP_SIZE
    ensures var p := Put(Claimed(e, i), Chunk(buf, i));
            LoopPuts(e, buf, i + 1) == LoopPuts(e, buf, i) + [p] &&
            Apply(disk, LoopPuts(e, buf, i + 1)) == Apply(disk, LoopPuts(e, buf, i))[p.cluster := p.data]
  {
    ApplyOne(disk, LoopPuts(e, buf, i), Put(Claimed(e, i), Chunk(buf, i)));
  }

  lemma ClaimedInTable(fat: FatMap, e: seq<nat>, i: nat)
    requires ListsEmpties(fat, 2, e) && i < |e|
    ensures InTable(e) && 2 <= Claimed(e, i) < CLUSTER_MAP_SIZE
  {
  }

  /** What a run of the claim loop starts from: the slot of the new entry, the
      table and its EMPTY clusters, the data, and disk, device history and directory buffer. */
  datatype Claim = Claim(slot: nat, fat: FatMap, e: seq<nat>, data: seq<byte>, disk: Disk, history: seq<Block>, table: DirTable) {
    ghost predicate Valid() {
      slot < TABLE_SIZE && ListsEmpties(fat, 2, e) && 0 < |e|
    }

    /** Where `i` times round lead. */
    ghost predicate After(i: nat, fat_index: nat, fat': seq<word>, disk': Disk, history': seq<Block>, table': seq<DirEntry>)
      requires Valid()
    {
      i <= |e| && CLUSTER_SIZE * i <= |data| &&
      fat_index == Start(e, i) && 2 <= fat_index < CLUSTER_MAP_SIZE && fat' == ClaimLoop.After(fat, e, i) &&
      disk' == Apply(disk, LoopPuts(e, data, i)) && history' == history + PutsBlocks(LoopPuts(e, data, i)) &&
      table' == if i == 0 then table else table[slot := Headed(table[slot], e[0])]
    }

    lemma Begin()
      requires Valid()
      ensures After(0, 2, fat, disk, history, table)
    {
      ApplyNone(disk);
      AfterFirst(fat, e);
      assert LoopPuts(e, data, 0) == [];
    }

    lemma Next(i: nat, fat_index: nat, fat': seq<word>, disk': Disk, history': seq<Block>, table': seq<DirEntry>)
      requires Valid() && After(i, fat_index, fat', disk', history', table')
      requires i < |e| && CLUSTER_SIZE * (i + 1) <= |data|
      ensures ListsEmpties(fat, 2, e) && fat' == ClaimLoop.After(fat, e, i)
      ensures fat_index == Start(e, i) && 2 <= fat_index < CLUSTER_MAP_SIZE
      ensures 2 <= Claimed(e, i) < CLUSTER_MAP_SIZE && Start(e, i + 1) == Claimed(e, i)
      ensures After(i + 1, Claimed(e, i), ClaimLoop.After(fat, e, i + 1),
                    disk'[Claimed(e, i) := Chunk(data, i)], history' + PutBlocks(Put(Claimed(e, i), Chunk(data, i))),
                    if i == 0 then table'[slot := Headed(table'[slot], e[0])] else table')
    {
      hide ListsEmpties, InTable, LoopPuts, Chunk, Apply, Headed, PutBlocks, PutsBlocks, ClaimLoop.After;
      ClaimedInTable(fat, e, i);
      StartNext(e, i);
      LoopPutsNext(disk, e, data, i);
      var p := Put(Claimed(e, i), Chunk(data, i));
      BlocksOne(LoopPuts(e, data, i), p);
      HistoryAssoc(history, PutsBlocks(LoopPuts(e, data, i)), PutBlocks(p));
    }
  }

  /** What the claim loop of `write` relies on at its start, and leaves at its end. */
  lemma ClaimStarts(s: State, r: Request)
    requires r.Chunks() <= FreeCount(s.fat)
    ensures var e, n := Empties(s.fat, 2), r.Chunks();
            1 <= n <= |e| && InTable(e) && WriteChain(s, r) == e[..(n + 1) / 2] && WriteChain(s, r)[0] == e[0] &&
            Schedule(WriteChain(s, r), n) == Schedule(e, n) &&
            ClaimLoop.After(s.fat, e, n)[Start(e, n) := END_OF_FILE] == Link(s.fat, WriteChain(s, r))
  {
    hide Empties, After, Start, Link;
    var e, n := Empties(s.fat, 2), r.Chunks();
    LoopMakesLink(s.fat, e, n);
    assert Schedule(WriteChain(s, r), n) == Schedule(e, n);
  }

  lemma LoopPutsAre(e: seq<nat>, buf: seq<byte>, n: nat)
    requires InTable(e) && n <= |e| && CLUSTER_SIZE * n <= |buf|
    ensures LoopPuts(e, buf, n) == DataPuts(Schedule(e, n), buf)
  {
  }

  /** What `write` leaves, put together from its three parts. */
  lemma WriteAssembles(s: State, r: Request, buf: seq<byte>)
    requires r.parent < CLUSTER_MAP_SIZE && WriteCode(s, r) == 0
    requires CLUSTER_SIZE * r.Chunks() <= |buf|
    ensures var chain := WriteChain(s, r);
            var data := DataPuts(Schedule(chain, r.Chunks()), buf);
            var rest := BackPuts(Link(s.fat, chain), r.parent, NewTable(Table(s, r.parent), r, chain[0]));
            WriteTrace(s, r, buf) == data + rest &&
            WriteResult(s, r, buf) == State(Apply(Apply(s.disk, data), rest), Link(s.fat, chain))
  {
    var chain := WriteChain(s, r);
    ApplyAppend(s.disk, DataPuts(Schedule(chain, r.Chunks()), buf),
                BackPuts(Link(s.fat, chain), r.parent, NewTable(Table(s, r.parent), r, chain[0])));
  }

  class FAT32Driver {
    const device: BlockDevice
    const cluster_map: array<word>
    const dir_table_buf: array<DirEntry>

    constructor (device: BlockDevice)
      requires device.Valid()
      ensures Valid() && this.device == device
      ensures fresh(cluster_map) && fresh(dir_table_buf)
    {
      this.device := device;
      cluster_map := new word[CLUSTER_MAP_SIZE](_ => 0);
      dir_table_buf := new DirEntry[TABLE_SIZE](_ => ZERO_ENTRY);
    }

    predicate Valid() {
      device.Valid() && cluster_map.Length == CLUSTER_MAP_SIZE && dir_table_buf.Length == TABLE_SIZE
    }

    ghost function OnDisk(): Disk
      requires Valid()
      reads device.image_storage
    {
      Clusters(device.image_storage[..])
    }

    ghost function View(): State
      requires Valid()
      reads device.image_storage, cluster_map
    {
      State(OnDisk(), cluster_map[..])
    }

    // ---------- Cluster transfers ----------

    /** One cluster's blocks, through the device. */
    method WriteCluster(cluster_buffer: Cluster, cluster: ClusterIndex)
      requires Valid()
      requires device.Recorded()
      modifies device.image_storage, device`history
      ensures device.Recorded()
      ensures OnDisk() == old(OnDisk())[cluster := cluster_buffer]
      ensures device.history == old(device.history) + PutBlocks(Put(cluster, cluster_buffer))
    {
      WriteOneCluster(device.image_storage[..], cluster, cluster_buffer);
      device.WriteBlocks(cluster_buffer, ClusterToLba(cluster), CLUSTER_BLOCK_COUNT);
    }

    method WriteClusters(ptr: seq<byte>, cluster: word, count: byte)
      requires Valid()
      requires count <= 63 ==> CLUSTER_SIZE * count <= |ptr| && cluster + count <= DISK_CLUSTERS
      requires device.Recorded()
      modifies device.image_storage, device`history
      ensures device.Recorded()
      ensures count > 63 ==> OnDisk() == old(OnDisk()) && device.history == old(device.history)
      ensures count <= 63 ==>
        OnDisk() == Apply(old(OnDisk()), ClusterPuts(ptr, cluster, count)) &&
        device.history == old(device.history) + PutsBlocks(ClusterPuts(ptr, cluster, count))
    {
      if count > 63 {
        return;
      }
      hide Sent, Clusters, Apply, PutsBlocks, ClusterPuts;
      ghost var disk, history, all := OnDisk(), device.history, ClusterPuts(ptr, cluster, count);
      NothingSent(all);
      var i := 0;
      while i < count
        invariant 0 <= i <= count
        invariant device.Recorded() && Sent(disk, history, all, i)
      {
        SendNext(ptr, cluster, count, i, disk, history);
        i := i + 1;
      }
      AllSent(disk, history, all);
    }

    /** The first `i` of the cluster writes `all` were made. */
    ghost predicate Sent(disk: Disk, history: seq<Block>, all: seq<Put>, i: nat)
      requires Valid()
      reads device.image_storage, device`history
    {
      i <= |all| && OnDisk() == Apply(disk, all[..i]) && device.history == history + PutsBlocks(all[..i])
    }

    lemma NothingSent(all: seq<Put>)
      requires Valid()
      ensures Sent(OnDisk(), device.history, all, 0)
    {
      hide Clusters;
      ApplyNone(OnDisk());
      BlocksNone();
      assert all[..0] == [];
    }

    lemma AllSent(disk: Disk, history: seq<Block>, all: seq<Put>)
      requires Valid() && Sent(disk, history, all, |all|)
      ensures OnDisk() == Apply(disk, all) && device.history == history + PutsBlocks(all)
    {
      hide Clusters, Apply, PutsBlocks;
      assert all[..|all|] == all;
    }

    /** One time round the loop of `write_clusters`. */
    method SendNext(ptr: seq<byte>, cluster: word, count: byte, i: nat, ghost disk: Disk, ghost history: seq<Block>)
      requires Valid() && i < count && CLUSTER_SIZE * count <= |ptr| && cluster + count <= DISK_CLUSTERS
      requires device.Recorded() && Sent(disk, history, ClusterPuts(ptr, cluster, count), i)
      modifies device.image_storage, device`history
      ensures device.Recorded() && Sent(disk, history, ClusterPuts(ptr, cluster, count), i + 1)
    {
      hide Clusters, Apply, PutsBlocks, ClusterPuts, PutBlocks, Chunk;
      ClusterPutAt(ptr, cluster, count, i);
      OneMore(disk, history, ClusterPuts(ptr, cluster, count), i);
      WriteCluster(Chunk(ptr, i), cluster + i);
    }

    /** How the operations store a cluster. */
    method StoreCluster(c: Cluster, cluster: ClusterIndex)
      requires Valid()
      requires device.Recorded()
      modifies device.image_storage, device`history
      ensures device.Recorded()
      ensures OnDisk() == old(OnDisk())[cluster := c]
      ensures device.history == old(device.history) + PutBlocks(Put(cluster, c))
    {
      OnePut(OnDisk(), c, cluster);
      WriteClusters(c, cluster, 1);
    }

    method ReadCluster(dest: array<byte>, at: nat, cluster: ClusterIndex)
      requires Valid() && dest != device.image_storage && at + CLUSTER_SIZE <= dest.Length
      modifies dest
      ensures dest[..] == Splice(old(dest[..]), at, OnDisk()[cluster])
    {
      device.ReadBlocks(dest, at, ClusterToLba(cluster), CLUSTER_BLOCK_COUNT);
    }

    /** One time round a copy loop: `dest` already holds the first `i` clusters
        of `run` from `at` on, and `cluster` holds the next one. */
    method ReadNext(dest: array<byte>, at: nat, cluster: ClusterIndex, i: nat, ghost was: seq<byte>, ghost run: seq<Cluster>)
      requires Valid() && dest != device.image_storage && dest.Length == |was|
      requires i < |run| && at + CLUSTER_SIZE * (i + 1) <= |was|
      requires OnDisk()[cluster] == run[i]
      requires dest[..] == Splice(was, at, Flatten(run[..i]))
      modifies dest
      ensures dest[..] == Splice(was, at, Flatten(run[..i + 1]))
    {
      hide *;
      SpliceNext(was, at, run, i);
      ReadCluster(dest, at + CLUSTER_SIZE * i, cluster);
    }

    method ReadClusters(dest: array<byte>, at: nat, cluster: word, count: byte)
      requires Valid() && dest != device.image_storage
      requires count <= 63 ==> at + CLUSTER_SIZE * count <= dest.Length && cluster + count <= DISK_CLUSTERS
      modifies dest
      ensures count > 63 ==> dest[..] == old(dest[..])
      ensures count <= 63 ==>
        dest[..] == Splice(old(dest[..]), at, Flatten(OnDisk()[cluster..cluster + count]))
    {
      if count > 63 {
        return;
      }
      ghost var run := OnDisk()[cluster..cluster + count];
      ghost var was := dest[..];
      FlattenNothing();
      SpliceNothing(was, at);
      hide *;
      var i := 0;
      while i < count
        invariant 0 <= i <= count
        invariant OnDisk()[cluster..cluster + count] == run
        invariant dest[..] == Splice(was, at, Flatten(run[..i]))
      {
        assert run[i] == OnDisk()[cluster + i];
        ReadNext(dest, at, cluster + i, i, was, run);
        i := i + 1;
      }
      assert run[..count] == run;
    }

    /** Load one cluster into a fresh buffer. */
    method LoadCluster(cluster: word) returns (c: Cluster)
      requires Valid() && cluster < DISK_CLUSTERS
      ensures c == OnDisk()[cluster]
    {
      var buf := new byte[CLUSTER_SIZE];
      OneGet(OnDisk(), cluster);
      ReadClusters(buf, 0, cluster, 1);
      c := buf[..];
    }

    // ---------- Directory buffer ----------

    /** The tests on the parent cluster; loads its table into the buffer. */
    method OpenParent(p: word) returns (ok: bool)
      requires Valid() && p < CLUSTER_MAP_SIZE
      modifies dir_table_buf
      ensures ok == ParentOk(View(), p)
      ensures ok ==> dir_table_buf[..] == Table(View(), p)
    {
      if p < 2 || cluster_map[p] != END_OF_FILE {
        return false;
      }
      LoadTable(p);
      ok := dir_table_buf[0].IsDirectory();
    }

    method LoadTable(cluster: word)
      requires Valid() && cluster < DISK_CLUSTERS
      modifies dir_table_buf
      ensures dir_table_buf[..] == Table(View(), cluster)
    {
      var c := LoadCluster(cluster);
      var t := DecodeDir(c);
      forall i | 0 <= i < TABLE_SIZE {
        dir_table_buf[i] := t[i];
      }
    }

    /** The search of all four operations for a live entry. */
    method FindIdentifier(id: seq<byte>) returns (i: nat)
      requires Valid()
      ensures i == Find(dir_table_buf[..], id)
    {
      i := 2;
      while i < TABLE_SIZE
        invariant 2 <= i <= TABLE_SIZE
        invariant FindFrom(dir_table_buf[..], id, i) == Find(dir_table_buf[..], id)
      {
        if dir_table_buf[i].IsLive() && dir_table_buf[i].name + dir_table_buf[i].ext == id {
          return;
        }
        i := i + 1;
      }
    }

    method FindFreeSlot() returns (directory_table_index: nat)
      requires Valid()
      ensures directory_table_index == FreeSlot(dir_table_buf[..])
    {
      var directory_table_full := true;
      directory_table_index := 2;
      while directory_table_index < TABLE_SIZE && directory_table_full
        invariant 2 <= directory_table_index <= TABLE_SIZE
        invariant FreeSlotFrom(dir_table_buf[..], directory_table_index) == FreeSlot(dir_table_buf[..])
        invariant !directory_table_full ==> directory_table_index < TABLE_SIZE && !dir_table_buf[directory_table_index].IsLive()
        decreases TABLE_SIZE - directory_table_index, directory_table_full
      {
        if !dir_table_buf[directory_table_index].IsLive() {
          directory_table_full := false;
        } else {
          directory_table_index := directory_table_index + 1;
        }
      }
    }

    method CountAvailable() returns (count_available: nat)
      requires Valid()
      ensures count_available == FreeCount(cluster_map[..])
    {
      count_available := 0;
      var i := 2;
      while i < CLUSTER_MAP_SIZE
        invariant 2 <= i <= CLUSTER_MAP_SIZE
        invariant count_available + |Empties(cluster_map[..], i)| == FreeCount(cluster_map[..])
      {
        if cluster_map[i] == EMPTY_ENTRY {
          count_available := count_available + 1;
        }
        i := i + 1;
      }
    }

    method IsEmptyBuffer() returns (empty: bool)
      requires Valid()
      ensures empty == IsEmptyTable(dir_table_buf[..])
    {
      var i := 2;
      while i < TABLE_SIZE
        invariant 2 <= i <= TABLE_SIZE
        invariant forall k :: 2 <= k < i ==> !dir_table_buf[k].IsLive()
      {
        if dir_table_buf[i].IsLive() {
          assert dir_table_buf[..][i].IsLive();
          return false;
        }
        i := i + 1;
      }
      empty := true;
    }

    // ---------- Mounting ----------

    method InitDirectoryTable(dir_table: array<DirEntry>, name: Name, parent_dir_cluster: word)
      requires dir_table.Length == TABLE_SIZE
      modifies dir_table
      ensures dir_table[..] == InitialTable(name, parent_dir_cluster)
    {
      for i := 0 to TABLE_SIZE
        invariant forall k :: 0 <= k < i ==> dir_table[k] == ZERO_ENTRY
      {
        dir_table[i] := ZERO_ENTRY;
      }
      dir_table[0] := dir_table[0].(name := name, attribute := ATTR_SUBDIRECTORY, user_attribute := UATTR_NOT_EMPTY);
      dir_table[1] := dir_table[1].(name := DOT_DOT, attribute := ATTR_SUBDIRECTORY, user_attribute := UATTR_NOT_EMPTY,
                                    cluster_high := parent_dir_cluster / 0x1_0000,
                                    cluster_low := parent_dir_cluster % 0x1_0000);
    }

    method IsEmptyStorage() returns (empty: bool)
      requires Valid()
      ensures empty == !HasSignature(OnDisk())
    {
      var boot_sector := new byte[BLOCK_SIZE];
      device.ReadBlocks(boot_sector, 0, BOOT_SECTOR, 1);
      empty := boot_sector[..] != FsSignature();
      assert boot_sector[..] == OnDisk()[BOOT_SECTOR][..BLOCK_SIZE];
    }

    method CreateFat32()
      requires Valid()
      requires device.Recorded()
      modifies device.image_storage, device`history
      ensures device.Recorded()
      ensures OnDisk() == Apply(old(OnDisk()), FormatTrace(old(OnDisk())))
      ensures device.history == old(device.history) + FormatBlocks(old(OnDisk()))
    {
      hide EncodeFat, EncodeDir, RootTable, InitialFat, FsSignature, Apply, Clusters, PutBlocks, PutsBlocks;
      ghost var was := OnDisk();
      WriteBootSector();
      StoreCluster(EncodeFat(InitialFat()), FAT_CLUSTER_NUMBER);
      StoreCluster(EncodeDir(RootTable()), ROOT_CLUSTER_NUMBER);
      ghost var t := FormatTrace(was);
      ApplyThree(was, t[0], t[1], t[2]);
      BlocksTwo(t[1], t[2]);
      assert t == [t[0], t[1], t[2]] && t[1..] == [t[1], t[2]];
    }

    method WriteBootSector()
      requires Valid()
      requires device.Recorded()
      modifies device.image_storage, device`history
      ensures device.Recorded()
      ensures OnDisk() == old(OnDisk())[BOOT_SECTOR := FormatTrace(old(OnDisk()))[0].data]
      ensures device.history == old(device.history) + [Block(BOOT_SECTOR, FsSignature())]
    {
      hide FsSignature, Clusters, Splice, EncodeFat, EncodeDir, RootTable, InitialFat;
      ghost var image := device.image_storage[..];
      ghost var data := FormatTrace(OnDisk())[0].data;
      WriteOneCluster(image, BOOT_SECTOR, data);
      BootBlock(image, FsSignature());
      BootRun();
      device.WriteBlocks(FsSignature(), BOOT_SECTOR, 1);
    }

    method InitializeFilesystemFat32()
      requires Valid()
      requires device.Recorded()
      modifies device.image_storage, device`history, cluster_map, dir_table_buf
      ensures device.Recorded()
      ensures View() == Mount(old(OnDisk())) && dir_table_buf[..] == Table(View(), ROOT_CLUSTER_NUMBER)
      ensures device.history == old(device.history) + MountBlocks(old(OnDisk()))
    {
      ghost var was := OnDisk();
      ApplyNone(was);
      var empty := IsEmptyStorage();
      if empty {
        CreateFat32();
      }
      LoadFat();
      LoadTable(ROOT_CLUSTER_NUMBER);
    }

    method LoadFat()
      requires Valid()
      modifies cluster_map
      ensures cluster_map[..] == DecodeFat(OnDisk()[FAT_CLUSTER_NUMBER])
    {
      var c := LoadCluster(FAT_CLUSTER_NUMBER);
      var f := DecodeFat(c);
      forall i | 0 <= i < CLUSTER_MAP_SIZE {
        cluster_map[i] := f[i];
      }
    }

    // ---------- read_directory ----------

    method ReadDirectory(request: Request, buf: array<byte>) returns (code: int)
      requires Valid() && request.parent < CLUSTER_MAP_SIZE
      requires buf != device.image_storage
      requires Loadable(View(), request.parent, request.DirectoryId())
      requires ReadDirCode(View(), request) == 0 ==> CLUSTER_SIZE <= buf.Length
      modifies dir_table_buf, buf
      ensures View() == old(View()) && code == ReadDirCode(View(), request)
      ensures code != 0 ==> buf[..] == old(buf[..])
      ensures code == 0 ==> buf[..] == Splice(old(buf[..]), 0, ReadDirData(View(), request))
    {
      if request.buffer_size != CLUSTER_SIZE {
        return -1;
      }
      var ok := OpenParent(request.parent);
      if !ok {
        return -1;
      }
      var i := FindIdentifier(request.DirectoryId());
      if i == TABLE_SIZE {
        return 2;
      }
      if !dir_table_buf[i].IsDirectory() {
        return 1;
      }
      OneGet(OnDisk(), dir_table_buf[i].Head());
      ReadClusters(buf, 0, dir_table_buf[i].Head(), 1);
      code := 0;
    }

    // ---------- read ----------

    method Read(request: Request, buf: array<byte>) returns (code: int)
      requires Valid() && request.parent < CLUSTER_MAP_SIZE
      requires buf != device.image_storage
      requires ReadCode(View(), request) == 0 ==>
        Walkable(View(), request.parent, request.Id()) && CLUSTER_SIZE * |ReadData(View(), request)| <= buf.Length
      modifies dir_table_buf, buf
      ensures View() == old(View()) && code == ReadCode(View(), request)
      ensures code != 0 ==> buf[..] == old(buf[..])
      ensures code == 0 ==> buf[..] == Splice(old(buf[..]), 0, Flatten(ReadData(View(), request)))
    {
      var ok := OpenParent(request.parent);
      if !ok {
        return -1;
      }
      var i := FindIdentifier(request.Id());
      if i == TABLE_SIZE {
        return 3;
      }
      if dir_table_buf[i].IsDirectory() {
        return 1;
      }
      if request.buffer_size < dir_table_buf[i].filesize {
        return 2;
      }
      CopyChain(dir_table_buf[i].Head(), buf);
      code := 0;
    }

    /** The copy loop of `read`: it consults the links only, never a size. */
    method CopyChain(head: word, buf: array<byte>)
      requires Valid() && buf != device.image_storage
      requires Terminated(cluster_map[..], head)
      requires CLUSTER_SIZE * |Chain(cluster_map[..], head)| <= buf.Length
      modifies buf
      ensures View() == old(View())
      ensures buf[..] == Splice(old(buf[..]), 0, Flatten(ChainClusters(View(), head)))
    {
      hide Chain, Terminated, Splice, Flatten, Clusters;
      ghost var fat := cluster_map[..];
      ghost var chain := Chain(fat, head);
      ghost var run := ChainClusters(View(), head);
      ghost var was := buf[..];
      ChainIsChain(fat, head);
      FlattenNothing();
      SpliceNothing(was, 0);
      var cluster_number, k := head, 0;
      while true
        invariant 0 <= k < |chain| && cluster_number == chain[k]
        invariant View() == old(View())
        invariant buf[..] == Splice(was, 0, Flatten(run[..k]))
        decreases |chain| - k
      {
        ChainNext(fat, chain, k);
        SpliceNext(was, 0, run, k);
        OneGet(OnDisk(), cluster_number);
        ReadClusters(buf, CLUSTER_SIZE * k, cluster_number, 1);
        k := k + 1;
        cluster_number := cluster_map[cluster_number];
        if cluster_number == END_OF_FILE {
          break;
        }
      }
      assert run[..k] == run;
    }

    // ---------- delete ----------

    method Delete(request: Request) returns (code: int)
      requires Valid() && request.parent < CLUSTER_MAP_SIZE
      requires Loadable(View(), request.parent, request.Id())
      requires DeleteCode(View(), request) == 0 ==> Walkable(View(), request.parent, request.Id())
      requires device.Recorded()
      modifies device.image_storage, device`history, cluster_map, dir_table_buf
      ensures device.Recorded()
      ensures code == DeleteCode(old(View()), request)
      ensures code != 0 ==> View() == old(View()) && device.history == old(device.history)
      ensures code == 0 ==> View() == DeleteResult(old(View()), request)
      ensures code == 0 ==> device.history == old(device.history) + PutsBlocks(DeleteTrace(old(View()), request))
    {
      ghost var s := View();
      var ok := OpenParent(request.parent);
      if !ok {
        return -1;
      }
      var i := FindIdentifier(request.Id());
      if i == TABLE_SIZE {
        return 1;
      }
      if dir_table_buf[i].IsDirectory() {
        LoadTable(dir_table_buf[i].Head());
        var empty := IsEmptyBuffer();
        if !empty {
          return 2;
        }
      }
      LoadTable(request.parent);
      FreeChain(dir_table_buf[i].Head());
      dir_table_buf[i] := dir_table_buf[i].(user_attribute := 0);
      assert dir_table_buf[..] == DeleteTable(Table(s, request.parent), request.Id());
      WriteBack(request.parent);
      code := 0;
    }

    /** Store the cached allocation table, then the buffered directory table. */
    method WriteBack(parent: ClusterIndex)
      requires Valid()
      requires device.Recorded()
      modifies device.image_storage, device`history
      ensures device.Recorded()
      ensures OnDisk() == Apply(old(OnDisk()), BackPuts(cluster_map[..], parent, dir_table_buf[..]))
      ensures device.history == old(device.history) + PutsBlocks(BackPuts(cluster_map[..], parent, dir_table_buf[..]))
    {
      hide EncodeFat, EncodeDir, Apply, Clusters, PutBlocks, PutsBlocks;
      ghost var puts := BackPuts(cluster_map[..], parent, dir_table_buf[..]);
      ApplyTwo(OnDisk(), puts[0], puts[1]);
      BlocksTwo(puts[0], puts[1]);
      StoreCluster(EncodeFat(cluster_map[..]), FAT_CLUSTER_NUMBER);
      StoreCluster(EncodeDir(dir_table_buf[..]), parent);
    }

    /** The loop of `delete` over the chain it frees. */
    method FreeChain(cluster_number: word)
      requires Valid() && Terminated(cluster_map[..], cluster_number)
      modifies cluster_map
      ensures cluster_map[..] == Clear(old(cluster_map[..]), Chain(old(cluster_map[..]), cluster_number))
    {
      ghost var fat := cluster_map[..];
      ghost var chain := Chain(fat, cluster_number);
      ChainIsChain(fat, cluster_number);
      ClearNone(fat, chain);
      ghost var k := 0;
      var current_fat_index := cluster_number;
      ChainNext(fat, chain, 0);
      hide *;
      var next_fat_index := cluster_map[current_fat_index];
      while next_fat_index != END_OF_FILE
        invariant 0 <= k < |chain| && chain[k] < CLUSTER_MAP_SIZE
        invariant current_fat_index == chain[k] && next_fat_index == fat[chain[k]]
        invariant cluster_map[..] == Clear(fat, chain[..k])
        decreases |chain| - k
      {
        cluster_map[current_fat_index] := EMPTY_ENTRY;
        ClearOne(fat, chain, k);
        ChainNext(fat, chain, k);
        ChainNext(fat, chain, k + 1);
        k := k + 1;
        current_fat_index := next_fat_index;
        ClearKeeps(fat, chain[..k], chain[k]);
        next_fat_index := cluster_map[..][current_fat_index];
      }
      cluster_map[current_fat_index] := EMPTY_ENTRY;
      ClearOne(fat, chain, k);
      ChainNext(fat, chain, k);
      assert chain[..k + 1] == chain;
    }

    // ---------- write ----------

    method Write(request: Request, buf: array<byte>) returns (code: int)
      requires Valid() && request.parent < CLUSTER_MAP_SIZE && buf != device.image_storage
      requires WriteCode(View(), request) == 0 ==> CLUSTER_SIZE * request.Chunks() <= buf.Length
      requires device.Recorded()
      modifies device.image_storage, device`history, cluster_map, dir_table_buf
      ensures device.Recorded()
      ensures code == WriteCode(old(View()), request)
      ensures code != 0 ==> View() == old(View()) && device.history == old(device.history)
      ensures code == 0 ==> View() == WriteResult(old(View()), request, buf[..])
      ensures code == 0 ==> device.history == old(device.history) + PutsBlocks(WriteTrace(old(View()), request, buf[..]))
    {
      var slot;
      code, slot := CheckWrite(request);
      if code == 0 {
        Store(request, buf, slot);
      }
    }

    /** The checks of `write`, and the slot it will use. */
    method CheckWrite(request: Request) returns (code: int, slot: nat)
      requires Valid() && request.parent < CLUSTER_MAP_SIZE
      modifies dir_table_buf
      ensures code == WriteCode(View(), request)
      ensures code == 0 ==> dir_table_buf[..] == Table(View(), request.parent) && slot == FreeSlot(dir_table_buf[..])
    {
      slot := TABLE_SIZE;
      var ok := OpenParent(request.parent);
      if !ok {
        return 2, slot;
      }
      var i := FindIdentifier(request.Id());
      if i < TABLE_SIZE {
        return 1, slot;
      }
      slot := FindFreeSlot();
      if slot == TABLE_SIZE {
        return -1, slot;
      }
      var count_available := CountAvailable();
      if count_available < request.buffer_size / CLUSTER_SIZE + 1 {
        return -1, slot;
      }
      code := 0;
    }

    /** Everything `write` does once its checks have passed. */
    method Store(request: Request, buf: array<byte>, slot: nat)
      requires Valid() && request.parent < CLUSTER_MAP_SIZE && buf != device.image_storage
      requires WriteCode(View(), request) == 0 && CLUSTER_SIZE * request.Chunks() <= buf.Length
      requires dir_table_buf[..] == Table(View(), request.parent) && slot == FreeSlot(dir_table_buf[..])
      requires device.Recorded()
      modifies device.image_storage, device`history, cluster_map, dir_table_buf
      ensures device.Recorded()
      ensures View() == WriteResult(old(View()), request, buf[..])
      ensures device.history == old(device.history) + PutsBlocks(WriteTrace(old(View()), request, buf[..]))
    {
      WriteAssembles(View(), request, buf[..]);
      ghost var chain := WriteChain(View(), request);
      BlocksAppend(DataPuts(Schedule(chain, request.Chunks()), buf[..]),
                   BackPuts(Link(cluster_map[..], chain), request.parent, NewTable(dir_table_buf[..], request, chain[0])));
      HistoryAssoc(device.history, PutsBlocks(DataPuts(Schedule(chain, request.Chunks()), buf[..])),
                   PutsBlocks(BackPuts(Link(cluster_map[..], chain), request.parent,
                                       NewTable(dir_table_buf[..], request, chain[0]))));
      hide WriteTrace, WriteResult, WriteChain, WriteCode, DataPuts, Schedule, Apply, Link, NewTable,
           Table, FreeSlot, FreeCount, Clusters, BackPuts;
      StoreData(request, buf, slot);
      WriteBack(request.parent);
    }

    /** The new entry, in the buffer, and the clusters it names. */
    method StoreData(request: Request, buf: array<byte>, slot: nat)
      requires Valid() && request.parent < CLUSTER_MAP_SIZE && buf != device.image_storage
      requires WriteCode(View(), request) == 0 && CLUSTER_SIZE * request.Chunks() <= buf.Length
      requires dir_table_buf[..] == Table(View(), request.parent) && slot == FreeSlot(dir_table_buf[..])
      requires device.Recorded()
      modifies device.image_storage, device`history, cluster_map, dir_table_buf
      ensures device.Recorded()
      ensures var s := old(View());
              var chain := WriteChain(s, request);
              var puts := DataPuts(Schedule(chain, request.Chunks()), buf[..]);
              cluster_map[..] == Link(s.fat, chain) && OnDisk() == Apply(s.disk, puts) &&
              device.history == old(device.history) + PutsBlocks(puts) &&
              dir_table_buf[..] == NewTable(Table(s, request.parent), request, chain[0])
    {
      ghost var s, t := View(), dir_table_buf[..];
      assert slot < TABLE_SIZE && request.Chunks() <= FreeCount(s.fat);
      hide WriteChain, DataPuts, Schedule, Apply, Link, Located, Filled, Table, Find, FreeSlot, FreeCount, ParentOk,
           Clusters;
      FillSlot(request, slot);
      assert View() == s;
      ClaimClusters(request, buf, slot);
    }

    /** Name, extension and attributes of the new entry. */
    method FillSlot(request: Request, slot: nat)
      requires Valid() && slot < TABLE_SIZE
      modifies dir_table_buf
      ensures dir_table_buf[..] == old(dir_table_buf[..])[slot := Filled(old(dir_table_buf[slot]), request)]
    {
      dir_table_buf[slot] := dir_table_buf[slot].(name := request.name, ext := request.ext);
      if request.buffer_size == 0 {
        dir_table_buf[slot] := dir_table_buf[slot].(attribute := ATTR_SUBDIRECTORY);
      }
      dir_table_buf[slot] := dir_table_buf[slot].(user_attribute := UATTR_NOT_EMPTY);
    }

    /** The loop of `write` that claims clusters and stores the data. */
    method ClaimClusters(request: Request, buf: array<byte>, slot: nat)
      requires Valid() && slot < TABLE_SIZE && buf != device.image_storage
      requires request.Chunks() <= FreeCount(cluster_map[..])
      requires CLUSTER_SIZE * request.Chunks() <= buf.Length
      requires device.Recorded()
      modifies device.image_storage, device`history, cluster_map, dir_table_buf
      ensures device.Recorded()
      ensures var chain := WriteChain(old(View()), request);
              var puts := DataPuts(Schedule(chain, request.Chunks()), buf[..]);
              cluster_map[..] == Link(old(cluster_map[..]), chain) &&
              OnDisk() == Apply(old(OnDisk()), puts) &&
              device.history == old(device.history) + PutsBlocks(puts) &&
              dir_table_buf[..] == old(dir_table_buf[..])[slot := Located(old(dir_table_buf[slot]), request, chain[0])]
    {
      hide ListsEmpties, InTable, Empties, FreeCount, After, Start, Link, LoopPuts, DataPuts, Schedule, Apply, Clusters,
           PutsBlocks, Looped, WriteChain, Headed, Sized;
      var n := request.Chunks();
      ghost var s := View();
      ghost var fat, e := s.fat, Empties(s.fat, 2);
      ClaimStarts(s, request);
      ghost var c := Claim(slot, fat, e, buf[..], s.disk, device.history, dir_table_buf[..]);
      LoopedStart(buf, c);
      var fat_index := RunClaimLoop(n, buf, slot, c);
      LoopedEnds(buf, n, fat_index, c);
      LoopPutsAre(e, buf[..], n);
      dir_table_buf[slot] := Sized(dir_table_buf[slot], n * CLUSTER_SIZE);
      cluster_map[fat_index] := END_OF_FILE;
    }

    lemma LoopedEnds(buf: array<byte>, n: nat, fat_index: nat, c: Claim)
      requires Valid() && c.Valid() && n > 0 && Looped(buf, n, fat_index, c)
      ensures n <= |c.e| && CLUSTER_SIZE * n <= |c.data| && InTable(c.e)
      ensures fat_index == Start(c.e, n) < CLUSTER_MAP_SIZE && cluster_map[..] == ClaimLoop.After(c.fat, c.e, n)
      ensures buf[..] == c.data && OnDisk() == Apply(c.disk, LoopPuts(c.e, c.data, n))
      ensures device.history == c.history + PutsBlocks(LoopPuts(c.e, c.data, n))
      ensures dir_table_buf[..] == c.table[c.slot := Headed(c.table[c.slot], c.e[0])]
    {
    }

    method RunClaimLoop(n: nat, buf: array<byte>, slot: nat, ghost c: Claim) returns (fat_index: nat)
      requires Valid() && c.Valid() && slot == c.slot && buf != device.image_storage
      requires 1 <= n <= |c.e| && CLUSTER_SIZE * n <= buf.Length
      requires Looped(buf, 0, 2, c)
      requires device.Recorded()
      modifies device.image_storage, device`history, cluster_map, dir_table_buf
      ensures device.Recorded()
      ensures Looped(buf, n, fat_index, c)
    {
      hide Looped, Clusters;
      fat_index := 2;
      var i := 0;
      while true
        invariant 0 <= i < n
        invariant device.Recorded() && Looped(buf, i, fat_index, c)
        decreases n - i
      {
        fat_index := ClaimAndNote(buf, slot, fat_index, i, c);
        i := i + 1;
        if i >= n {
          break;
        }
      }
    }

    /** The driver after `i` times round the claim loop. */
    ghost predicate Looped(buf: array<byte>, i: nat, fat_index: nat, c: Claim)
      requires Valid() && c.Valid()
      reads device.image_storage, device`history, cluster_map, dir_table_buf, buf
    {
      buf[..] == c.data && c.After(i, fat_index, cluster_map[..], OnDisk(), device.history, dir_table_buf[..])
    }

    lemma LoopedStart(buf: array<byte>, c: Claim)
      requires Valid() && c.Valid() && c.data == buf[..]
      requires c.fat == cluster_map[..] && c.disk == OnDisk() && c.history == device.history && c.table == dir_table_buf[..]
      ensures Looped(buf, 0, 2, c)
    {
      c.Begin();
    }

    method ClaimAndNote(buf: array<byte>, slot: nat, previous_fat_index: nat, i: nat, ghost c: Claim) returns (fat_index: nat)
      requires Valid() && c.Valid() && slot == c.slot && buf != device.image_storage
      requires CLUSTER_SIZE * (i + 1) <= buf.Length && i < |c.e|
      requires Looped(buf, i, previous_fat_index, c)
      requires device.Recorded()
      modifies device.image_storage, device`history, cluster_map, dir_table_buf
      ensures device.Recorded()
      ensures Looped(buf, i + 1, fat_index, c)
    {
      hide Claim.After, ListsEmpties, ClaimLoop.After, Start, Claimed, Chunk, Clusters, Headed;
      c.Next(i, previous_fat_index, cluster_map[..], OnDisk(), device.history, dir_table_buf[..]);
      fat_index := ClaimNext(buf, slot, previous_fat_index, i, c.fat, c.e);
    }

    /** One time round that loop. */
    method ClaimNext(buf: array<byte>, slot: nat, previous_fat_index: nat, i: nat, ghost fat: FatMap, ghost e: seq<nat>)
      returns (fat_index: nat)
      requires Valid() && slot < TABLE_SIZE && buf != device.image_storage
      requires CLUSTER_SIZE * (i + 1) <= buf.Length
      requires ListsEmpties(fat, 2, e) && i < |e|
      requires cluster_map[..] == After(fat, e, i)
      requires previous_fat_index == Start(e, i) && 2 <= previous_fat_index < CLUSTER_MAP_SIZE
      requires device.Recorded()
      modifies device.image_storage, device`history, cluster_map, dir_table_buf
      ensures device.Recorded()
      ensures fat_index == Claimed(e, i) == Start(e, i + 1) && 2 <= fat_index < CLUSTER_MAP_SIZE
      ensures cluster_map[..] == After(fat, e, i + 1)
      ensures OnDisk() == old(OnDisk())[fat_index := Chunk(buf[..], i)]
      ensures device.history == old(device.history) + PutBlocks(Put(fat_index, Chunk(buf[..], i)))
      ensures dir_table_buf[..] ==
        if i == 0 then old(dir_table_buf[..])[slot := Headed(old(dir_table_buf[slot]), e[0])]
        else old(dir_table_buf[..])
    {
      AfterFirst(fat, e);
      StartNext(e, i);
      hide After, Start, Claimed, Ascending, ListsEmpties, LinkTo, Clusters, Headed;
      fat_index := NextEmpty(previous_fat_index, fat, e, i);
      if i == 0 {
        dir_table_buf[slot] := Headed(dir_table_buf[slot], fat_index);
      } else {
        cluster_map[previous_fat_index] := fat_index;
        AfterStep(fat, e, i);
      }
      StoreCluster(Chunk(buf[..], i), fat_index);
    }

    /** The search for the next EMPTY cluster. It tests no bound. */
    method NextEmpty(start: nat, ghost fat: FatMap, ghost e: seq<nat>, ghost i: nat) returns (fat_index: nat)
      requires Valid() && ListsEmpties(fat, 2, e) && i < |e|
      requires cluster_map[..] == After(fat, e, i) && start == Start(e, i)
      ensures fat_index == Claimed(e, i) && 2 <= fat_index < CLUSTER_MAP_SIZE
    {
      fat_index := start;
      SearchStops(fat, e, i, Claimed(e, i));
      while cluster_map[fat_index] != EMPTY_ENTRY
        invariant start <= fat_index <= Claimed(e, i)
        decreases Claimed(e, i) - fat_index
      {
        SearchStops(fat, e, i, fat_index);
        fat_index := fat_index + 1;
      }
      SearchStops(fat, e, i, fat_index);
    }
  }
}

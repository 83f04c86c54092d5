/** What the file system driver computes, as functions of the disk's clusters
    and the cached allocation table. */
module Volume {
  import opened Bytes
  import opened Layout
  import opened Fat

  datatype State = State(disk: Disk, fat: FatMap)

  /** A driver request. The buffer it points to is passed separately. */
  datatype Request = Request(name: Name, ext: Ext, parent: word, buffer_size: word) {
    function Id(): seq<byte> {
      name + ext
    }

    /** Identifier that `read_directory` looks for: the extension is ignored. */
    function DirectoryId(): seq<byte> {
      name + [0, 0, 0]
    }

    /** Number of chunks that `write` consumes. */
    function Chunks(): (n: nat)
      ensures n > 0
    {
      buffer_size / CLUSTER_SIZE + 1
    }
  }

  /** `write` takes the least number of whole clusters that is more than
      `buffer_size` bytes. */
  lemma ChunksLaw(r: Request)
    ensures CLUSTER_SIZE * (r.Chunks() - 1) <= r.buffer_size < CLUSTER_SIZE * r.Chunks()
  {
  }

  /** One cluster written to the disk. */
  datatype Put = Put(cluster: ClusterIndex, data: Cluster)

  function Apply(disk: Disk, puts: seq<Put>): Disk {
    if puts == [] then disk
    else
      var last := puts[|puts| - 1];
      Apply(disk, puts[..|puts| - 1])[last.cluster := last.data]
  }

  lemma {:induction false} ApplyAppend(disk: Disk, a: seq<Put>, b: seq<Put>)
    ensures Apply(disk, a + b) == Apply(Apply(disk, a), b)
  {
    if b == [] {
      assert a + b == a;
    } else {
      var last := |b| - 1;
      assert (a + b)[..|a + b| - 1] == a + b[..last];
      ApplyAppend(disk, a, b[..last]);
    }
  }

  lemma {:induction false} ApplyElsewhere(disk: Disk, puts: seq<Put>, c: ClusterIndex)
    requires forall p :: p in puts ==> p.cluster != c
    ensures Apply(disk, puts)[c] == disk[c]
  {
    if puts != [] {
      ApplyElsewhere(disk, puts[..|puts| - 1], c);
    }
  }

  lemma ApplyNone(disk: Disk)
    ensures Apply(disk, []) == disk
  {
  }

  lemma ApplyOne(disk: Disk, puts: seq<Put>, p: Put)
    ensures Apply(disk, puts + [p]) == Apply(disk, puts)[p.cluster := p.data]
  {
    assert (puts + [p])[..|puts|] == puts;
  }

  lemma ApplyTwo(disk: Disk, a: Put, b: Put)
    ensures Apply(disk, [a, b]) == disk[a.cluster := a.data][b.cluster := b.data]
  {
    hide Apply;
    ApplyNone(disk);
    ApplyOne(disk, [], a);
    ApplyOne(disk, [a], b);
    assert [] + [a] == [a] && [a] + [b] == [a, b];
  }

  lemma ApplyThree(disk: Disk, a: Put, b: Put, c: Put)
    ensures Apply(disk, [a, b, c]) == disk[a.cluster := a.data][b.cluster := b.data][c.cluster := c.data]
  {
    hide Apply;
    ApplyNone(disk);
    ApplyOne(disk, [], a);
    ApplyOne(disk, [a], b);
    ApplyOne(disk, [a, b], c);
    assert [] + [a] == [a] && [a] + [b] == [a, b] && [a, b] + [c] == [a, b, c];
  }

  // ---------- Directory searches ----------

  predicate Matches(e: DirEntry, id: seq<byte>) {
    e.IsLive() && e.Id() == id
  }

  /** What the identifiers of requests and entries mean for a search. */
  lemma MatchesFields(e: DirEntry, r: Request)
    ensures Matches(e, r.Id()) <==> e.IsLive() && e.name == r.name && e.ext == r.ext
    ensures Matches(e, r.DirectoryId()) <==> e.IsLive() && e.name == r.name && e.ext == [0, 0, 0]
  {
    assert e.Id()[..8] == e.name && e.Id()[8..] == e.ext;
    assert r.Id()[..8] == r.name && r.Id()[8..] == r.ext;
    assert r.DirectoryId()[..8] == r.name && r.DirectoryId()[8..] == [0, 0, 0];
  }

  /** First live slot with identifier `id`, or TABLE_SIZE. */
  function FindFrom(t: DirTable, id: seq<byte>, from: nat): (i: nat)
    requires from <= TABLE_SIZE
    ensures from <= i <= TABLE_SIZE
    ensures i < TABLE_SIZE ==> Matches(t[i], id)
    ensures forall j {:trigger Matches(t[j], id)} :: from <= j < i ==> !Matches(t[j], id)
    decreases |t| - from
  {
    if from == TABLE_SIZE || Matches(t[from], id) then from else FindFrom(t, id, from + 1)
  }

  function Find(t: DirTable, id: seq<byte>): nat {
    FindFrom(t, id, 2)
  }

  /** First slot that is not live, or TABLE_SIZE. */
  function FreeSlotFrom(t: DirTable, from: nat): (i: nat)
    requires from <= TABLE_SIZE
    ensures from <= i <= TABLE_SIZE
    ensures i < TABLE_SIZE ==> !t[i].IsLive()
    ensures forall j {:trigger t[j].IsLive()} :: from <= j < i ==> t[j].IsLive()
    decreases |t| - from
  {
    if from == TABLE_SIZE || !t[from].IsLive() then from else FreeSlotFrom(t, from + 1)
  }

  function FreeSlot(t: DirTable): nat {
    FreeSlotFrom(t, 2)
  }

  lemma FindIs(t: DirTable, id: seq<byte>, i: nat)
    requires 2 <= i < TABLE_SIZE && Matches(t[i], id)
    requires forall j :: 2 <= j < i ==> !Matches(t[j], id)
    ensures Find(t, id) == i
  {
    hide Matches;
  }

  lemma FindNone(t: DirTable, id: seq<byte>)
    requires forall j :: 2 <= j < TABLE_SIZE ==> !Matches(t[j], id)
    ensures Find(t, id) == TABLE_SIZE
  {
    hide Matches;
  }

  lemma FreeSlotIs(t: DirTable, i: nat)
    requires 2 <= i < TABLE_SIZE && !t[i].IsLive()
    requires forall j :: 2 <= j < i ==> t[j].IsLive()
    ensures FreeSlot(t) == i
  {
  }

  /** No live entry besides the two that describe the directory and its parent. */
  predicate IsEmptyTable(t: DirTable) {
    forall i :: 2 <= i < TABLE_SIZE ==> !t[i].IsLive()
  }

  function Table(s: State, c: nat): DirTable
    requires c < DISK_CLUSTERS
  {
    DecodeDir(s.disk[c])
  }

  // ---------- Checks shared by the four operations ----------

  /** The test every operation makes on the parent cluster of its request. */
  predicate ParentOk(s: State, p: word)
    requires p < CLUSTER_MAP_SIZE
  {
    p >= 2 && s.fat[p] == END_OF_FILE && Table(s, p)[0].IsDirectory()
  }

  /** If a directory entry is found for `id` under `p`, its cluster is on the disk. */
  predicate Loadable(s: State, p: word, id: seq<byte>)
    requires p < CLUSTER_MAP_SIZE
  {
    ParentOk(s, p) ==>
      var t := Table(s, p);
      var i := Find(t, id);
      i < TABLE_SIZE && t[i].IsDirectory() ==> t[i].Head() < DISK_CLUSTERS
  }

  /** The entry found for `id` under `p`, if any, heads a terminated chain. */
  ghost predicate Walkable(s: State, p: word, id: seq<byte>): (walkable: bool)
    requires p < CLUSTER_MAP_SIZE
    ensures walkable ==> Loadable(s, p, id)
  {
    ParentOk(s, p) ==>
      var t := Table(s, p);
      var i := Find(t, id);
      i < TABLE_SIZE ==> Terminated(s.fat, t[i].Head())
  }

  /** ... and that chain is no longer than the recorded size. */
  ghost predicate Bounded(s: State, p: word, id: seq<byte>)
    requires p < CLUSTER_MAP_SIZE && Walkable(s, p, id)
  {
    ParentOk(s, p) ==>
      var t := Table(s, p);
      var i := Find(t, id);
      i < TABLE_SIZE ==> |Chain(s.fat, t[i].Head())| * CLUSTER_SIZE <= t[i].filesize
  }

  // ---------- read and read_directory ----------

  function Contents(disk: Disk, chain: seq<nat>): (r: seq<Cluster>)
    requires forall k :: 0 <= k < |chain| ==> chain[k] < DISK_CLUSTERS
    ensures |r| == |chain|
  {
    seq<Cluster>(|chain|, k requires 0 <= k < |chain| => disk[chain[k]])
  }

  /** The clusters of the chain that starts at `head`. */
  ghost function ChainClusters(s: State, head: nat): (r: seq<Cluster>)
    requires Terminated(s.fat, head)
    ensures |r| == |Chain(s.fat, head)|
  {
    ChainIsChain(s.fat, head);
    Contents(s.disk, Chain(s.fat, head))
  }

  function Flatten(clusters: seq<Cluster>): (b: seq<byte>)
    ensures |b| == CLUSTER_SIZE * |clusters|
  {
    if clusters == [] then []
    else Flatten(clusters[..|clusters| - 1]) + clusters[|clusters| - 1]
  }

  lemma FlattenNothing()
    ensures Flatten([]) == []
  {
  }

  lemma FlattenOne(run: seq<Cluster>, c: Cluster)
    ensures Flatten(run + [c]) == Flatten(run) + c
  {
    assert (run + [c])[..|run|] == run;
  }

  function ReadCode(s: State, r: Request): int
    requires r.parent < CLUSTER_MAP_SIZE
  {
    if !ParentOk(s, r.parent) then -1
    else
      var t := Table(s, r.parent);
      var i := Find(t, r.Id());
      if i == TABLE_SIZE then 3
      else if t[i].IsDirectory() then 1
      else if r.buffer_size < t[i].filesize then 2
      else 0
  }

  ghost function ReadData(s: State, r: Request): (data: seq<Cluster>)
    requires r.parent < CLUSTER_MAP_SIZE && ReadCode(s, r) == 0 && Walkable(s, r.parent, r.Id())
    ensures Bounded(s, r.parent, r.Id()) ==> |data| * CLUSTER_SIZE <= r.buffer_size
  {
    var t := Table(s, r.parent);
    ChainClusters(s, t[Find(t, r.Id())].Head())
  }

  function ReadDirCode(s: State, r: Request): int
    requires r.parent < CLUSTER_MAP_SIZE
  {
    if !ParentOk(s, r.parent) || r.buffer_size != CLUSTER_SIZE then -1
    else
      var t := Table(s, r.parent);
      var i := Find(t, r.DirectoryId());
      if i == TABLE_SIZE then 2
      else if !t[i].IsDirectory() then 1
      else 0
  }

  function ReadDirData(s: State, r: Request): Cluster
    requires r.parent < CLUSTER_MAP_SIZE && ReadDirCode(s, r) == 0 && Loadable(s, r.parent, r.DirectoryId())
  {
    var t := Table(s, r.parent);
    s.disk[t[Find(t, r.DirectoryId())].Head()]
  }

  /** How `write` and `delete` store their changes: the allocation table first,
      then the parent's table. */
  function BackPuts(fat: FatMap, parent: ClusterIndex, t: DirTable): seq<Put> {
    [Put(FAT_CLUSTER_NUMBER, EncodeFat(fat)), Put(parent, EncodeDir(t))]
  }

  // ---------- write ----------

  function WriteCode(s: State, r: Request): int
    requires r.parent < CLUSTER_MAP_SIZE
  {
    if !ParentOk(s, r.parent) then 2
    else
      var t := Table(s, r.parent);
      if Find(t, r.Id()) < TABLE_SIZE then 1
      else if FreeSlot(t) == TABLE_SIZE || FreeCount(s.fat) < r.Chunks() then -1
      else 0
  }

  function Chunk(buf: seq<byte>, i: nat): Cluster
    requires CLUSTER_SIZE * (i + 1) <= |buf|
  {
    buf[CLUSTER_SIZE * i..CLUSTER_SIZE * (i + 1)]
  }

  /** Chunk `i` of `buf` goes to cluster `schedule[i]`. */
  function DataPuts(schedule: seq<nat>, buf: seq<byte>): (p: seq<Put>)
    requires CLUSTER_SIZE * |schedule| <= |buf|
    requires forall i :: 0 <= i < |schedule| ==> schedule[i] < DISK_CLUSTERS
    ensures |p| == |schedule|
  {
    seq<Put>(|schedule|, i requires 0 <= i < |schedule| => Put(schedule[i], Chunk(buf, i)))
  }

  /** The cluster that each of `n` chunks is stored to: the claim loop moves to
      the next EMPTY cluster only every second time round. */
  function Schedule(chain: seq<nat>, n: nat): (r: seq<nat>)
    requires n <= 2 * |chain|
    ensures |r| == n
  {
    seq<nat>(n, i requires 0 <= i < n => chain[i / 2])
  }

  function NewEntry(e: DirEntry, r: Request, head: nat): DirEntry {
    Located(Filled(e, r), r, head)
  }

  /** A file's entry keeps whatever attribute the slot had. */
  function Filled(e: DirEntry, r: Request): DirEntry {
    e.(name := r.name,
       ext := r.ext,
       attribute := if r.buffer_size == 0 then ATTR_SUBDIRECTORY else e.attribute,
       user_attribute := UATTR_NOT_EMPTY)
  }

  function Located(e: DirEntry, r: Request, head: nat): DirEntry {
    Sized(Headed(e, head), r.Chunks() * CLUSTER_SIZE)
  }

  function Headed(e: DirEntry, head: nat): DirEntry {
    e.(cluster_low := head % 0x1_0000, cluster_high := head / 0x1_0000 % 0x1_0000)
  }

  function Sized(e: DirEntry, size: nat): DirEntry {
    e.(filesize := size % 0x1_0000_0000)
  }

  function NewTable(t: DirTable, r: Request, head: nat): DirTable
    requires FreeSlot(t) < TABLE_SIZE
  {
    t[FreeSlot(t) := NewEntry(t[FreeSlot(t)], r, head)]
  }

  /** The chain a write claims: the first ceil(n/2) EMPTY clusters. */
  function WriteChain(s: State, r: Request): (chain: seq<nat>)
    requires r.Chunks() <= FreeCount(s.fat)
    ensures |chain| == (r.Chunks() + 1) / 2
    ensures ClaimsFree(s.fat, chain)
  {
    Empties(s.fat, 2)[..(r.Chunks() + 1) / 2]
  }

  /** The cluster writes that store `buf` on `chain`: data, then the allocation
      table, then the parent's table. */
  function StoreTrace(s: State, r: Request, buf: seq<byte>, chain: seq<nat>, schedule: seq<nat>): (p: seq<Put>)
    requires r.parent < CLUSTER_MAP_SIZE && FreeSlot(Table(s, r.parent)) < TABLE_SIZE
    requires ClaimsFree(s.fat, chain)
    requires CLUSTER_SIZE * |schedule| <= |buf|
    requires forall i :: 0 <= i < |schedule| ==> schedule[i] in chain
  {
    DataPuts(schedule, buf) + BackPuts(Link(s.fat, chain), r.parent, NewTable(Table(s, r.parent), r, chain[0]))
  }

  function WriteTrace(s: State, r: Request, buf: seq<byte>): seq<Put>
    requires r.parent < CLUSTER_MAP_SIZE && WriteCode(s, r) == 0
    requires CLUSTER_SIZE * r.Chunks() <= |buf|
  {
    var chain := WriteChain(s, r);
    StoreTrace(s, r, buf, chain, Schedule(chain, r.Chunks()))
  }

  function WriteResult(s: State, r: Request, buf: seq<byte>): State
    requires r.parent < CLUSTER_MAP_SIZE && WriteCode(s, r) == 0
    requires CLUSTER_SIZE * r.Chunks() <= |buf|
  {
    State(Apply(s.disk, WriteTrace(s, r, buf)), Link(s.fat, WriteChain(s, r)))
  }

  // ---------- delete ----------

  function DeleteCode(s: State, r: Request): int
    requires r.parent < CLUSTER_MAP_SIZE && Loadable(s, r.parent, r.Id())
  {
    if !ParentOk(s, r.parent) then -1
    else
      var t := Table(s, r.parent);
      var i := Find(t, r.Id());
      if i == TABLE_SIZE then 1
      else if t[i].IsDirectory() && !IsEmptyTable(Table(s, t[i].Head())) then 2
      else 0
  }

  ghost function DeleteFat(s: State, r: Request): FatMap
    requires r.parent < CLUSTER_MAP_SIZE && Walkable(s, r.parent, r.Id()) && DeleteCode(s, r) == 0
  {
    var t := Table(s, r.parent);
    Clear(s.fat, Chain(s.fat, t[Find(t, r.Id())].Head()))
  }

  function DeleteTable(t: DirTable, id: seq<byte>): DirTable
    requires Find(t, id) < TABLE_SIZE
  {
    t[Find(t, id) := t[Find(t, id)].(user_attribute := 0)]
  }

  ghost function DeleteTrace(s: State, r: Request): seq<Put>
    requires r.parent < CLUSTER_MAP_SIZE && Walkable(s, r.parent, r.Id()) && DeleteCode(s, r) == 0
  {
    BackPuts(DeleteFat(s, r), r.parent, DeleteTable(Table(s, r.parent), r.Id()))
  }

  ghost function DeleteResult(s: State, r: Request): State
    requires r.parent < CLUSTER_MAP_SIZE && Walkable(s, r.parent, r.Id()) && DeleteCode(s, r) == 0
  {
    State(Apply(s.disk, DeleteTrace(s, r)), DeleteFat(s, r))
  }

  // ---------- Formatting and mounting ----------

  const SIGNATURE_TEXT: seq<byte> :=
    Text("Course          Designed by     Lab Sister ITB  Made with <3    -----------2024\n")

  /** The boot sector's `fs_signature`: text, zero padding, then "Ok". */
  function FsSignature(): (s: seq<byte>)
    ensures |s| == BLOCK_SIZE
  {
    seq<byte>(BLOCK_SIZE, i requires 0 <= i < BLOCK_SIZE =>
      if i < |SIGNATURE_TEXT| then SIGNATURE_TEXT[i]
      else if i == BLOCK_SIZE - 2 then 'O' as int
      else if i == BLOCK_SIZE - 1 then 'k' as int
      else 0)
  }

  const DOT_DOT: Name := [0x2E, 0x2E, 0, 0, 0, 0, 0, 0]              // ".."
  const ROOT_NAME: Name := [0x72, 0x6F, 0x6F, 0x74, 0, 0, 0, 0]      // "root"

  predicate HasSignature(disk: Disk) {
    disk[BOOT_SECTOR][..BLOCK_SIZE] == FsSignature()
  }

  /** Table that `init_directory_table` builds. */
  function InitialTable(name: Name, parent: word): DirTable {
    var self := ZERO_ENTRY.(name := name, attribute := ATTR_SUBDIRECTORY, user_attribute := UATTR_NOT_EMPTY);
    var up := self.(name := DOT_DOT, cluster_high := parent / 0x1_0000, cluster_low := parent % 0x1_0000);
    seq(TABLE_SIZE, _ => ZERO_ENTRY)[0 := self][1 := up]
  }

  function RootTable(): DirTable {
    var t := InitialTable(ROOT_NAME, ROOT_CLUSTER_NUMBER);
    t[0 := t[0].(cluster_low := ROOT_CLUSTER_NUMBER)]
  }

  function InitialFat(): FatMap {
    seq<word>(CLUSTER_MAP_SIZE, _ => EMPTY_ENTRY)
      [0 := CLUSTER_0_VALUE][FAT_CLUSTER_NUMBER := CLUSTER_1_VALUE][ROOT_CLUSTER_NUMBER := END_OF_FILE]
  }

  function FormatTrace(disk: Disk): seq<Put> {
    [Put(BOOT_SECTOR, FsSignature() + disk[BOOT_SECTOR][BLOCK_SIZE..]),
     Put(FAT_CLUSTER_NUMBER, EncodeFat(InitialFat())),
     Put(ROOT_CLUSTER_NUMBER, EncodeDir(RootTable()))]
  }

  function MountTrace(disk: Disk): seq<Put> {
    if HasSignature(disk) then [] else FormatTrace(disk)
  }

  function Mount(disk: Disk): State {
    var d := Apply(disk, MountTrace(disk));
    State(d, DecodeFat(d[FAT_CLUSTER_NUMBER]))
  }

  lemma FormattedDisk(disk: Disk)
    ensures var d := Apply(disk, FormatTrace(disk));
            HasSignature(d) && d[FAT_CLUSTER_NUMBER] == EncodeFat(InitialFat()) && d[ROOT_CLUSTER_NUMBER] == EncodeDir(RootTable())
  {
    hide EncodeFat, EncodeDir, InitialFat, RootTable, Apply, FsSignature;
    var p := FormatTrace(disk);
    ApplyThree(disk, p[0], p[1], p[2]);
    assert p[0].data[..BLOCK_SIZE] == FsSignature();
  }
}

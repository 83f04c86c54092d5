/** On-disk layout of the "FAT32 - IF2230 edition" file system: constants, the
    allocation table and the directory table, with their packed encodings. */
module Layout {
  import opened Bytes

  const BLOCK_SIZE := 512
  const CLUSTER_BLOCK_COUNT := 4
  const CLUSTER_SIZE := 2048          // BLOCK_SIZE * CLUSTER_BLOCK_COUNT
  const CLUSTER_MAP_SIZE := 512
  const DISK_CLUSTERS := 2048         // a 4 MiB image
  const ENTRY_SIZE := 32              // sizeof(struct FAT32DirectoryEntry)
  const TABLE_SIZE := 64              // CLUSTER_SIZE / ENTRY_SIZE

  const BOOT_SECTOR := 0
  const FAT_CLUSTER_NUMBER := 1
  const ROOT_CLUSTER_NUMBER := 2

  const CLUSTER_0_VALUE: word := 0x0FFF_FFF0
  const CLUSTER_1_VALUE: word := 0x0FFF_FFFF
  const END_OF_FILE: word := 0x0FFF_FFFF
  const EMPTY_ENTRY: word := 0

  const ATTR_SUBDIRECTORY: byte := 0x10
  const UATTR_NOT_EMPTY: byte := 0xAA

  type Cluster = s: seq<byte> | |s| == CLUSTER_SIZE witness seq(CLUSTER_SIZE, _ => 0)
  const ZERO_CLUSTER: Cluster := seq(CLUSTER_SIZE, _ => 0)
  type ClusterIndex = c: int | 0 <= c < DISK_CLUSTERS
  type Disk = d: seq<Cluster> | |d| == DISK_CLUSTERS
    witness seq<Cluster>(DISK_CLUSTERS, _ => ZERO_CLUSTER)
  type FatMap = f: seq<word> | |f| == CLUSTER_MAP_SIZE witness seq(CLUSTER_MAP_SIZE, _ => 0)

  type Name = s: seq<byte> | |s| == 8 witness [0, 0, 0, 0, 0, 0, 0, 0]
  type Ext = s: seq<byte> | |s| == 3 witness [0, 0, 0]
  type Stamps = s: seq<byte> | |s| == 7 witness [0, 0, 0, 0, 0, 0, 0]
  type ModifiedStamps = s: seq<byte> | |s| == 4 witness [0, 0, 0, 0]

  /** The `undelete` byte and the time stamps are never read; they are carried
      as opaque bytes. */
  datatype DirEntry = DirEntry(
    name: Name,
    ext: Ext,
    attribute: byte,
    user_attribute: byte,
    stamps: Stamps,
    cluster_high: half,
    modified: ModifiedStamps,
    cluster_low: half,
    filesize: word)
  {
    /** `cluster_low | (cluster_high << 16)` */
    function Head(): word {
      cluster_low as int + 0x1_0000 * cluster_high as int
    }

    function Id(): (id: seq<byte>) {
      name + ext
    }

    predicate IsLive() {
      user_attribute == UATTR_NOT_EMPTY
    }

    predicate IsDirectory() {
      attribute == ATTR_SUBDIRECTORY
    }
  }

  const ZERO_ENTRY := DirEntry([0, 0, 0, 0, 0, 0, 0, 0], [0, 0, 0], 0, 0,
                               [0, 0, 0, 0, 0, 0, 0], 0, [0, 0, 0, 0], 0, 0)

  type DirTable = t: seq<DirEntry> | |t| == TABLE_SIZE witness seq(TABLE_SIZE, _ => ZERO_ENTRY)

  // ---------- Directory entries and tables ----------

  function EncodeEntry(e: DirEntry): (b: seq<byte>)
    ensures |b| == ENTRY_SIZE
  {
    e.name + e.ext + [e.attribute, e.user_attribute] + e.stamps + Le16(e.cluster_high)
    + e.modified + Le16(e.cluster_low) + Le32(e.filesize)
  }

  function DecodeEntry(b: seq<byte>): DirEntry
    requires |b| == ENTRY_SIZE
  {
    DirEntry(b[0..8], b[8..11], b[11], b[12], b[13..20], FromLe16(b[20..22]),
             b[22..26], FromLe16(b[26..28]), FromLe32(b[28..32]))
  }

  function EncodeDir(t: DirTable): (c: Cluster) {
    seq(CLUSTER_SIZE, k requires 0 <= k < CLUSTER_SIZE =>
      EncodeEntry(t[k / ENTRY_SIZE])[k % ENTRY_SIZE])
  }

  function DecodeDir(c: Cluster): (t: DirTable) {
    seq(TABLE_SIZE, i requires 0 <= i < TABLE_SIZE =>
      DecodeEntry(c[ENTRY_SIZE * i..ENTRY_SIZE * (i + 1)]))
  }

  lemma EntryRoundTrip(e: DirEntry, b: seq<byte>)
    requires |b| == ENTRY_SIZE
    ensures DecodeEntry(EncodeEntry(e)) == e
    ensures EncodeEntry(DecodeEntry(b)) == b
  {
    var x := EncodeEntry(e);
    assert x[20..22] == Le16(e.cluster_high) && x[26..28] == Le16(e.cluster_low);
    assert x[28..32] == Le32(e.filesize);
    assert x[0..8] == e.name && x[8..11] == e.ext;
    assert x[13..20] == e.stamps && x[22..26] == e.modified;
    Le16RoundTrip(e.cluster_high, b[20..22]);
    Le16RoundTrip(e.cluster_low, b[26..28]);
    Le32RoundTrip(e.filesize, b[28..32]);
  }

  lemma EncodedSlice(t: DirTable, i: nat)
    requires i < TABLE_SIZE
    ensures EncodeDir(t)[ENTRY_SIZE * i..ENTRY_SIZE * (i + 1)] == EncodeEntry(t[i])
  {
    var c := EncodeDir(t)[ENTRY_SIZE * i..ENTRY_SIZE * (i + 1)];
    var x := EncodeEntry(t[i]);
    forall j | 0 <= j < ENTRY_SIZE
      ensures c[j] == x[j]
    {
      assert (ENTRY_SIZE * i + j) / ENTRY_SIZE == i && (ENTRY_SIZE * i + j) % ENTRY_SIZE == j;
    }
  }

  /** Where the fields of slot `i` lie in a cluster, byte by byte. */
  lemma SlotBytes(c: Cluster, i: nat)
    requires i < TABLE_SIZE
    ensures var e, at := DecodeDir(c)[i], 32 * i;
            e.name == c[at..at + 8] && e.ext == c[at + 8..at + 11] && e.Id() == c[at..at + 11] &&
            (e.IsDirectory() <==> c[at + 11] == 0x10) && (e.IsLive() <==> c[at + 12] == 0xAA)
    ensures var e, at := DecodeDir(c)[i], 32 * i;
            e.Head() == c[at + 26] as int + 0x100 * c[at + 27] as int + 0x1_0000 * c[at + 20] as int + 0x100_0000 * c[at + 21] as int
    ensures var e, at := DecodeDir(c)[i], 32 * i;
            e.filesize == c[at + 28] as int + 0x100 * c[at + 29] as int + 0x1_0000 * c[at + 30] as int + 0x100_0000 * c[at + 31] as int
  {
    hide DecodeEntry;
    var b := c[ENTRY_SIZE * i..ENTRY_SIZE * (i + 1)];
    assert DecodeDir(c)[i] == DecodeEntry(b);
    EntryBytes(b);
    SliceOfSlice(c, 32 * i, 32, 0, 8);
    SliceOfSlice(c, 32 * i, 32, 8, 11);
    assert c[32 * i..32 * i + 8] + c[32 * i + 8..32 * i + 11] == c[32 * i..32 * i + 11];
    assert forall j :: 0 <= j < 32 ==> b[j] == c[32 * i + j];
  }

  lemma EntryBytes(b: seq<byte>)
    requires |b| == ENTRY_SIZE
    ensures var e := DecodeEntry(b);
            e.name == b[0..8] && e.ext == b[8..11] && e.attribute == b[11] && e.user_attribute == b[12] &&
            e.Head() == b[26] as int + 0x100 * b[27] as int + 0x1_0000 * b[20] as int + 0x100_0000 * b[21] as int &&
            e.filesize == b[28] as int + 0x100 * b[29] as int + 0x1_0000 * b[30] as int + 0x100_0000 * b[31] as int
  {
    hide FromLe16, FromLe32;
    Le16Bytes(b[26..28]);
    Le16Bytes(b[20..22]);
    Le32Bytes(b[28..32]);
  }

  lemma DirRoundTrip(t: DirTable)
    ensures DecodeDir(EncodeDir(t)) == t
  {
    forall i | 0 <= i < TABLE_SIZE
      ensures DecodeDir(EncodeDir(t))[i] == t[i]
    {
      EncodedSlice(t, i);
      EntryRoundTrip(t[i], EncodeEntry(t[i]));
    }
  }

  lemma DecodedSlice(c: Cluster, i: nat)
    requires i < TABLE_SIZE
    ensures EncodeEntry(DecodeDir(c)[i]) == c[ENTRY_SIZE * i..ENTRY_SIZE * (i + 1)]
  {
    EntryRoundTrip(ZERO_ENTRY, c[ENTRY_SIZE * i..ENTRY_SIZE * (i + 1)]);
  }

  lemma DirBytesRoundTrip(c: Cluster)
    ensures EncodeDir(DecodeDir(c)) == c
  {
    hide DecodeDir, EncodeEntry;
    forall k | 0 <= k < CLUSTER_SIZE
      ensures EncodeDir(DecodeDir(c))[k] == c[k]
    {
      DecodedSlice(c, k / ENTRY_SIZE);
      assert c[ENTRY_SIZE * (k / ENTRY_SIZE)..ENTRY_SIZE * (k / ENTRY_SIZE + 1)][k % ENTRY_SIZE] == c[k];
    }
  }

  // ---------- The allocation table ----------

  function EncodeFat(f: FatMap): (c: Cluster) {
    seq(CLUSTER_SIZE, k requires 0 <= k < CLUSTER_SIZE => Le32(f[k / 4])[k % 4])
  }

  function DecodeFat(c: Cluster): (f: FatMap) {
    seq(CLUSTER_MAP_SIZE, i requires 0 <= i < CLUSTER_MAP_SIZE => FromLe32(c[4 * i..4 * (i + 1)]))
  }

  /** Where word `i` of the allocation table lies in its cluster, byte by byte. */
  lemma WordBytes(c: Cluster, i: nat)
    requires i < CLUSTER_MAP_SIZE
    ensures DecodeFat(c)[i] ==
      c[4 * i] as int + 0x100 * c[4 * i + 1] as int + 0x1_0000 * c[4 * i + 2] as int + 0x100_0000 * c[4 * i + 3] as int
  {
    hide FromLe32;
    var b := c[4 * i..4 * (i + 1)];
    Le32Bytes(b);
    assert b[0] == c[4 * i] && b[1] == c[4 * i + 1] && b[2] == c[4 * i + 2] && b[3] == c[4 * i + 3];
  }

  /** ... and how it is stored there: those bytes are the word's digits in base 256. */
  lemma StoredWord(f: FatMap, i: nat)
    requires i < CLUSTER_MAP_SIZE
    ensures var c := EncodeFat(f);
            f[i] == c[4 * i] as int + 0x100 * c[4 * i + 1] as int + 0x1_0000 * c[4 * i + 2] as int + 0x100_0000 * c[4 * i + 3] as int
  {
    hide EncodeFat, DecodeFat;
    FatRoundTrip(f);
    WordBytes(EncodeFat(f), i);
  }

  lemma EncodedWord(f: FatMap, i: nat)
    requires i < CLUSTER_MAP_SIZE
    ensures EncodeFat(f)[4 * i..4 * (i + 1)] == Le32(f[i])
  {
    var c := EncodeFat(f)[4 * i..4 * (i + 1)];
    var x := Le32(f[i]);
    forall j | 0 <= j < 4
      ensures c[j] == x[j]
    {
      assert (4 * i + j) / 4 == i && (4 * i + j) % 4 == j;
    }
  }

  lemma FatRoundTrip(f: FatMap)
    ensures DecodeFat(EncodeFat(f)) == f
  {
    forall i | 0 <= i < CLUSTER_MAP_SIZE
      ensures DecodeFat(EncodeFat(f))[i] == f[i]
    {
      EncodedWord(f, i);
      Le32RoundTrip(f[i], Le32(f[i]));
    }
  }

  lemma DecodedWord(c: Cluster, i: nat)
    requires i < CLUSTER_MAP_SIZE
    ensures Le32(DecodeFat(c)[i]) == c[4 * i..4 * (i + 1)]
  {
    Le32RoundTrip(0, c[4 * i..4 * (i + 1)]);
  }

  lemma FatBytesRoundTrip(c: Cluster)
    ensures EncodeFat(DecodeFat(c)) == c
  {
    hide DecodeFat, Le32;
    forall k | 0 <= k < CLUSTER_SIZE
      ensures EncodeFat(DecodeFat(c))[k] == c[k]
    {
      DecodedWord(c, k / 4);
      assert c[4 * (k / 4)..4 * (k / 4 + 1)][k % 4] == c[k];
    }
  }
}

/** Blocks, the unit in which the device takes what is written to it. */
module Blocks {
  import opened Bytes
  import opened Layout
  import opened Volume

  const DISK_BLOCKS := 8192           // DISK_CLUSTERS * CLUSTER_BLOCK_COUNT
  const WORDS_PER_BLOCK := 128
  const ENTRIES_PER_BLOCK := 16

  type BlockData = s: seq<byte> | |s| == BLOCK_SIZE witness seq(BLOCK_SIZE, _ => 0)

  /** One block written to the device. */
  datatype Block = Block(lba: nat, data: BlockData)

  /** The blocks of one transfer, in order. */
  function BlockRun(ptr: seq<byte>, lba: nat, count: nat): (b: seq<Block>)
    requires BLOCK_SIZE * count <= |ptr|
    ensures |b| == count
  {
    seq<Block>(count, i requires 0 <= i < count => Block(lba + i, ptr[BLOCK_SIZE * i..BLOCK_SIZE * (i + 1)]))
  }

  /** The blocks of one cluster write. */
  function PutBlocks(p: Put): (b: seq<Block>)
    ensures |b| == CLUSTER_BLOCK_COUNT
  {
    BlockRun(p.data, CLUSTER_BLOCK_COUNT * p.cluster, CLUSTER_BLOCK_COUNT)
  }

  function PutsBlocks(puts: seq<Put>): (b: seq<Block>)
    ensures |b| == CLUSTER_BLOCK_COUNT * |puts|
  {
    if puts == [] then [] else PutsBlocks(puts[..|puts| - 1]) + PutBlocks(puts[|puts| - 1])
  }

  lemma HistoryAssoc(a: seq<Block>, b: seq<Block>, c: seq<Block>)
    ensures (a + b) + c == a + (b + c)
  {
  }

  lemma BlocksNone()
    ensures PutsBlocks([]) == []
  {
  }

  lemma BlocksOne(puts: seq<Put>, p: Put)
    ensures PutsBlocks(puts + [p]) == PutsBlocks(puts) + PutBlocks(p)
  {
    assert (puts + [p])[..|puts|] == puts;
  }

  lemma BlocksTwo(a: Put, b: Put)
    ensures PutsBlocks([a, b]) == PutBlocks(a) + PutBlocks(b)
  {
    hide PutBlocks, PutsBlocks;
    BlocksNone();
    BlocksOne([], a);
    BlocksOne([a], b);
    assert [] + [a] == [a] && [a] + [b] == [a, b];
  }

  lemma {:induction false} BlocksAppend(a: seq<Put>, b: seq<Put>)
    ensures PutsBlocks(a + b) == PutsBlocks(a) + PutsBlocks(b)
  {
    hide PutBlocks, PutsBlocks;
    if b == [] {
      assert a + b == a;
      BlocksNone();
    } else {
      var front, last := b[..|b| - 1], b[|b| - 1];
      BlocksAppend(a, front);
      BlocksOne(a + front, last);
      BlocksOne(front, last);
      assert b == front + [last] && a + b == a + front + [last];
      HistoryAssoc(PutsBlocks(a), PutsBlocks(front), PutBlocks(last));
    }
  }

  // ---------- What blocks do to the clusters ----------

  /** `c` with the bytes of block `j` replaced. */
  function WithBlock(c: Cluster, j: nat, data: BlockData): Cluster
    requires j < CLUSTER_BLOCK_COUNT
  {
    Splice(c, BLOCK_SIZE * j, data)
  }

  function Land(disk: Disk, b: Block): Disk
    requires b.lba < DISK_BLOCKS
  {
    var c := b.lba / CLUSTER_BLOCK_COUNT;
    disk[c := WithBlock(disk[c], b.lba % CLUSTER_BLOCK_COUNT, b.data)]
  }

  predicate OnDevice(blocks: seq<Block>) {
    forall i :: 0 <= i < |blocks| ==> blocks[i].lba < DISK_BLOCKS
  }

  /** The disk after `blocks` reached it, in order. */
  function LandAll(disk: Disk, blocks: seq<Block>): Disk
    requires OnDevice(blocks)
  {
    if blocks == [] then disk else Land(LandAll(disk, blocks[..|blocks| - 1]), blocks[|blocks| - 1])
  }

  lemma LandNothing(disk: Disk, none: seq<Block>)
    requires none == []
    ensures OnDevice(none) && LandAll(disk, none) == disk
  {
  }

  lemma LandOne(disk: Disk, blocks: seq<Block>, b: Block)
    requires OnDevice(blocks) && b.lba < DISK_BLOCKS
    ensures OnDevice(blocks + [b]) && LandAll(disk, blocks + [b]) == Land(LandAll(disk, blocks), b)
  {
    assert (blocks + [b])[..|blocks|] == blocks;
  }

  lemma {:induction false} LandAppend(disk: Disk, a: seq<Block>, b: seq<Block>)
    requires OnDevice(a) && OnDevice(b)
    ensures OnDevice(a + b) && LandAll(disk, a + b) == LandAll(LandAll(disk, a), b)
  {
    if b == [] {
      assert a + b == a;
    } else {
      var front, last := b[..|b| - 1], b[|b| - 1];
      LandAppend(disk, a, front);
      LandOne(disk, a + front, last);
      assert a + b == a + front + [last];
    }
  }

  lemma {:induction false} PutsOnDevice(puts: seq<Put>)
    ensures OnDevice(PutsBlocks(puts))
  {
    if puts != [] {
      PutsOnDevice(puts[..|puts| - 1]);
    }
  }

  /** `was` with its first `j` blocks replaced by those of `now`. */
  function Mixed(was: Cluster, now: Cluster, j: nat): Cluster
    requires j <= CLUSTER_BLOCK_COUNT
  {
    now[..BLOCK_SIZE * j] + was[BLOCK_SIZE * j..]
  }

  lemma MixedNext(was: Cluster, now: Cluster, j: nat)
    requires j < CLUSTER_BLOCK_COUNT
    ensures WithBlock(Mixed(was, now, j), j, now[BLOCK_SIZE * j..BLOCK_SIZE * (j + 1)]) == Mixed(was, now, j + 1)
  {
  }

  lemma MixedEnds(was: Cluster, now: Cluster)
    ensures Mixed(was, now, 0) == was && Mixed(was, now, CLUSTER_BLOCK_COUNT) == now
  {
  }

  lemma PutBlockAt(p: Put, j: nat)
    requires j < CLUSTER_BLOCK_COUNT
    ensures var b := PutBlocks(p)[j];
            b.lba < DISK_BLOCKS && b.lba / CLUSTER_BLOCK_COUNT == p.cluster && b.lba % CLUSTER_BLOCK_COUNT == j &&
            b.data == p.data[BLOCK_SIZE * j..BLOCK_SIZE * (j + 1)]
  {
  }

  /** One more block of a cluster write. */
  lemma LandNext(disk: Disk, p: Put, j: nat)
    requires j < CLUSTER_BLOCK_COUNT
    ensures PutBlocks(p)[j].lba < DISK_BLOCKS
    ensures Land(disk[p.cluster := Mixed(disk[p.cluster], p.data, j)], PutBlocks(p)[j])
         == disk[p.cluster := Mixed(disk[p.cluster], p.data, j + 1)]
  {
    hide Mixed, WithBlock, PutBlocks;
    PutBlockAt(p, j);
    MixedNext(disk[p.cluster], p.data, j);
  }

  /** The first `j` blocks of a cluster write. */
  lemma {:induction false} PutLands(disk: Disk, p: Put, j: nat)
    requires j <= CLUSTER_BLOCK_COUNT
    ensures OnDevice(PutBlocks(p)[..j])
    ensures LandAll(disk, PutBlocks(p)[..j]) == disk[p.cluster := Mixed(disk[p.cluster], p.data, j)]
  {
    hide Mixed, WithBlock, PutBlocks, Land, LandAll, OnDevice;
    var all := PutBlocks(p);
    if j == 0 {
      MixedEnds(disk[p.cluster], p.data);
      assert all[..0] == [];
      LandNothing(disk, all[..0]);
    } else {
      PutLands(disk, p, j - 1);
      LandNext(disk, p, j - 1);
      assert all[..j] == all[..j - 1] + [all[j - 1]];
      LandOne(disk, all[..j - 1], all[j - 1]);
    }
  }

  /** Whole cluster writes do what `Apply` says. */
  lemma {:induction false} PutsLand(disk: Disk, puts: seq<Put>)
    ensures OnDevice(PutsBlocks(puts)) && LandAll(disk, PutsBlocks(puts)) == Apply(disk, puts)
  {
    hide Mixed, PutBlocks;
    PutsOnDevice(puts);
    if puts == [] {
      ApplyNone(disk);
    } else {
      var front, last := puts[..|puts| - 1], puts[|puts| - 1];
      PutsLand(disk, front);
      PutLands(Apply(disk, front), last, CLUSTER_BLOCK_COUNT);
      MixedEnds(Apply(disk, front)[last.cluster], last.data);
      assert PutBlocks(last)[..CLUSTER_BLOCK_COUNT] == PutBlocks(last);
      PutsOnDevice(front);
      LandAppend(disk, PutsBlocks(front), PutBlocks(last));
    }
  }

  /** Any prefix of the blocks is some whole cluster writes and part of the next. */
  lemma PrefixLands(disk: Disk, puts: seq<Put>, k: nat, j: nat)
    requires k < |puts| && j <= CLUSTER_BLOCK_COUNT
    ensures var some := PutsBlocks(puts)[..CLUSTER_BLOCK_COUNT * k + j];
            var before, p := Apply(disk, puts[..k]), puts[k];
            OnDevice(some) && LandAll(disk, some) == before[p.cluster := Mixed(before[p.cluster], p.data, j)]
  {
    hide Mixed, PutBlocks, LandAll;
    PutsOnDevice(puts);
    PrefixSplits(puts, k, j);
    PutsLand(disk, puts[..k]);
    PutLands(Apply(disk, puts[..k]), puts[k], j);
    LandAppend(disk, PutsBlocks(puts[..k]), PutBlocks(puts[k])[..j]);
  }

  lemma PrefixSplits(puts: seq<Put>, k: nat, j: nat)
    requires k < |puts| && j <= CLUSTER_BLOCK_COUNT
    ensures PutsBlocks(puts)[..CLUSTER_BLOCK_COUNT * k + j] == PutsBlocks(puts[..k]) + PutBlocks(puts[k])[..j]
  {
    hide PutBlocks, PutsBlocks;
    var rest := puts[k + 1..];
    assert puts == puts[..k] + [puts[k]] + rest;
    BlocksAppend(puts[..k] + [puts[k]], rest);
    BlocksOne(puts[..k], puts[k]);
  }

  // ---------- Formatting ----------

  /** What a format writes: of the boot cluster its first block only. */
  function FormatBlocks(disk: Disk): seq<Block> {
    [Block(BOOT_SECTOR, FsSignature())] + PutsBlocks(FormatTrace(disk)[1..])
  }

  function MountBlocks(disk: Disk): seq<Block> {
    if HasSignature(disk) then [] else FormatBlocks(disk)
  }

  lemma FormatLength(disk: Disk)
    ensures |FormatBlocks(disk)| == 9
  {
  }

  lemma BootLands(disk: Disk)
    ensures Land(disk, Block(BOOT_SECTOR, FsSignature())) == disk[BOOT_SECTOR := FormatTrace(disk)[0].data]
  {
    hide FsSignature, EncodeFat, EncodeDir;
    var c := disk[BOOT_SECTOR];
    assert c[..0] + FsSignature() + c[BLOCK_SIZE..] == FsSignature() + c[BLOCK_SIZE..];
  }

  lemma BootRun()
    ensures BlockRun(FsSignature(), BOOT_SECTOR, 1) == [Block(BOOT_SECTOR, FsSignature())]
  {
    hide FsSignature;
    assert FsSignature()[0..BLOCK_SIZE] == FsSignature();
  }

  // ---------- Tables stored in part ----------

  /** Part of a new allocation table over the old one is the table with the words of
      those blocks. */
  lemma MixedFat(f: FatMap, g: FatMap, j: nat)
    requires j <= CLUSTER_BLOCK_COUNT
    ensures Mixed(EncodeFat(f), EncodeFat(g), j) == EncodeFat(g[..WORDS_PER_BLOCK * j] + f[WORDS_PER_BLOCK * j..])
  {
    hide Le32;
    var h: FatMap := g[..WORDS_PER_BLOCK * j] + f[WORDS_PER_BLOCK * j..];
    forall k | 0 <= k < CLUSTER_SIZE
      ensures Mixed(EncodeFat(f), EncodeFat(g), j)[k] == EncodeFat(h)[k]
    {
      assert k < BLOCK_SIZE * j <==> k / 4 < WORDS_PER_BLOCK * j;
    }
  }

  /** Part of a directory table with one entry changed is the new table once the block
      of that entry is stored, and the old one before. */
  lemma MixedDir(t: DirTable, i: nat, e: DirEntry, j: nat)
    requires i < TABLE_SIZE && j <= CLUSTER_BLOCK_COUNT
    ensures Mixed(EncodeDir(t), EncodeDir(t[i := e]), j) == EncodeDir(if i < ENTRIES_PER_BLOCK * j then t[i := e] else t)
  {
    hide EncodeEntry;
    var m := if i < ENTRIES_PER_BLOCK * j then t[i := e] else t;
    forall k | 0 <= k < CLUSTER_SIZE
      ensures Mixed(EncodeDir(t), EncodeDir(t[i := e]), j)[k] == EncodeDir(m)[k]
    {
      assert k < BLOCK_SIZE * j <==> k / ENTRY_SIZE < ENTRIES_PER_BLOCK * j;
    }
  }
}

/** The flat byte image that stands for the disk, its block transfers, and the
    view of the image as a sequence of clusters. */
module Storage {
  import opened Bytes
  import opened Layout
  import opened Blocks

  const IMAGE_SIZE := 4194304         // 4 MiB == DISK_CLUSTERS * CLUSTER_SIZE

  type Image = s: seq<byte> | |s| == IMAGE_SIZE witness seq(IMAGE_SIZE, _ => 0)

  function Clusters(image: Image): Disk {
    seq<Cluster>(DISK_CLUSTERS, c requires 0 <= c < DISK_CLUSTERS =>
      image[CLUSTER_SIZE * c..CLUSTER_SIZE * (c + 1)])
  }

  /** Logical block address of a cluster, in 32-bit arithmetic. */
  function ClusterToLba(cluster: word): word {
    (cluster * CLUSTER_BLOCK_COUNT) % 0x1_0000_0000
  }

  /** Overwriting a cluster's bytes, at the offset its block address selects,
      changes that cluster of the view and no other. */
  lemma WriteOneCluster(image: Image, c: ClusterIndex, data: Cluster)
    ensures Clusters(Splice(image, BLOCK_SIZE * ClusterToLba(c), data)) == Clusters(image)[c := data]
  {
    var at := BLOCK_SIZE * ClusterToLba(c);
    forall d | 0 <= d < DISK_CLUSTERS
      ensures Clusters(Splice(image, at, data))[d] == Clusters(image)[c := data][d]
    {
      SpliceReads(image, at, data, CLUSTER_SIZE * d, CLUSTER_SIZE * (d + 1));
    }
  }

  /** Overwriting one block's bytes changes that block of its cluster. */
  lemma WriteOneBlock(image: Image, b: Block)
    requires b.lba < DISK_BLOCKS
    ensures Clusters(Splice(image, BLOCK_SIZE * b.lba, b.data)) == Land(Clusters(image), b)
  {
    var c, j := b.lba / CLUSTER_BLOCK_COUNT, b.lba % CLUSTER_BLOCK_COUNT;
    var image' := Splice(image, BLOCK_SIZE * b.lba, b.data);
    assert BLOCK_SIZE * b.lba == CLUSTER_SIZE * c + BLOCK_SIZE * j;
    forall d | 0 <= d < DISK_CLUSTERS
      ensures Clusters(image')[d] == Land(Clusters(image), b)[d]
    {
      if d == c {
        SpliceInSlice(image, CLUSTER_SIZE * c, CLUSTER_SIZE, BLOCK_SIZE * j, b.data);
      } else {
        SpliceReads(image, BLOCK_SIZE * b.lba, b.data, CLUSTER_SIZE * d, CLUSTER_SIZE * (d + 1));
      }
    }
  }

  lemma SpliceInSlice(s: seq<byte>, from: nat, n: nat, at: nat, data: seq<byte>)
    requires from + n <= |s| && at + |data| <= n
    ensures Splice(s, from + at, data)[from..from + n] == Splice(s[from..from + n], at, data)
  {
  }

  lemma LastOfRun(ptr: seq<byte>, lba: nat, count: nat)
    requires |ptr| == BLOCK_SIZE * count && count > 0
    ensures var front, b := ptr[..BLOCK_SIZE * (count - 1)], Block(lba + count - 1, ptr[BLOCK_SIZE * (count - 1)..]);
            BlockRun(ptr, lba, count) == BlockRun(front, lba, count - 1) + [b]
  {
    var front, b := ptr[..BLOCK_SIZE * (count - 1)], Block(lba + count - 1, ptr[BLOCK_SIZE * (count - 1)..]);
    var run := BlockRun(front, lba, count - 1) + [b];
    forall i | 0 <= i < count
      ensures BlockRun(ptr, lba, count)[i] == run[i]
    {
      if i < count - 1 {
        assert front[BLOCK_SIZE * i..BLOCK_SIZE * (i + 1)] == ptr[BLOCK_SIZE * i..BLOCK_SIZE * (i + 1)];
      }
    }
  }

  /** A transfer of blocks does to the clusters what its blocks do, in order. */
  lemma {:induction false} WriteRunOfBlocks(image: Image, ptr: seq<byte>, lba: nat, count: nat)
    requires |ptr| == BLOCK_SIZE * count && lba + count <= DISK_BLOCKS
    ensures OnDevice(BlockRun(ptr, lba, count))
    ensures Clusters(Splice(image, BLOCK_SIZE * lba, ptr)) == LandAll(Clusters(image), BlockRun(ptr, lba, count))
  {
    hide Clusters, Land, Splice;
    if count == 0 {
      SpliceNothing(image, BLOCK_SIZE * lba);
      assert ptr == [] && BlockRun(ptr, lba, 0) == [];
    } else {
      var front, b := ptr[..BLOCK_SIZE * (count - 1)], Block(lba + count - 1, ptr[BLOCK_SIZE * (count - 1)..]);
      WriteRunOfBlocks(image, front, lba, count - 1);
      assert front + b.data == ptr;
      LastOfRun(ptr, lba, count);
      SpliceTwice(image, BLOCK_SIZE * lba, front, b.data);
      WriteOneBlock(Splice(image, BLOCK_SIZE * lba, front), b);
      LandOne(Clusters(image), BlockRun(front, lba, count - 1), b);
    }
  }

  /** ... so that a history that accounts for an image goes on to do so. */
  lemma RecordedAfter(image: Image, initial: Disk, history: seq<Block>, ptr: seq<byte>, lba: nat, count: nat)
    requires OnDevice(history) && Clusters(image) == LandAll(initial, history)
    requires |ptr| == BLOCK_SIZE * count && lba + count <= DISK_BLOCKS
    ensures var now := history + BlockRun(ptr, lba, count);
            OnDevice(now) && Clusters(Splice(image, BLOCK_SIZE * lba, ptr)) == LandAll(initial, now)
  {
    hide Clusters, Splice, LandAll, BlockRun;
    WriteRunOfBlocks(image, ptr, lba, count);
    LandAppend(initial, history, BlockRun(ptr, lba, count));
  }

  /** `memcpy`: the bytes of `src` replace those of `dest` from `at` on. */
  method CopyBytes(dest: array<byte>, at: nat, src: seq<byte>)
    requires at + |src| <= dest.Length
    modifies dest
    ensures dest[..] == Splice(old(dest[..]), at, src)
  {
    for j := 0 to |src|
      invariant forall k :: 0 <= k < j ==> dest[at + k] == src[k]
      invariant forall k :: 0 <= k < dest.Length && !(at <= k < at + j) ==> dest[k] == old(dest[k])
    {
      dest[at + j] := src[j];
    }
    SpliceAt(old(dest[..]), at, src, dest[..]);
  }

  class BlockDevice {
    const image_storage: array<byte>
    /** The clusters at the start, and every block written since, in order. */
    ghost const initial: Disk
    ghost var history: seq<Block>

    constructor ()
      ensures fresh(image_storage) && Valid() && Recorded() && history == []
    {
      var image := new byte[IMAGE_SIZE];
      image_storage := image;
      initial := Clusters(image[..]);
      history := [];
    }

    /** The history accounts for the whole image. */
    ghost predicate Recorded()
      requires Valid()
      reads image_storage, this`history
    {
      OnDevice(history) && Clusters(image_storage[..]) == LandAll(initial, history)
    }

    predicate Valid() {
      image_storage.Length == IMAGE_SIZE
    }

    method ReadBlocks(dest: array<byte>, at: nat, lba: word, count: byte)
      requires Valid() && dest != image_storage
      requires at + BLOCK_SIZE * count <= dest.Length
      requires BLOCK_SIZE * (lba + count) <= IMAGE_SIZE
      modifies dest
      ensures dest[..] == Splice(old(dest[..]), at, image_storage[BLOCK_SIZE * lba..BLOCK_SIZE * (lba + count)])
    {
      var i := 0;
      while i < count
        invariant 0 <= i <= count
        invariant dest[..] == Splice(old(dest[..]), at, image_storage[BLOCK_SIZE * lba..BLOCK_SIZE * (lba + i)])
      {
        ghost var done := image_storage[BLOCK_SIZE * lba..BLOCK_SIZE * (lba + i)];
        ghost var block := image_storage[BLOCK_SIZE * (lba + i)..BLOCK_SIZE * (lba + i) + BLOCK_SIZE];
        CopyBytes(dest, at + BLOCK_SIZE * i, image_storage[BLOCK_SIZE * (lba + i)..BLOCK_SIZE * (lba + i) + BLOCK_SIZE]);
        SpliceTwice(old(dest[..]), at, done, block);
        assert done + block == image_storage[BLOCK_SIZE * lba..BLOCK_SIZE * (lba + i + 1)];
        i := i + 1;
      }
    }

    method WriteBlocks(ptr: seq<byte>, lba: word, count: byte)
      requires Valid() && Recorded()
      requires |ptr| == BLOCK_SIZE * count
      requires BLOCK_SIZE * (lba + count) <= IMAGE_SIZE
      modifies image_storage, this`history
      ensures image_storage[..] == Splice(old(image_storage[..]), BLOCK_SIZE * lba, ptr)
      ensures history == old(history) + BlockRun(ptr, lba, count)
      ensures Recorded()
    {
      hide Clusters, LandAll, OnDevice;
      RecordedAfter(image_storage[..], initial, history, ptr, lba, count);
      var i := 0;
      while i < count
        invariant 0 <= i <= count
        invariant history == old(history) + BlockRun(ptr, lba, count)[..i]
        invariant image_storage[..] == Splice(old(image_storage[..]), BLOCK_SIZE * lba, ptr[..BLOCK_SIZE * i])
      {
        ghost var done := ptr[..BLOCK_SIZE * i];
        ghost var block := ptr[BLOCK_SIZE * i..BLOCK_SIZE * (i + 1)];
        CopyBytes(image_storage, BLOCK_SIZE * (lba + i), ptr[BLOCK_SIZE * i..BLOCK_SIZE * (i + 1)]);
        history := history + [Block(lba + i, block)];
        SpliceTwice(old(image_storage[..]), BLOCK_SIZE * lba, done, block);
        assert done + block == ptr[..BLOCK_SIZE * (i + 1)];
        i := i + 1;
      }
      assert ptr[..BLOCK_SIZE * i] == ptr;
    }
  }
}

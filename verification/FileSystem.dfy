/** The abstract file system: requests answered from a map of names alone. */
module FileSystem {
  import opened Bytes
  import opened Layout
  import opened Volume
  import opened Tree
  import opened Refinement

  /** Clusters available to files and directories other than the root. */
  const CAPACITY := 509

  datatype Op =
    | Read(r: Request)
    | ReadDirectory(r: Request)
    | Write(r: Request, buf: seq<byte>)
    | Delete(r: Request)
    | Remount

  /** Return code, and the clusters delivered to the caller's buffer. */
  datatype Reply = Reply(code: int, data: seq<Cluster>)

  /** A slot that is free but still carries the directory attribute. */
  predicate HasStaleSlot(t: DirTable) {
    exists i :: 2 <= i < TABLE_SIZE && !t[i].IsLive() && t[i].IsDirectory()
  }

  /** The names and what they stand for, the number of free clusters, and the
      directories that have a stale slot. */
  datatype FileSystem = FileSystem(nodes: map<Key, Node>, free: nat, tainted: set<nat>) {

    /** Nothing is filed under cluster `c`. */
    ghost predicate NothingIn(c: nat) {
      forall k :: k in nodes ==> k.dir != c
    }

    /** `c` can become a directory. */
    ghost predicate FreshDirectory(c: nat) {
      c != ROOT_CLUSTER_NUMBER && NothingIn(c) &&
      forall k :: k in nodes && nodes[k].Directory? ==> nodes[k].cluster != c
    }

    /** Requests may name `p` as their parent. */
    ghost predicate Usable(p: nat) {
      p == ROOT_CLUSTER_NUMBER || exists k :: k in nodes && nodes[k] == Directory(p, true)
    }

    ghost function NamesIn(dir: nat): set<Key> {
      set k | k in nodes && k.dir == dir
    }

    /** A node that `delete` refuses to remove. */
    ghost predicate Occupied(n: Node) {
      match n
      case File(_, _) => false
      case Directory(c, _) => !NothingIn(c)
      case Impostor(_, clusters) => clusters != [] && !IsEmptyTable(DecodeDir(clusters[0]))
    }

    // ---------- Return codes ----------

    ghost function ReadAnswer(r: Request): int {
      var key := Key(r.parent, r.Id());
      if !Usable(r.parent) then -1
      else if key !in nodes then 3
      else if !nodes[key].File? then 1
      else if r.buffer_size < nodes[key].size then 2
      else 0
    }

    ghost function ReadDirectoryAnswer(r: Request): int {
      var key := Key(r.parent, r.DirectoryId());
      if !Usable(r.parent) || r.buffer_size != CLUSTER_SIZE then -1
      else if key !in nodes then 2
      else if nodes[key].File? then 1
      else 0
    }

    /** A write needs `n` free clusters although it will take only ceil(n/2). */
    ghost function WriteAnswer(r: Request): int {
      if !Usable(r.parent) then 2
      else if Key(r.parent, r.Id()) in nodes then 1
      else if |NamesIn(r.parent)| == TABLE_SIZE - 2 || free < r.Chunks() then -1
      else 0
    }

    ghost function DeleteAnswer(r: Request): int {
      var key := Key(r.parent, r.Id());
      if !Usable(r.parent) then -1
      else if key !in nodes then 1
      else if Occupied(nodes[key]) then 2
      else 0
    }

    ghost function Answer(op: Op): int {
      match op
      case Read(r) => ReadAnswer(r)
      case ReadDirectory(r) => ReadDirectoryAnswer(r)
      case Write(r, _) => WriteAnswer(r)
      case Delete(r) => DeleteAnswer(r)
      case Remount => 0
    }

    // ---------- What a request that succeeds delivers and does ----------

    /** The table in `cluster` lists exactly the names filed under `dir`. */
    ghost predicate Lists(dir: nat, cluster: Cluster) {
      forall id :: Key(dir, id) in nodes <==>
        exists i :: 2 <= i < TABLE_SIZE && DecodeDir(cluster)[i].IsLive() && DecodeDir(cluster)[i].Id() == id
    }

    ghost predicate Delivers(op: Op, data: seq<Cluster>)
      requires Answer(op) == 0
    {
      match op
      case Read(r) => data == nodes[Key(r.parent, r.Id())].clusters
      case ReadDirectory(r) => |data| == 1 && DeliversTable(nodes[Key(r.parent, r.DirectoryId())], data[0])
      case _ => data == []
    }

    ghost predicate DeliversTable(n: Node, table: Cluster) {
      match n
      case File(_, _) => false
      case Directory(c, usable) => Lists(c, table) && DecodeDir(table)[0].IsDirectory() == usable
      case Impostor(_, clusters) => clusters != [] && table == clusters[0]
    }

    /** What a write may add. A file is readable unless its directory is tainted. */
    ghost predicate MayAdd(r: Request, buf: seq<byte>, n: Node) {
      CLUSTER_SIZE * r.Chunks() <= |buf| && r.Chunks() <= CLUSTER_MAP_SIZE - 2 &&
      var size, kept := r.Chunks() * CLUSTER_SIZE, KeptChunks(buf, r.Chunks());
      if MakesDirectory(r, buf) then
        n.Directory? && FreshDirectory(n.cluster) && n.usable == DecodeDir(Chunk(buf, 0))[0].IsDirectory()
      else if r.buffer_size == 0 then n == Impostor(size, kept)
      else n == File(size, kept) || (n == Impostor(size, kept) && r.parent as nat in tainted)
    }

    /** `fs'` has `n` added by a write. No directory but the parent and the new one
        changes its taint, and the parent does not become tainted. */
    ghost predicate Added(r: Request, buf: seq<byte>, n: Node, fs': FileSystem) {
      MayAdd(r, buf, n) && fs'.nodes == nodes[Key(r.parent, r.Id()) := n] && fs'.free == free - n.Size() &&
      (r.parent as nat in fs'.tainted ==> r.parent as nat in tainted) &&
      fs'.tainted - {r.parent as nat} == tainted - {r.parent as nat} + TaintOfNew(r, buf, n)
    }

    ghost function TaintOfNew(r: Request, buf: seq<byte>, n: Node): set<nat>
      requires CLUSTER_SIZE * r.Chunks() <= |buf|
    {
      if n.Directory? && HasStaleSlot(DecodeDir(Chunk(buf, 0))) then {n.cluster} else {}
    }

    /** `fs'` has the node of `key` removed. Unless it was a readable file, its slot
        is stale now. */
    ghost predicate Removed(key: Key, fs': FileSystem)
      requires key in nodes
    {
      var n := nodes[key];
      fs'.nodes == nodes - {key} && fs'.free == free + n.Size() &&
      fs'.tainted == tainted + (if n.File? then {} else {key.dir}) - (if n.Directory? then {n.cluster} else {})
    }

    ghost predicate Becomes(op: Op, fs': FileSystem)
      requires Answer(op) == 0
    {
      match op
      case Write(r, buf) => exists n :: Added(r, buf, n, fs')
      case Delete(r) => Removed(Key(r.parent, r.Id()), fs')
      case _ => fs' == this
    }

    /** The code is exactly the one the map calls for; only a request that succeeds
        delivers or changes anything. */
    ghost predicate Allowed(op: Op, reply: Reply, fs': FileSystem) {
      reply.code == Answer(op) &&
      if reply.code == 0 then Delivers(op, reply.data) && Becomes(op, fs')
      else reply.data == [] && fs' == this
    }

    /** `ops` can be answered with `replies`, leading to `fs'`. */
    ghost predicate AllowedRun(ops: seq<Op>, replies: seq<Reply>, fs': FileSystem)
      decreases |ops|
    {
      |replies| == |ops| &&
      if ops == [] then fs' == this
      else exists fs1: FileSystem :: Allowed(ops[0], replies[0], fs1) && fs1.AllowedRun(ops[1..], replies[1..], fs')
    }
  }
}

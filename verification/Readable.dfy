/** When every file can be read and every directory is one. */
module Readable {
  import opened Bytes
  import opened Layout
  import opened Volume
  import opened Tree
  import opened Refinement
  import opened FileSystem
  import opened Lookup
  import opened Structure
  import opened Runs

  /** There is no impostor, and no slot in which a file would become one. */
  ghost predicate Clean(fs: FileSystem) {
    fs.tainted == {} && forall k :: k in fs.nodes ==> !fs.nodes[k].Impostor?
  }

  /** The request deletes a directory, or makes one from a table that has a live
      entry or a stale slot. */
  ghost predicate Dirties(fs: FileSystem, op: Op) {
    fs.Answer(op) == 0 &&
    match op
    case Write(r, buf) =>
      r.buffer_size == 0 && CLUSTER_SIZE <= |buf| &&
      (!MakesDirectory(r, buf) || HasStaleSlot(DecodeDir(Chunk(buf, 0))))
    case Delete(r) => !fs.nodes[Key(r.parent, r.Id())].File?
    case _ => false
  }

  /** Exactly these requests spoil a clean file system. */
  lemma CleanExactly(fs: FileSystem, op: Op, reply: Reply, fs': FileSystem)
    requires Clean(fs) && fs.Allowed(op, reply, fs')
    ensures Clean(fs') <==> !Dirties(fs, op)
  {
    hide FileSystem.Usable, FileSystem.NamesIn, FileSystem.Delivers, FileSystem.Lists, HasStaleSlot, DecodeDir,
         IsEmptyTable, KeptChunks, Chunk;
    if reply.code == 0 {
      match op
      case Write(r, buf) =>
        var n :| fs.Added(r, buf, n, fs');
        WriteKeepsClean(fs, r, buf, n, fs');
      case Delete(r) => DeleteKeepsClean(fs, Key(r.parent, r.Id()), fs');
      case _ =>
    }
  }

  lemma WriteKeepsClean(fs: FileSystem, r: Request, buf: seq<byte>, n: Node, fs': FileSystem)
    requires Clean(fs) && fs.Added(r, buf, n, fs')
    ensures Clean(fs') <==> !(r.buffer_size == 0 && (!MakesDirectory(r, buf) || HasStaleSlot(DecodeDir(Chunk(buf, 0)))))
  {
    hide HasStaleSlot, DecodeDir, IsEmptyTable, KeptChunks, Chunk;
    var key := Key(r.parent, r.Id());
    assert fs'.nodes[key] == n;
    assert forall k :: k in fs'.nodes && k != key ==> fs'.nodes[k] == fs.nodes[k];
  }

  lemma DeleteKeepsClean(fs: FileSystem, key: Key, fs': FileSystem)
    requires Clean(fs) && key in fs.nodes && !fs.Occupied(fs.nodes[key]) && fs.Removed(key, fs')
    ensures Clean(fs') <==> fs.nodes[key].File?
  {
    hide DecodeDir;
    if !fs.nodes[key].File? {
      assert key.dir in fs'.tainted;
    }
  }

  // ---------- Runs ----------

  ghost predicate NeverDirties(s: State, t: Tree, ops: seq<Op>)
    requires Sound(s, t) && LegalRun(s, t, ops)
    decreases |ops|
  {
    ops == [] ||
    (!Dirties(Shown(s, t), ops[0]) &&
     (StepRefines(s, t, ops[0]);
      var x := Step(s, t, ops[0]);
      NeverDirties(x.0, x.1, ops[1..])))
  }

  /** A run that spoils nothing leaves every file readable, and the volume with a
      single tree that counts every directory entry as a directory. */
  lemma {:induction false} RunStaysClean(s: State, t: Tree, ops: seq<Op>)
    requires Sound(s, t) && Clean(Shown(s, t)) && LegalRun(s, t, ops) && NeverDirties(s, t, ops)
    ensures var y := Exec(s, t, ops);
            Sound(y.0, y.1) && Clean(Shown(y.0, y.1)) && NoImpostors(y.0, y.1)
    decreases |ops|
  {
    hide Sound, Shown, Clean, Dirties, FileSystem.Allowed, Step, Legal, NoImpostors;
    if ops == [] {
      CleanHasNoImpostors(s, t);
    } else {
      StepRefines(s, t, ops[0]);
      var x := Step(s, t, ops[0]);
      CleanExactly(Shown(s, t), ops[0], x.2, Shown(x.0, x.1));
      RunStaysClean(x.0, x.1, ops[1..]);
    }
  }

  lemma CleanHasNoImpostors(s: State, t: Tree)
    requires Sound(s, t) && Clean(Shown(s, t))
    ensures NoImpostors(s, t)
  {
    hide DecodeDir, Sound, Abs, Entry, NodeOf, Tainted;
    forall a | IsLive(s, t, a) && Entry(s, a).IsDirectory()
      ensures Head(s, a) in t
    {
      AbsAt(s, t, a);
      NodeMeans(s, t, a);
    }
  }

  /** A freshly formatted volume is clean. */
  lemma FormatIsClean(disk: Disk)
    requires !HasSignature(disk)
    ensures Sound(Mount(disk), ROOT_TREE) && Clean(Shown(Mount(disk), ROOT_TREE))
  {
    hide Mount, HasSignature, Sound, Shown, NoLeak;
    FormatIsConsistent(disk);
  }
}

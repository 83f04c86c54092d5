/** Free space is conserved: what the allocation table has left is determined by
    the names and nodes of the abstract file system. */
module Conservation {
  import opened Layout
  import opened Fat
  import opened Volume
  import opened Tree
  import opened FileSystem
  import opened Lookup
  import opened Runs

  ghost function Total(m: map<Key, Node>): nat
    decreases |m|
  {
    if m == map[] then 0
    else
      var k :| k in m;
      m[k].Size() + Total(m - {k})
  }

  lemma {:induction false} TotalWithout(m: map<Key, Node>, k: Key)
    requires k in m
    ensures Total(m) == m[k].Size() + Total(m - {k})
    decreases |m|
  {
    var j :| j in m && Total(m) == m[j].Size() + Total(m - {j});
    if j != k {
      TotalWithout(m - {j}, k);
      TotalWithout(m - {k}, j);
      assert m - {j} - {k} == m - {k} - {j};
    }
  }

  lemma TotalWith(m: map<Key, Node>, k: Key, n: Node)
    requires k !in m
    ensures Total(m[k := n]) == Total(m) + n.Size()
  {
    TotalWithout(m[k := n], k);
    assert m[k := n] - {k} == m;
  }

  /** Free clusters, and those that the nodes take. */
  ghost function Space(fs: FileSystem): nat {
    fs.free + Total(fs.nodes)
  }

  /** No request changes their sum. */
  lemma RequestKeepsSpace(fs: FileSystem, op: Op, reply: Reply, fs': FileSystem)
    requires fs.Allowed(op, reply, fs')
    ensures Space(fs') == Space(fs)
  {
    hide FileSystem.Usable, FileSystem.Occupied, FileSystem.NamesIn, FileSystem.MayAdd, Node.Size, Total,
         FileSystem.Delivers;
    if reply.code == 0 {
      match op
      case Write(r, buf) =>
        var n :| fs.Added(r, buf, n, fs');
        TotalWith(fs.nodes, Key(r.parent, r.Id()), n);
      case Delete(r) =>
        TotalWithout(fs.nodes, Key(r.parent, r.Id()));
      case _ =>
    }
  }

  lemma {:induction false} RunKeepsSpace(fs: FileSystem, ops: seq<Op>, replies: seq<Reply>, fs': FileSystem)
    requires fs.AllowedRun(ops, replies, fs')
    ensures Space(fs') == Space(fs)
    decreases |ops|
  {
    hide FileSystem.Allowed, Space;
    if ops != [] {
      var fs1: FileSystem :| fs.Allowed(ops[0], replies[0], fs1) && fs1.AllowedRun(ops[1..], replies[1..], fs');
      RequestKeepsSpace(fs, ops[0], replies[0], fs1);
      RunKeepsSpace(fs1, ops[1..], replies[1..], fs');
    }
  }

  /** Over every run of the driver, free clusters and the clusters of all files and
      directories keep their sum. */
  lemma RunBalances(s: State, t: Tree, ops: seq<Op>)
    requires Sound(s, t) && LegalRun(s, t, ops)
    ensures var y := Exec(s, t, ops);
            Sound(y.0, y.1) && FreeCount(y.0.fat) + Total(Abs(y.0, y.1)) == FreeCount(s.fat) + Total(Abs(s, t))
  {
    hide Sound, Abs, NoLeak, LegalRun, Exec, FileSystem.AllowedRun, FreeCount, Tainted;
    RunRefines(s, t, ops);
    var y := Exec(s, t, ops);
    RunKeepsSpace(Shown(s, t), ops, y.2, Shown(y.0, y.1));
  }

  /** From an unformatted disk that sum is 509: a write with a usable parent and a
      new name is refused exactly when the directory holds 62 names already, or the
      map leaves fewer clusters than the request has chunks. */
  lemma RefusedExactly(disk: Disk, ops: seq<Op>, r: Request)
    requires !HasSignature(disk)
    requires Sound(Mount(disk), ROOT_TREE) ==> LegalRun(Mount(disk), ROOT_TREE, ops)
    ensures Sound(Mount(disk), ROOT_TREE)
    ensures var y := Exec(Mount(disk), ROOT_TREE, ops);
            Sound(y.0, y.1) &&
            var m := Abs(y.0, y.1);
            FreeCount(y.0.fat) + Total(m) == CAPACITY &&
            (LegalParent(y.0, y.1, r.parent) && ParentOk(y.0, r.parent) && Key(r.parent, r.Id()) !in m ==>
              var full := |Shown(y.0, y.1).NamesIn(r.parent)| == TABLE_SIZE - 2;
              WriteCode(y.0, r) == if full || CAPACITY - Total(m) < r.Chunks() then -1 else 0)
  {
    hide Mount, HasSignature, Sound, Abs, NoLeak, FreeCount, LegalRun, Exec, WriteCode, ParentOk, Tainted,
         FileSystem.NamesIn, FileSystem.Usable, DecodeDir;
    FormatIsConsistent(disk);
    RunBalances(Mount(disk), ROOT_TREE, ops);
    assert Total(map[]) == 0;
    var y := Exec(Mount(disk), ROOT_TREE, ops);
    if LegalParent(y.0, y.1, r.parent) && ParentOk(y.0, r.parent) {
      ParentIsUsable(y.0, y.1, r.parent);
      CodesAreAnswers(y.0, y.1, r);
    }
  }
}

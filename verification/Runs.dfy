/** Runs of requests, and the abstract file system they simulate. */
module Runs {
  import opened Bytes
  import opened Layout
  import opened Fat
  import opened Volume
  import opened Tree
  import opened Entries
  import opened Refinement
  import opened Crash
  import opened FileSystem
  import opened Lookup
  import opened Effects

  // ---------- The driver's steps ----------

  /** Requests name a directory or a cluster that is refused, and the buffer of a
      write that will succeed holds what `write` takes from it. */
  ghost predicate Legal(s: State, t: Tree, op: Op) {
    match op
    case Read(r) => LegalParent(s, t, r.parent)
    case ReadDirectory(r) => LegalParent(s, t, r.parent)
    case Write(r, buf) => LegalParent(s, t, r.parent) && LegalWrite(s, t, r, buf)
    case Delete(r) => LegalParent(s, t, r.parent)
    case Remount => true
  }

  /** State, tree and reply after one request. */
  ghost function Step(s: State, t: Tree, op: Op): (State, Tree, Reply)
    requires Sound(s, t) && Legal(s, t, op)
  {
    match op
    case Read(r) =>
      SoundWalkable(s, t, r.parent, r.Id());
      var code := ReadCode(s, r);
      (s, t, Reply(code, if code == 0 then ReadData(s, r) else []))
    case ReadDirectory(r) =>
      SoundWalkable(s, t, r.parent, r.DirectoryId());
      var code := ReadDirCode(s, r);
      (s, t, Reply(code, if code == 0 then [ReadDirData(s, r)] else []))
    case Write(r, buf) =>
      var code := WriteCode(s, r);
      if code == 0 then (WriteResult(s, r, buf), WriteTree(s, t, r, buf), Reply(0, []))
      else (s, t, Reply(code, []))
    case Delete(r) =>
      SoundWalkable(s, t, r.parent, r.Id());
      var code := DeleteCode(s, r);
      if code == 0 then
        DeleteRefines(s, t, r);
        (DeleteResult(s, r), DeleteTree(s, t, r), Reply(0, []))
      else (s, t, Reply(code, []))
    case Remount => (Mount(s.disk), t, Reply(0, []))
  }

  // ---------- Each step is allowed ----------

  /** What a successful read delivers is the contents of the node of its name. */
  lemma ReadIsNode(s: State, t: Tree, q: Request)
    requires Sound(s, t) && LegalParent(s, t, q.parent) && ReadCode(s, q) == 0
    ensures Walkable(s, q.parent, q.Id()) && |ReadData(s, q)| * CLUSTER_SIZE <= q.buffer_size
    ensures var key := Key(q.parent, q.Id());
            key in Abs(s, t) && Abs(s, t)[key].File? && ReadData(s, q) == Abs(s, t)[key].clusters
  {
    hide Sound, DecodeDir, Abs, Find, ChainClusters, Chain, Terminated, IsMarked;
    SoundWalkable(s, t, q.parent, q.Id());
    SearchIsLookup(s, t, q.parent, q.Id());
    SearchEnds(s, q.parent, q.Id());
    NodeMeans(s, t, SlotOf(s, Key(q.parent, q.Id())));
  }

  /** ... and of `read_directory` the directory's table, which lists its names. */
  lemma ReadDirectoryIsTable(s: State, t: Tree, q: Request)
    requires Sound(s, t) && LegalParent(s, t, q.parent) && ReadDirCode(s, q) == 0
    ensures Loadable(s, q.parent, q.DirectoryId())
    ensures var key := Key(q.parent, q.DirectoryId());
            key in Abs(s, t) && Shown(s, t).DeliversTable(Abs(s, t)[key], ReadDirData(s, q))
  {
    hide Sound, DecodeDir, Abs, Find, Chain, Terminated, FileSystem.Lists, Tainted, FreeCount;
    SoundWalkable(s, t, q.parent, q.DirectoryId());
    SearchIsLookup(s, t, q.parent, q.DirectoryId());
    SearchEnds(s, q.parent, q.DirectoryId());
    var a := SlotOf(s, Key(q.parent, q.DirectoryId()));
    NodeMeans(s, t, a);
    ChainStart(s.fat, Head(s, a));
    if Head(s, a) in t {
      TableLists(s, t, Head(s, a));
    } else {
      ImpostorTable(s, t, a);
    }
  }

  /** Every legal request, in a sound volume, is answered and carried out as the
      abstract file system says, and leaves the volume sound. */
  lemma StepAllowed(s: State, t: Tree, op: Op)
    requires Sound(s, t) && Legal(s, t, op)
    ensures var x := Step(s, t, op); Sound(x.0, x.1) && Shown(s, t).Allowed(op, x.2, Shown(x.0, x.1))
  {
    hide DecodeDir, Sound, Abs, Tainted, FreeCount, Mount, WriteResult, DeleteResult, WriteTree, DeleteTree, ReadData,
         ReadDirData, WriteCode, DeleteCode, LegalWrite, ReadCode,
         ReadDirCode, ParentOk, Walkable, Bounded, Loadable, FileSystem.Added, FileSystem.Removed,
         FileSystem.DeliversTable, FileSystem.ReadAnswer, FileSystem.ReadDirectoryAnswer,
         FileSystem.WriteAnswer, FileSystem.DeleteAnswer;
    match op
    case Read(r) =>
      CodesAreAnswers(s, t, r);
      if ReadCode(s, r) == 0 { ReadIsNode(s, t, r); }
    case ReadDirectory(r) =>
      CodesAreAnswers(s, t, r);
      if ReadDirCode(s, r) == 0 { ReadDirectoryIsTable(s, t, r); }
    case Write(r, buf) =>
      CodesAreAnswers(s, t, r);
      if WriteCode(s, r) == 0 { WriteAdds(s, t, r, buf); }
    case Delete(r) =>
      CodesAreAnswers(s, t, r);
      if DeleteCode(s, r) == 0 { DeleteRemoves(s, t, r); }
    case Remount =>
      SoundMounted(s, t);
      MountIsTransparent(s);
  }

  /** ... and leaks nothing. */
  lemma StepRefines(s: State, t: Tree, op: Op)
    requires Sound(s, t) && Legal(s, t, op)
    ensures var x := Step(s, t, op); Sound(x.0, x.1) && Shown(s, t).Allowed(op, x.2, Shown(x.0, x.1))
    ensures var x := Step(s, t, op); NoLeak(s, t) ==> NoLeak(x.0, x.1)
  {
    hide DecodeDir, Sound, Shown, NoLeak, Mount, WriteResult, DeleteResult, WriteTree, DeleteTree, ReadData,
         ReadDirData, WriteCode, DeleteCode, LegalWrite, ReadCode,
         ReadDirCode, ParentOk, Walkable, Bounded, Loadable, FileSystem.Allowed;
    StepAllowed(s, t, op);
    match op
    case Write(r, buf) => if WriteCode(s, r) == 0 { WriteRefines(s, t, r, buf); }
    case Delete(r) =>
      SoundWalkable(s, t, r.parent, r.Id());
      if DeleteCode(s, r) == 0 && NoLeak(s, t) {
        DeleteRefines(s, t, r);
        DeleteNoLeak(s, t, r);
      }
    case Remount =>
      SoundMounted(s, t);
      MountIsTransparent(s);
    case _ =>
  }

  // ---------- Whole runs ----------

  ghost predicate LegalRun(s: State, t: Tree, ops: seq<Op>)
    requires Sound(s, t)
    decreases |ops|
  {
    ops == [] ||
    (Legal(s, t, ops[0]) &&
     (StepRefines(s, t, ops[0]);
      var x := Step(s, t, ops[0]);
      LegalRun(x.0, x.1, ops[1..])))
  }

  /** Final state and tree of a run, and its replies. */
  ghost function Exec(s: State, t: Tree, ops: seq<Op>): (State, Tree, seq<Reply>)
    requires Sound(s, t) && LegalRun(s, t, ops)
    decreases |ops|
  {
    if ops == [] then (s, t, [])
    else
      StepRefines(s, t, ops[0]);
      var x := Step(s, t, ops[0]);
      var y := Exec(x.0, x.1, ops[1..]);
      (y.0, y.1, [x.2] + y.2)
  }

  /** Every legal run keeps the volume sound, leaks nothing, and is a run of the
      abstract file system with the same replies. */
  lemma {:induction false} RunRefines(s: State, t: Tree, ops: seq<Op>)
    requires Sound(s, t) && LegalRun(s, t, ops)
    ensures var y := Exec(s, t, ops);
            Sound(y.0, y.1) && (NoLeak(s, t) ==> NoLeak(y.0, y.1)) &&
            Shown(s, t).AllowedRun(ops, y.2, Shown(y.0, y.1))
    decreases |ops|
  {
    hide Sound, Shown, NoLeak, FileSystem.Allowed, Step, Legal;
    if ops != [] {
      StepRefines(s, t, ops[0]);
      var x := Step(s, t, ops[0]);
      RunRefines(x.0, x.1, ops[1..]);
      var y := Exec(x.0, x.1, ops[1..]);
      assert ([x.2] + y.2)[1..] == y.2;
      assert Shown(s, t).Allowed(ops[0], x.2, Shown(x.0, x.1));
    }
  }

  // ---------- From an unformatted disk ----------

  const ROOT_TREE: Tree := map[ROOT_CLUSTER_NUMBER as nat := ROOT_ORIGIN]

  /** The file system with no names. */
  const EMPTY := FileSystem(map[], CAPACITY, {})

  lemma InitialFree()
    ensures FreeCount(InitialFat()) == CAPACITY
  {
    hide InitialFat, Empties;
    FreeCountIsSize(InitialFat());
    InitialFreeSet();
  }

  lemma InitialFreeSet()
    ensures |FreeSet(InitialFat())| == CAPACITY
  {
    hide Range;
    assert FreeSet(InitialFat()) == Range(CLUSTER_MAP_SIZE) - {0, 1, 2};
  }

  lemma RootTableEmpty()
    ensures IsEmptyTable(RootTable()) && RootTable()[0].IsDirectory() && !HasStaleSlot(RootTable())
  {
  }

  /** A freshly formatted volume is consistent and stands for the empty file system. */
  lemma FormatIsConsistent(disk: Disk)
    requires !HasSignature(disk)
    ensures var s := Mount(disk);
            s.fat == InitialFat() && Table(s, ROOT_CLUSTER_NUMBER) == RootTable() &&
            Consistent(s, ROOT_TREE) && Shown(s, ROOT_TREE) == EMPTY
  {
    hide EncodeFat, EncodeDir, DecodeDir, DecodeFat, Apply, RootTable, HasSignature, FormatTrace, EntryOk, Abs,
         FreeCount, HasStaleSlot, IsEmptyTable;
    FormattedDisk(disk);
    FatRoundTrip(InitialFat());
    DirRoundTrip(RootTable());
    RootTableEmpty();
    InitialFree();
    var s := Mount(disk);
    forall a
      ensures !IsLive(s, ROOT_TREE, a)
    {
      if IsLive(s, ROOT_TREE, a) {
        EmptyHasNoSlot(s, ROOT_TREE, ROOT_CLUSTER_NUMBER, a);
      }
    }
    assert DirOk(s, ROOT_TREE, ROOT_CLUSTER_NUMBER);
    forall k
      ensures k !in Abs(s, ROOT_TREE)
    {
      if k in Abs(s, ROOT_TREE) {
        var a := AbsHas(s, ROOT_TREE, k);
      }
    }
  }

  /** Every state reachable by legal requests from a freshly formatted disk is
      consistent, and the run is one of the abstract file system from empty. */
  lemma ReachableIsConsistent(disk: Disk, ops: seq<Op>)
    requires !HasSignature(disk)
    requires Sound(Mount(disk), ROOT_TREE) ==> LegalRun(Mount(disk), ROOT_TREE, ops)
    ensures Sound(Mount(disk), ROOT_TREE)
    ensures var y := Exec(Mount(disk), ROOT_TREE, ops);
            Consistent(y.0, y.1) && EMPTY.AllowedRun(ops, y.2, Shown(y.0, y.1))
  {
    hide Sound, NoLeak, Shown, FileSystem.AllowedRun, Mount, HasSignature, Exec, LegalRun;
    FormatIsConsistent(disk);
    RunRefines(Mount(disk), ROOT_TREE, ops);
  }

  // ---------- A remount anywhere in a run ----------

  /** Mounting again before a run changes neither its replies nor its states. */
  lemma RemountThen(s: State, t: Tree, ops: seq<Op>)
    requires Sound(s, t) && LegalRun(s, t, ops)
    ensures LegalRun(s, t, [Remount] + ops)
    ensures var x, y := Exec(s, t, [Remount] + ops), Exec(s, t, ops);
            x.0 == y.0 && x.1 == y.1 && x.2 == [Reply(0, [])] + y.2
  {
    hide Sound, NoLeak, Mount;
    SoundMounted(s, t);
    MountIsTransparent(s);
    assert ([Remount] + ops)[1..] == ops && ([Remount] + ops)[0] == Remount;
  }

  /** ... at any point that a run can reach. */
  lemma RemountIsTransparent(s: State, t: Tree, before: seq<Op>, ops: seq<Op>)
    requires Sound(s, t) && LegalRun(s, t, before)
    requires var m := Exec(s, t, before); Sound(m.0, m.1) ==> LegalRun(m.0, m.1, ops)
    ensures var m := Exec(s, t, before);
            Sound(m.0, m.1) && LegalRun(m.0, m.1, ops) && LegalRun(m.0, m.1, [Remount] + ops) &&
            var x, y := Exec(m.0, m.1, [Remount] + ops), Exec(m.0, m.1, ops);
            x.0 == y.0 && x.1 == y.1 && x.2 == [Reply(0, [])] + y.2
  {
    hide Sound, NoLeak, Shown, Exec, LegalRun, FileSystem.AllowedRun;
    RunRefines(s, t, before);
    var m := Exec(s, t, before);
    RemountThen(m.0, m.1, ops);
  }
}

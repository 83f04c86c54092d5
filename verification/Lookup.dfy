/** What the driver's checks and tables mean in terms of the abstract file system. */
module Lookup {
  import opened Bytes
  import opened Layout
  import opened Fat
  import opened Volume
  import opened Tree
  import opened Entries
  import opened Refinement
  import opened FileSystem

  /** The directories that have a free slot with the directory attribute. */
  ghost function Tainted(s: State, t: Tree): set<nat> {
    set d | d in t && d < CLUSTER_MAP_SIZE && HasStaleSlot(Table(s, d))
  }

  /** The abstract file system a volume stands for. */
  ghost function Shown(s: State, t: Tree): FileSystem
    requires Sound(s, t)
  {
    FileSystem(Abs(s, t), FreeCount(s.fat), Tainted(s, t))
  }

  /** The parent of a request is not a directory look-alike. */
  ghost predicate LegalParent(s: State, t: Tree, p: word) {
    p < CLUSTER_MAP_SIZE && (ParentOk(s, p) ==> p as nat in t)
  }

  // ---------- Parents ----------

  /** The test on the parent cluster accepts exactly the root and the directories
      of the map that are usable. */
  lemma ParentIsUsable(s: State, t: Tree, p: word)
    requires Sound(s, t) && LegalParent(s, t, p)
    ensures ParentOk(s, p) <==> Shown(s, t).Usable(p)
  {
    hide DecodeDir, Abs, EntriesOk, Mounted, NoSharing, UniqueIds, Tainted, FreeCount, Ordered;
    var fs := Shown(s, t);
    if ParentOk(s, p) && p != ROOT_CLUSTER_NUMBER {
      assert DirOk(s, t, p);
      AbsAt(s, t, t[p as nat].slot);
    }
    if k :| k in fs.nodes && fs.nodes[k] == Directory(p, true) {
      var a := AbsHas(s, t, k);
      assert DirOk(s, t, p);
    }
    if p == ROOT_CLUSTER_NUMBER {
      assert DirOk(s, t, p);
    }
  }

  // ---------- Names ----------

  /** The name a search looks for is in the map exactly when it is found, and the
      map gives the node of the entry found. */
  lemma SearchIsLookup(s: State, t: Tree, p: word, id: seq<byte>)
    requires Sound(s, t) && LegalParent(s, t, p) && ParentOk(s, p)
    ensures var a := SlotOf(s, Key(p, id));
            (Key(p, id) in Abs(s, t) <==> a.index < TABLE_SIZE) &&
            (a.index < TABLE_SIZE ==>
              IsLive(s, t, a) && EntryOk(s, t, a) && Abs(s, t)[Key(p, id)] == NodeOf(s, t, Entry(s, a)))
  {
    hide DecodeDir, Sound, Abs, NodeOf, EntryOk, FindFrom;
    SoundWalkable(s, t, p, id);
    var a := SlotOf(s, Key(p, id));
    if a.index < TABLE_SIZE {
      AbsAt(s, t, a);
    } else if Key(p, id) in Abs(s, t) {
      var b := AbsHas(s, t, Key(p, id));
      SearchEnds(s, p, id);
      SearchFails(s, t, b, id);
    }
  }

  lemma SearchEnds(s: State, p: nat, id: seq<byte>)
    requires p < CLUSTER_MAP_SIZE
    ensures SlotOf(s, Key(p, id)).index <= TABLE_SIZE
  {
  }

  // ---------- Nodes ----------

  /** A node takes as many clusters as its entry's chain, and says what the driver
      sees: a readable file exactly when the attribute is not a directory's. */
  lemma NodeMeans(s: State, t: Tree, a: Slot)
    requires Sound(s, t) && IsLive(s, t, a)
    ensures EntryOk(s, t, a)
    ensures var n := NodeOf(s, t, Entry(s, a));
            n.Size() == |Chain(s.fat, Head(s, a))| &&
            (n.File? <==> !Entry(s, a).IsDirectory()) && (n.Directory? <==> Head(s, a) in t)
  {
    hide DecodeDir, Mounted, NoSharing, UniqueIds, Entry, Chain, Terminated, IsMarked;
    SoundEntry(s, t, a);
    if Head(s, a) in t {
      assert DirOk(s, t, Head(s, a));
      OneCluster(s.fat, Head(s, a));
    }
  }

  /** An impostor's first cluster is the one the driver takes for a table. */
  lemma ImpostorTable(s: State, t: Tree, a: Slot)
    requires Sound(s, t) && IsLive(s, t, a) && EntryOk(s, t, a) && NodeOf(s, t, Entry(s, a)).Impostor?
    ensures var clusters := NodeOf(s, t, Entry(s, a)).clusters;
            Head(s, a) < CLUSTER_MAP_SIZE && clusters != [] && clusters[0] == s.disk[Head(s, a)]
  {
    hide DecodeDir, Sound, Terminated;
    assert Chain(s.fat, Head(s, a))[0] == Head(s, a);
    ChainStart(s.fat, Head(s, a));
  }

  /** Nothing is filed under a cluster that is no directory. */
  lemma OutsideTree(s: State, t: Tree, c: nat)
    requires Sound(s, t) && c !in t
    ensures Shown(s, t).FreshDirectory(c)
  {
    hide DecodeDir, EntriesOk, Mounted, NoSharing, UniqueIds, Abs, Entry, DirOk, Tainted, FreeCount, IsMarked;
    forall k | k in Abs(s, t)
      ensures k.dir != c && (Abs(s, t)[k].Directory? ==> Abs(s, t)[k].cluster != c)
    {
      var a := AbsHas(s, t, k);
    }
  }

  // ---------- Tables ----------

  /** A directory's table lists exactly the names filed under it. */
  lemma TableLists(s: State, t: Tree, d: nat)
    requires Sound(s, t) && d in t && d < CLUSTER_MAP_SIZE
    ensures Shown(s, t).Lists(d, s.disk[d])
  {
    hide DecodeDir, Sound, Abs, NodeOf, EntryOk, Tainted, FreeCount;
    forall id | Key(d, id) in Abs(s, t)
      ensures exists i :: 2 <= i < TABLE_SIZE && DecodeDir(s.disk[d])[i].IsLive() && DecodeDir(s.disk[d])[i].Id() == id
    {
      var a := AbsHas(s, t, Key(d, id));
      assert DecodeDir(s.disk[d])[a.index].IsLive();
    }
    forall i | 2 <= i < TABLE_SIZE && DecodeDir(s.disk[d])[i].IsLive()
      ensures Key(d, DecodeDir(s.disk[d])[i].Id()) in Abs(s, t)
    {
      AbsAt(s, t, Slot(d, i));
    }
  }

  /** A directory of the tree has no live slot exactly when nothing is filed under it. */
  lemma EmptyTableMeans(s: State, t: Tree, d: nat)
    requires Sound(s, t) && d in t && d < CLUSTER_MAP_SIZE
    ensures IsEmptyTable(Table(s, d)) <==> Shown(s, t).NothingIn(d)
  {
    hide DecodeDir, Sound, Abs, EntryOk, NodeOf, Tainted, FreeCount;
    if IsEmptyTable(Table(s, d)) {
      forall k | k in Abs(s, t)
        ensures k.dir != d
      {
        var a := AbsHas(s, t, k);
      }
    }
    forall i | 2 <= i < TABLE_SIZE && Table(s, d)[i].IsLive()
      ensures !Shown(s, t).NothingIn(d)
    {
      AbsAt(s, t, Slot(d, i));
    }
  }

  /** What `delete` refuses to remove. */
  lemma OccupiedMeans(s: State, t: Tree, a: Slot)
    requires Sound(s, t) && IsLive(s, t, a) && EntryOk(s, t, a)
    ensures Head(s, a) < CLUSTER_MAP_SIZE
    ensures Shown(s, t).Occupied(NodeOf(s, t, Entry(s, a)))
       <==> Entry(s, a).IsDirectory() && !IsEmptyTable(Table(s, Head(s, a)))
  {
    hide DecodeDir, Sound, Abs, IsEmptyTable, Chain, Terminated, IsMarked, Tainted, FreeCount, Entry;
    NodeMeans(s, t, a);
    ChainStart(s.fat, Head(s, a));
    if Head(s, a) in t {
      EmptyTableMeans(s, t, Head(s, a));
    } else if Entry(s, a).IsDirectory() {
      ImpostorTable(s, t, a);
    }
  }

  // ---------- Full directories ----------

  /** The live slots of a table. */
  ghost function LiveIn(t: DirTable): set<nat> {
    set i | 2 <= i < TABLE_SIZE && t[i].IsLive()
  }

  /** There are 62 of them exactly when there is no other slot. */
  lemma AllLive(t: DirTable)
    ensures |LiveIn(t)| == TABLE_SIZE - 2 <==> forall i :: 2 <= i < TABLE_SIZE ==> t[i].IsLive()
  {
    hide Range;
    var slots := Range(TABLE_SIZE) - {0, 1};
    SameSize(LiveIn(t), slots);
    if LiveIn(t) == slots {
      forall i | 2 <= i < TABLE_SIZE
        ensures t[i].IsLive()
      {
        assert (i as nat) in LiveIn(t);
      }
    }
  }

  lemma SameSize(a: set<nat>, b: set<nat>)
    requires a <= b
    ensures |a| == |b| <==> a == b
  {
    assert b == a + (b - a);
  }

  /** Slots and names of a directory are in one-to-one correspondence. */
  lemma {:induction false} SlotsAreNames(s: State, t: Tree, slots: set<nat>, names: set<Key>, d: nat)
    requires UniqueIds(s, t)
    requires forall i :: i in slots ==> IsLive(s, t, Slot(d, i)) && KeyOf(s, Slot(d, i)) in names
    requires forall k :: k in names ==> exists i :: i in slots && InRange(Slot(d, i)) && KeyOf(s, Slot(d, i)) == k
    ensures |slots| == |names|
    decreases |slots|
  {
    hide DecodeDir, Entry;
    if slots == {} {
      assert names == {};
    } else {
      var i :| i in slots;
      var k := KeyOf(s, Slot(d, i));
      forall j | j in slots - {i}
        ensures KeyOf(s, Slot(d, j)) in names - {k}
      {
        assert Slot(d, j) != Slot(d, i);
      }
      SlotsAreNames(s, t, slots - {i}, names - {k}, d);
      assert |slots| == |slots - {i}| + 1 && |names| == |names - {k}| + 1;
    }
  }

  /** A directory has no free slot exactly when it holds 62 names. */
  lemma FullExactly(s: State, t: Tree, d: nat)
    requires Sound(s, t) && d in t && d < CLUSTER_MAP_SIZE
    ensures FreeSlot(Table(s, d)) == TABLE_SIZE <==> |Shown(s, t).NamesIn(d)| == TABLE_SIZE - 2
  {
    hide DecodeDir, Abs, NodeOf, EntryOk, FreeSlotFrom, Mounted, DirsOk, EntriesOk, NoSharing, Tainted,
         FreeCount;
    var slots := LiveIn(Table(s, d));
    AllLive(Table(s, d));
    var names := Shown(s, t).NamesIn(d);
    forall i | i in slots
      ensures IsLive(s, t, Slot(d, i)) && KeyOf(s, Slot(d, i)) in names
    {
      AbsAt(s, t, Slot(d, i));
    }
    forall k | k in names
      ensures exists i :: i in slots && InRange(Slot(d, i)) && KeyOf(s, Slot(d, i)) == k
    {
      var a := AbsHas(s, t, k);
      assert a == Slot(d, a.index) && a.index in slots;
    }
    SlotsAreNames(s, t, slots, names, d);
  }

  // ---------- Return codes ----------

  /** Every return code is the one the map calls for. */
  lemma CodesAreAnswers(s: State, t: Tree, r: Request)
    requires Sound(s, t) && LegalParent(s, t, r.parent)
    ensures Walkable(s, r.parent, r.Id()) && Walkable(s, r.parent, r.DirectoryId())
    ensures var fs := Shown(s, t);
            ReadCode(s, r) == fs.ReadAnswer(r) && ReadDirCode(s, r) == fs.ReadDirectoryAnswer(r) &&
            WriteCode(s, r) == fs.WriteAnswer(r) && DeleteCode(s, r) == fs.DeleteAnswer(r)
  {
    hide DecodeDir, Sound, Shown, Find, FreeSlot, FreeCount, Terminated, FileSystem.Usable, FileSystem.Occupied,
         FileSystem.NamesIn;
    SoundWalkable(s, t, r.parent, r.Id());
    SoundWalkable(s, t, r.parent, r.DirectoryId());
    ParentIsUsable(s, t, r.parent);
    if ParentOk(s, r.parent) {
      ReadCodeIs(s, t, r);
      ReadDirCodeIs(s, t, r);
      WriteCodeIs(s, t, r);
      DeleteCodeIs(s, t, r);
    }
  }

  lemma ReadCodeIs(s: State, t: Tree, r: Request)
    requires Sound(s, t) && LegalParent(s, t, r.parent) && ParentOk(s, r.parent) && Shown(s, t).Usable(r.parent)
    ensures ReadCode(s, r) == Shown(s, t).ReadAnswer(r)
  {
    hide DecodeDir, Sound, Abs, Find, ChainClusters, Terminated, Chain, FileSystem.Usable, IsMarked, Tainted, FreeCount;
    SearchIsLookup(s, t, r.parent, r.Id());
    SearchEnds(s, r.parent, r.Id());
    if SlotOf(s, Key(r.parent, r.Id())).index < TABLE_SIZE {
      NodeMeans(s, t, SlotOf(s, Key(r.parent, r.Id())));
    }
  }

  lemma ReadDirCodeIs(s: State, t: Tree, r: Request)
    requires Sound(s, t) && LegalParent(s, t, r.parent) && ParentOk(s, r.parent) && Shown(s, t).Usable(r.parent)
    ensures ReadDirCode(s, r) == Shown(s, t).ReadDirectoryAnswer(r)
  {
    hide DecodeDir, Sound, Abs, Find, NodeOf, EntryOk, FileSystem.Usable, Tainted, FreeCount;
    SearchIsLookup(s, t, r.parent, r.DirectoryId());
    SearchEnds(s, r.parent, r.DirectoryId());
    if SlotOf(s, Key(r.parent, r.DirectoryId())).index < TABLE_SIZE {
      NodeMeans(s, t, SlotOf(s, Key(r.parent, r.DirectoryId())));
    }
  }

  lemma WriteCodeIs(s: State, t: Tree, r: Request)
    requires Sound(s, t) && LegalParent(s, t, r.parent) && ParentOk(s, r.parent) && Shown(s, t).Usable(r.parent)
    ensures WriteCode(s, r) == Shown(s, t).WriteAnswer(r)
  {
    hide DecodeDir, Sound, Abs, Find, FreeSlot, NodeOf, EntryOk, FileSystem.Usable, FileSystem.NamesIn, Tainted,
         FreeCount;
    SearchIsLookup(s, t, r.parent, r.Id());
    SearchEnds(s, r.parent, r.Id());
    FullExactly(s, t, r.parent);
  }

  lemma DeleteCodeIs(s: State, t: Tree, r: Request)
    requires Sound(s, t) && LegalParent(s, t, r.parent) && ParentOk(s, r.parent) && Shown(s, t).Usable(r.parent)
    requires Loadable(s, r.parent, r.Id())
    ensures DeleteCode(s, r) == Shown(s, t).DeleteAnswer(r)
  {
    hide DecodeDir, Sound, Abs, Find, NodeOf, EntryOk, IsEmptyTable, FileSystem.Usable, FileSystem.Occupied, Tainted,
         FreeCount;
    SearchIsLookup(s, t, r.parent, r.Id());
    SearchEnds(s, r.parent, r.Id());
    if SlotOf(s, Key(r.parent, r.Id())).index < TABLE_SIZE {
      OccupiedMeans(s, t, SlotOf(s, Key(r.parent, r.Id())));
    }
  }
}

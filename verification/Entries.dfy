/** One entry appears in a directory, or disappears from it. */
module Entries {
  import opened Layout
  import opened Fat
  import opened Volume
  import opened Tree

  /** `s` after the directory table of `a` was stored with `e` in slot `a`. */
  ghost function WithEntry(s: State, a: Slot, e: DirEntry): State
    requires InRange(a)
  {
    State(s.disk[a.dir := EncodeDir(Table(s, a.dir)[a.index := e])], s.fat)
  }

  lemma WithEntryTable(s: State, a: Slot, e: DirEntry, d: nat)
    requires InRange(a) && d < DISK_CLUSTERS
    ensures Table(WithEntry(s, a, e), d) == if d == a.dir then Table(s, d)[a.index := e] else Table(s, d)
  {
    hide DecodeDir, EncodeDir;
    DirRoundTrip(Table(s, a.dir)[a.index := e]);
  }

  lemma WithEntrySlot(s: State, a: Slot, e: DirEntry, b: Slot)
    requires InRange(a) && InRange(b)
    ensures Entry(WithEntry(s, a, e), b) == if b == a then e else Entry(s, b)
  {
    hide DecodeDir, EncodeDir, WithEntry;
    WithEntryTable(s, a, e, b.dir);
  }

  /** The first two entries of every table stay. */
  lemma WithEntryMark(s: State, a: Slot, e: DirEntry, d: nat)
    requires InRange(a) && d < CLUSTER_MAP_SIZE
    ensures IsMarked(WithEntry(s, a, e), d) == IsMarked(s, d)
  {
    hide DecodeDir, EncodeDir, WithEntry;
    WithEntryTable(s, a, e, d);
  }

  lemma WithEntryMounted(s: State, t: Tree, a: Slot, e: DirEntry)
    requires Sound(s, t) && InRange(a) && a.dir in t
    ensures Mounted(WithEntry(s, a, e))
  {
    hide DecodeDir, EncodeDir, EntryOk, IsLive, EncodeFat;
    assert DirOk(s, t, a.dir);
  }

  lemma SoundEntry(s: State, t: Tree, a: Slot)
    requires Sound(s, t) && IsLive(s, t, a)
    ensures EntryOk(s, t, a)
  {
  }

  /** A live entry refers to its first cluster. */
  lemma HeadReferenced(s: State, t: Tree, b: Slot)
    requires IsLive(s, t, b) && EntryOk(s, t, b)
    ensures Owns(s, b, Head(s, b)) && Referenced(s, t, Head(s, b))
  {
    assert Owns(s, b, Head(s, b));
  }

  /** The chain of an entry that names no directory runs through none. */
  lemma FileAvoidsDirs(s: State, t: Tree, b: Slot, d: nat)
    requires Sound(s, t) && IsLive(s, t, b) && Head(s, b) !in t && d in t
    ensures !Owns(s, b, d)
  {
    hide DecodeDir, Mounted, UniqueIds;
    assert EntryOk(s, t, b) && DirOk(s, t, d);
    if d != ROOT_CLUSTER_NUMBER {
      SoundEntry(s, t, t[d].slot);
      assert Owns(s, t[d].slot, d);
    }
  }

  /** The other slots keep their nodes. */
  lemma OtherNode(s: State, t: Tree, t': Tree, a: Slot, e: DirEntry, b: Slot)
    requires Sound(s, t) && InRange(a) && a.dir in t && IsLive(s, t, b) && b != a
    requires Head(s, b) in t' <==> Head(s, b) in t
    ensures var s' := WithEntry(s, a, e);
            EntryOk(s, t, b) && Entry(s', b) == Entry(s, b) && NodeOf(s', t', Entry(s', b)) == NodeOf(s, t, Entry(s, b)) &&
            forall c :: Owns(s', b, c) <==> Owns(s, b, c)
  {
    hide DecodeDir, EncodeDir, Chain, Terminated, DirsOk, NoSharing, UniqueIds, Mounted, Entry, IsMarked;
    var s' := WithEntry(s, a, e);
    assert EntryOk(s, t, b);
    WithEntrySlot(s, a, e, b);
    if Head(s, b) in t {
      ChainStart(s.fat, Head(s, b));
      WithEntryMark(s, a, e, Head(s, b));
    } else {
      FileAvoidsDirs(s, t, b, a.dir);
      ChainIsChain(s.fat, Head(s, b));
      assert ChainClusters(s', Head(s, b)) == ChainClusters(s, Head(s, b));
    }
  }

  // ---------- An entry appears ----------

  /** What may be added in slot `a`; `dir` says whether it becomes a directory of
      the tree. */
  ghost predicate CanAdd(s: State, t: Tree, a: Slot, e: DirEntry, dir: bool) {
    Sound(s, t) && InRange(a) && a.dir in t && !Entry(s, a).IsLive() && e.IsLive() &&
    Ordered(s.fat, e.Head()) && |Chain(s.fat, e.Head())| * CLUSTER_SIZE <= e.filesize &&
    (forall c :: c in Chain(s.fat, e.Head()) ==> !Referenced(s, t, c)) &&
    (forall b :: IsLive(s, t, b) && b.dir == a.dir ==> Entry(s, b).Id() != e.Id()) &&
    (dir ==> e.IsDirectory() && s.fat[e.Head()] == END_OF_FILE && IsEmptyTable(Table(s, e.Head())))
  }

  ghost function TreeWith(t: Tree, a: Slot, e: DirEntry, dir: bool): Tree
    requires a.dir in t
  {
    if dir then t[e.Head() as nat := Origin(a, t[a.dir].depth + 1)] else t
  }

  lemma NewHead(s: State, t: Tree, a: Slot, e: DirEntry, dir: bool)
    requires CanAdd(s, t, a, e, dir)
    ensures e.Head() !in t && e.Head() != a.dir && 2 <= e.Head() < CLUSTER_MAP_SIZE && !Referenced(s, t, e.Head())
    ensures ROOT_CLUSTER_NUMBER !in Chain(s.fat, e.Head())
    ensures a.dir !in Chain(s.fat, e.Head())
  {
    hide DecodeDir, EntryOk, DirOk, IsLive, Entry;
    assert e.Head() in Chain(s.fat, e.Head());
    assert !Referenced(s, t, e.Head());
  }

  lemma AddedSlot(s: State, t: Tree, a: Slot, e: DirEntry, dir: bool, b: Slot)
    requires CanAdd(s, t, a, e, dir)
    ensures var s', t' := WithEntry(s, a, e), TreeWith(t, a, e, dir);
            (IsLive(s', t', b) <==> b == a || IsLive(s, t, b)) &&
            (IsLive(s, t, b) ==> b != a && SameSlot(s, t, s', t', b)) &&
            Entry(s', a) == e && EntryOk(s', t', a)
  {
    hide DecodeDir, EncodeDir, Sound, Referenced, Chain, Terminated, NodeOf, WithEntry;
    var s' := WithEntry(s, a, e);
    NewHead(s, t, a, e, dir);
    WithEntryFat(s, a, e);
    WithEntrySlot(s, a, e, a);
    if InRange(b) {
      WithEntrySlot(s, a, e, b);
      if b.dir == e.Head() {
        WithEntryTable(s, a, e, b.dir);
      }
    }
    if IsLive(s, t, b) {
      SoundEntry(s, t, b);
      HeadReferenced(s, t, b);
      OtherNode(s, t, TreeWith(t, a, e, dir), a, e, b);
    }
  }

  lemma WithEntryFat(s: State, a: Slot, e: DirEntry)
    requires InRange(a)
    ensures WithEntry(s, a, e).fat == s.fat
  {
  }

  lemma AddedDir(s: State, t: Tree, a: Slot, e: DirEntry, dir: bool, d: nat)
    requires CanAdd(s, t, a, e, dir) && d in TreeWith(t, a, e, dir)
    ensures DirOk(WithEntry(s, a, e), TreeWith(t, a, e, dir), d)
  {
    hide DecodeDir, EncodeDir, EntriesOk, NoSharing, UniqueIds, Mounted, Referenced, Chain, Terminated, NodeOf,
         WithEntry, Entry;
    NewHead(s, t, a, e, dir);
    WithEntryFat(s, a, e);
    if d in t {
      assert DirOk(s, t, d);
      WithEntryMark(s, a, e, d);
      AddedSlot(s, t, a, e, dir, t[d].slot);
    } else {
      AddedSlot(s, t, a, e, dir, a);
    }
  }

  /** No old entry owns a cluster of the new chain. */
  lemma AddedApart(s: State, t: Tree, a: Slot, e: DirEntry, dir: bool, b: Slot, c: nat)
    requires CanAdd(s, t, a, e, dir) && IsLive(s, t, b) && Owns(WithEntry(s, a, e), b, c)
    ensures !Owns(WithEntry(s, a, e), a, c) && Owns(s, b, c)
  {
    hide DecodeDir, EncodeDir, Sound, EntryOk, Chain, Terminated, NodeOf, WithEntry, Entry;
    AddedSlot(s, t, a, e, dir, b);
    WithEntryFat(s, a, e);
    assert Referenced(s, t, c);
  }

  lemma AddedSharing(s: State, t: Tree, a: Slot, e: DirEntry, dir: bool)
    requires CanAdd(s, t, a, e, dir)
    ensures NoSharing(WithEntry(s, a, e), TreeWith(t, a, e, dir))
  {
    var s', t' := WithEntry(s, a, e), TreeWith(t, a, e, dir);
    hide DecodeDir, EncodeDir, Mounted, EntriesOk, DirsOk, UniqueIds, EntryOk, Owns, NodeOf, WithEntry, TreeWith,
         Entry, Referenced, IsLive, SameSlot, Terminated, Chain;
    forall b, d, c | IsLive(s', t', b) && IsLive(s', t', d) && Owns(s', b, c) && Owns(s', d, c)
      ensures b == d
    {
      AddedSlot(s, t, a, e, dir, b);
      AddedSlot(s, t, a, e, dir, d);
      if b != a { AddedApart(s, t, a, e, dir, b, c); }
      if d != a { AddedApart(s, t, a, e, dir, d, c); }
    }
  }

  lemma AddedIds(s: State, t: Tree, a: Slot, e: DirEntry, dir: bool)
    requires CanAdd(s, t, a, e, dir)
    ensures UniqueIds(WithEntry(s, a, e), TreeWith(t, a, e, dir))
  {
    var s', t' := WithEntry(s, a, e), TreeWith(t, a, e, dir);
    hide DecodeDir, EncodeDir, Mounted, EntriesOk, DirsOk, NoSharing, EntryOk, Chain, Terminated, NodeOf, WithEntry,
         TreeWith, Entry;
    forall b, d | IsLive(s', t', b) && IsLive(s', t', d) && b.dir == d.dir && Entry(s', b).Id() == Entry(s', d).Id()
      ensures b == d
    {
      AddedSlot(s, t, a, e, dir, b);
      AddedSlot(s, t, a, e, dir, d);
    }
  }

  lemma AddedSound(s: State, t: Tree, a: Slot, e: DirEntry, dir: bool)
    requires CanAdd(s, t, a, e, dir)
    ensures Sound(WithEntry(s, a, e), TreeWith(t, a, e, dir))
  {
    var s', t' := WithEntry(s, a, e), TreeWith(t, a, e, dir);
    hide DecodeDir, EncodeDir, Mounted, NoSharing, UniqueIds, EntryOk, DirOk, Chain, Terminated, NodeOf, WithEntry,
         Entry, Referenced, IsMarked, IsEmptyTable, IsLive;
    WithEntryMounted(s, t, a, e);
    AddedSharing(s, t, a, e, dir);
    AddedIds(s, t, a, e, dir);
    NewHead(s, t, a, e, dir);
    forall d | d in t'
      ensures DirOk(s', t', d)
    {
      AddedDir(s, t, a, e, dir, d);
    }
    forall b | IsLive(s', t', b)
      ensures EntryOk(s', t', b)
    {
      AddedSlot(s, t, a, e, dir, b);
    }
    RootKept(t, a, e, dir);
  }

  lemma RootKept(t: Tree, a: Slot, e: DirEntry, dir: bool)
    requires a.dir in t && e.Head() !in t
    ensures forall d :: d in t ==> d in TreeWith(t, a, e, dir) && TreeWith(t, a, e, dir)[d] == t[d]
  {
  }

  /** A name of the old map keeps its node. */
  lemma AddedOldName(s: State, t: Tree, a: Slot, e: DirEntry, dir: bool, k: Key)
    requires CanAdd(s, t, a, e, dir) && Sound(WithEntry(s, a, e), TreeWith(t, a, e, dir)) && k in Abs(s, t)
    ensures var s', t' := WithEntry(s, a, e), TreeWith(t, a, e, dir);
            k != Key(a.dir, e.Id()) && k in Abs(s', t') && Abs(s', t')[k] == Abs(s, t)[k]
  {
    hide DecodeDir, EncodeDir, Sound, EntryOk, Chain, Terminated, NodeOf, WithEntry, TreeWith, Entry, Referenced, Abs,
         Owns;
    var b := AbsHas(s, t, k);
    AddedSlot(s, t, a, e, dir, b);
    AbsAt(WithEntry(s, a, e), TreeWith(t, a, e, dir), b);
  }

  /** A name of the new map is the new entry's, or an old one. */
  lemma AddedNewName(s: State, t: Tree, a: Slot, e: DirEntry, dir: bool, k: Key)
    requires CanAdd(s, t, a, e, dir) && Sound(WithEntry(s, a, e), TreeWith(t, a, e, dir))
    requires k in Abs(WithEntry(s, a, e), TreeWith(t, a, e, dir)) && k != Key(a.dir, e.Id())
    ensures k in Abs(s, t)
  {
    hide DecodeDir, EncodeDir, Sound, EntryOk, Chain, Terminated, NodeOf, WithEntry, TreeWith, Entry, Referenced, Abs,
         Owns;
    var b := AbsHas(WithEntry(s, a, e), TreeWith(t, a, e, dir), k);
    AddedSlot(s, t, a, e, dir, b);
    AbsAt(s, t, b);
  }

  lemma AddedName(s: State, t: Tree, a: Slot, e: DirEntry, dir: bool)
    requires CanAdd(s, t, a, e, dir) && Sound(WithEntry(s, a, e), TreeWith(t, a, e, dir))
    ensures var s', t' := WithEntry(s, a, e), TreeWith(t, a, e, dir);
            var key := Key(a.dir, e.Id());
            Ordered(s'.fat, e.Head()) && key in Abs(s', t') && Abs(s', t')[key] == NodeOf(s', t', e)
  {
    hide DecodeDir, EncodeDir, Sound, Chain, Terminated, NodeOf, WithEntry, TreeWith, Entry, Referenced, Abs, Owns;
    AddedSlot(s, t, a, e, dir, a);
    AbsAt(WithEntry(s, a, e), TreeWith(t, a, e, dir), a);
  }

  /** Adding an entry for clusters that nothing refers to adds exactly its name. */
  lemma AddEntry(s: State, t: Tree, a: Slot, e: DirEntry, dir: bool)
    requires CanAdd(s, t, a, e, dir)
    ensures var s', t' := WithEntry(s, a, e), TreeWith(t, a, e, dir);
            Sound(s', t') && s'.fat == s.fat && Key(a.dir, e.Id()) !in Abs(s, t) &&
            Abs(s', t') == Abs(s, t)[Key(a.dir, e.Id()) := NodeOf(s', t', e)]
  {
    hide WithEntry, TreeWith, Abs, Sound, CanAdd, NodeOf, Terminated;
    AddedSound(s, t, a, e, dir);
    CanAddSound(s, t, a, e, dir);
    AddedName(s, t, a, e, dir);
    WithEntryFat(s, a, e);
    var s', t' := WithEntry(s, a, e), TreeWith(t, a, e, dir);
    forall k | k in Abs(s, t)
      ensures k != Key(a.dir, e.Id()) && k in Abs(s', t') && Abs(s', t')[k] == Abs(s, t)[k]
    {
      AddedOldName(s, t, a, e, dir, k);
    }
    forall k | k in Abs(s', t') && k != Key(a.dir, e.Id())
      ensures k in Abs(s, t)
    {
      AddedNewName(s, t, a, e, dir, k);
    }
  }

  lemma CanAddSound(s: State, t: Tree, a: Slot, e: DirEntry, dir: bool)
    requires CanAdd(s, t, a, e, dir)
    ensures Sound(s, t) && InRange(a) && a.dir in t && Ordered(s.fat, e.Head())
  {
  }

  /** What is referred to grows by exactly the new chain. */
  lemma AddedReferenced(s: State, t: Tree, a: Slot, e: DirEntry, dir: bool, c: nat)
    requires CanAdd(s, t, a, e, dir)
    ensures Referenced(WithEntry(s, a, e), TreeWith(t, a, e, dir), c) <==> Referenced(s, t, c) || c in Chain(s.fat, e.Head())
  {
    var s', t' := WithEntry(s, a, e), TreeWith(t, a, e, dir);
    hide DecodeDir, EncodeDir, Sound, EntryOk, Chain, Terminated, NodeOf, WithEntry, Entry;
    NewHead(s, t, a, e, dir);
    WithEntryFat(s, a, e);
    AddedSlot(s, t, a, e, dir, a);
    assert Owns(s', a, c) <==> c in Chain(s.fat, e.Head());
    if c in t' && c !in t {
      assert c == e.Head();
    } else if c !in t' {
      if b :| IsLive(s', t', b) && Owns(s', b, c) {
        AddedSlot(s, t, a, e, dir, b);
      }
      if b :| IsLive(s, t, b) && Owns(s, b, c) {
        AddedSlot(s, t, a, e, dir, b);
      }
    }
  }

  // ---------- An entry disappears ----------

  ghost predicate CanRemove(s: State, t: Tree, a: Slot) {
    Sound(s, t) && IsLive(s, t, a) && EntryOk(s, t, a) &&
    (Head(s, a) in t ==> IsEmptyTable(Table(s, Head(s, a))))
  }

  ghost function Dead(s: State, a: Slot): DirEntry
    requires InRange(a)
  {
    Entry(s, a).(user_attribute := 0)
  }

  ghost function TreeWithout(s: State, t: Tree, a: Slot): Tree
    requires InRange(a)
  {
    if Head(s, a) in t then t - {Head(s, a)} else t
  }

  /** A directory is named by one slot only. */
  lemma NamedOnce(s: State, t: Tree, a: Slot, d: nat)
    requires Sound(s, t) && IsLive(s, t, a) && d in t && d != ROOT_CLUSTER_NUMBER && t[d].slot != a
    ensures Head(s, a) != d && !Owns(s, a, d)
  {
    hide DecodeDir, Mounted, UniqueIds, Entry;
    assert EntryOk(s, t, a) && DirOk(s, t, d);
    SoundEntry(s, t, t[d].slot);
    assert Owns(s, t[d].slot, d) && Owns(s, a, Head(s, a));
  }

  lemma RemovedSlot(s: State, t: Tree, a: Slot, b: Slot)
    requires CanRemove(s, t, a)
    ensures var s', t' := WithEntry(s, a, Dead(s, a)), TreeWithout(s, t, a);
            (IsLive(s', t', b) <==> b != a && IsLive(s, t, b)) &&
            (IsLive(s', t', b) ==> SameSlot(s, t, s', t', b))
  {
    hide DecodeDir, EncodeDir, Sound, Chain, Terminated, NodeOf, WithEntry, Entry;
    WithEntryFat(s, a, Dead(s, a));
    if InRange(b) {
      WithEntrySlot(s, a, Dead(s, a), b);
      if IsLive(s, t, b) && b != a {
        CanRemoveSound(s, t, a);
        SoundEntry(s, t, b);
        RemovedKeepsDir(s, t, a, b);
        OtherNode(s, t, TreeWithout(s, t, a), a, Dead(s, a), b);
      }
    }
  }

  lemma EmptyHasNoSlot(s: State, t: Tree, d: nat, b: Slot)
    requires d < DISK_CLUSTERS && IsEmptyTable(Table(s, d)) && IsLive(s, t, b)
    ensures b.dir != d
  {
    hide DecodeDir;
  }

  /** Neither the directory of another live slot nor the one it names goes away. */
  lemma RemovedKeepsDir(s: State, t: Tree, a: Slot, b: Slot)
    requires CanRemove(s, t, a) && IsLive(s, t, b) && b != a && EntryOk(s, t, b)
    ensures var t' := TreeWithout(s, t, a);
            b.dir in t' && t'[b.dir] == t[b.dir] &&
            (Head(s, b) in t ==> Head(s, b) in t' && t'[Head(s, b)] == t[Head(s, b)])
  {
    hide DecodeDir, Sound, Chain, IsEmptyTable;
    if Head(s, a) in t {
      EmptyHasNoSlot(s, t, Head(s, a), b);
    }
  }

  lemma RemovedDir(s: State, t: Tree, a: Slot, d: nat)
    requires CanRemove(s, t, a) && d in TreeWithout(s, t, a)
    ensures DirOk(WithEntry(s, a, Dead(s, a)), TreeWithout(s, t, a), d)
  {
    hide DecodeDir, EncodeDir, EntriesOk, NoSharing, UniqueIds, Mounted, Chain, Terminated, NodeOf, WithEntry, Entry;
    assert DirOk(s, t, d);
    WithEntryFat(s, a, Dead(s, a));
    WithEntryMark(s, a, Dead(s, a), d);
    if d != ROOT_CLUSTER_NUMBER {
      var o := t[d].slot;
      RemovedSlot(s, t, a, o);
      if o != a {
        SoundEntry(s, t, o);
        RemovedKeepsDir(s, t, a, o);
      }
    }
  }

  lemma RemovedSharing(s: State, t: Tree, a: Slot)
    requires CanRemove(s, t, a)
    ensures NoSharing(WithEntry(s, a, Dead(s, a)), TreeWithout(s, t, a))
    ensures UniqueIds(WithEntry(s, a, Dead(s, a)), TreeWithout(s, t, a))
  {
    var s', t' := WithEntry(s, a, Dead(s, a)), TreeWithout(s, t, a);
    hide DecodeDir, EncodeDir, Mounted, EntryOk, DirsOk, EntriesOk, Chain, Terminated, NodeOf, WithEntry, Entry,
         TreeWithout;
    forall b
      ensures IsLive(s', t', b) ==> SameSlot(s, t, s', t', b)
    {
      RemovedSlot(s, t, a, b);
    }
  }

  lemma RootRemains(s: State, t: Tree, a: Slot)
    requires CanRemove(s, t, a)
    ensures a.dir in t && ROOT_CLUSTER_NUMBER in TreeWithout(s, t, a)
    ensures forall d :: d in TreeWithout(s, t, a) ==> d in t && TreeWithout(s, t, a)[d] == t[d]
  {
    assert Head(s, a) in Chain(s.fat, Head(s, a));
  }

  lemma RemovedSound(s: State, t: Tree, a: Slot)
    requires CanRemove(s, t, a)
    ensures Sound(WithEntry(s, a, Dead(s, a)), TreeWithout(s, t, a))
  {
    var s', t' := WithEntry(s, a, Dead(s, a)), TreeWithout(s, t, a);
    hide DecodeDir, EncodeDir, Mounted, DirOk, EntryOk, NoSharing, UniqueIds, Chain, Terminated, NodeOf, WithEntry,
         Dead, IsMarked, IsEmptyTable, IsLive;
    RootRemains(s, t, a);
    WithEntryMounted(s, t, a, Dead(s, a));
    RemovedSharing(s, t, a);
    forall b | IsLive(s', t', b)
      ensures EntryOk(s', t', b)
    {
      RemovedSlot(s, t, a, b);
    }
    forall d | d in t'
      ensures DirOk(s', t', d)
    {
      RemovedDir(s, t, a, d);
    }
  }

  lemma RemovedOldName(s: State, t: Tree, a: Slot, k: Key)
    requires CanRemove(s, t, a) && Sound(WithEntry(s, a, Dead(s, a)), TreeWithout(s, t, a))
    requires k in Abs(s, t) && k != KeyOf(s, a)
    ensures var s', t' := WithEntry(s, a, Dead(s, a)), TreeWithout(s, t, a);
            k in Abs(s', t') && Abs(s', t')[k] == Abs(s, t)[k]
  {
    hide DecodeDir, EncodeDir, Sound, EntryOk, Chain, Terminated, NodeOf, WithEntry, TreeWithout, Entry, Abs, Owns;
    var b := AbsHas(s, t, k);
    RemovedSlot(s, t, a, b);
    AbsAt(WithEntry(s, a, Dead(s, a)), TreeWithout(s, t, a), b);
  }

  lemma RemovedNewName(s: State, t: Tree, a: Slot, k: Key)
    requires CanRemove(s, t, a) && Sound(WithEntry(s, a, Dead(s, a)), TreeWithout(s, t, a))
    requires k in Abs(WithEntry(s, a, Dead(s, a)), TreeWithout(s, t, a))
    ensures k in Abs(s, t) && k != KeyOf(s, a)
  {
    var s', t' := WithEntry(s, a, Dead(s, a)), TreeWithout(s, t, a);
    hide DecodeDir, EncodeDir, Mounted, DirsOk, EntriesOk, NoSharing, EntryOk, Chain, Terminated, NodeOf, WithEntry,
         TreeWithout, Entry, Abs, Owns;
    var b := AbsHas(s', t', k);
    RemovedSlot(s, t, a, b);
    AbsAt(s, t, b);
  }

  /** Removing an entry removes exactly its name. */
  lemma RemoveEntry(s: State, t: Tree, a: Slot)
    requires CanRemove(s, t, a)
    ensures var s', t' := WithEntry(s, a, Dead(s, a)), TreeWithout(s, t, a);
            Sound(s', t') && s'.fat == s.fat && KeyOf(s, a) in Abs(s, t) &&
            Abs(s', t') == Abs(s, t) - {KeyOf(s, a)}
  {
    CanRemoveSound(s, t, a);
    RemovedSound(s, t, a);
    AbsAt(s, t, a);
    WithEntryFat(s, a, Dead(s, a));
    hide *;
    var s', t' := WithEntry(s, a, Dead(s, a)), TreeWithout(s, t, a);
    forall k | k in Abs(s, t) && k != KeyOf(s, a)
      ensures k in Abs(s', t') && Abs(s', t')[k] == Abs(s, t)[k]
    {
      RemovedOldName(s, t, a, k);
    }
    forall k | k in Abs(s', t')
      ensures k in Abs(s, t) && k != KeyOf(s, a)
    {
      RemovedNewName(s, t, a, k);
    }
  }

  lemma CanRemoveSound(s: State, t: Tree, a: Slot)
    requires CanRemove(s, t, a)
    ensures Sound(s, t) && IsLive(s, t, a)
  {
  }

  /** A cluster of the removed entry's chain is referred to no more. */
  lemma RemovedDropsChain(s: State, t: Tree, a: Slot, c: nat)
    requires CanRemove(s, t, a) && Owns(s, a, c)
    ensures !Referenced(WithEntry(s, a, Dead(s, a)), TreeWithout(s, t, a), c)
  {
    var s', t' := WithEntry(s, a, Dead(s, a)), TreeWithout(s, t, a);
    hide DecodeDir, EncodeDir, Mounted, UniqueIds, NodeOf, WithEntry, Entry, Chain, Terminated;
    if c in t' {
      assert c != ROOT_CLUSTER_NUMBER;
      assert DirOk(s, t, c);
      if t[c].slot != a {
        NamedOnce(s, t, a, c);
      }
    }
    forall b | IsLive(s', t', b)
      ensures !Owns(s', b, c)
    {
      RemovedSlot(s, t, a, b);
    }
  }

  /** Every other cluster is referred to as before. */
  lemma RemovedKeepsRest(s: State, t: Tree, a: Slot, c: nat)
    requires CanRemove(s, t, a) && !Owns(s, a, c)
    ensures Referenced(WithEntry(s, a, Dead(s, a)), TreeWithout(s, t, a), c) <==> Referenced(s, t, c)
  {
    var s', t' := WithEntry(s, a, Dead(s, a)), TreeWithout(s, t, a);
    hide DecodeDir, EncodeDir, Mounted, Sound, NodeOf, WithEntry, Entry, Terminated;
    assert Owns(s, a, Head(s, a));
    forall b
      ensures IsLive(s', t', b) <==> b != a && IsLive(s, t, b)
      ensures IsLive(s', t', b) ==> SameSlot(s, t, s', t', b)
    {
      RemovedSlot(s, t, a, b);
    }
  }
}

/** What happens outside the hypotheses: a new directory whose table is not empty,
    and a write through a cluster that only looks like a directory. */
module Boundaries {
  import opened Bytes
  import opened Layout
  import opened Fat
  import opened Volume
  import opened Tree
  import opened Frames
  import opened Entries
  import opened Refinement
  import opened Lookup
  import opened Effects
  import opened Structure
  import opened Crash

  // ---------- A new directory's table ----------

  /** `t'` makes the volume sound and counts `d` as a directory, as well as all
      those of `t`. */
  ghost predicate Extends(s: State, t: Tree, t': Tree, d: nat) {
    Sound(s, t') && d in t' && forall c :: c in t ==> c in t'
  }

  lemma ExtendedLive(s: State, t: Tree, t': Tree, d: nat, a: Slot)
    requires Extends(s, t, t', d) && IsLive(s, t, a)
    ensures IsLive(s, t', a)
  {
  }

  /** A live entry in a new directory's table would need a chain of its own, but
      every used cluster belongs to an older entry. */
  lemma TableEntryUnsound(s: State, t: Tree, d: nat, t': Tree, b: Slot)
    requires Consistent(s, t) && d !in t && d < CLUSTER_MAP_SIZE
    requires Extends(s, t, t', d) && b.dir == d && InRange(b)
    ensures !Entry(s, b).IsLive()
  {
    hide DecodeDir, Mounted, UniqueIds, Entry, Ordered, DirOk;
    if Entry(s, b).IsLive() {
      SoundEntry(s, t', b);
      HeadReferenced(s, t', b);
      ReferencedUsed(s, t', Head(s, b));
      UsedIsOwned(s, t, Head(s, b));
      if a :| IsLive(s, t, a) && Owns(s, a, Head(s, b)) {
        ExtendedLive(s, t, t', d, a);
      }
    }
  }

  /** A request for a directory makes one, as far as any tree can tell, exactly when
      the caller's table has no live entry. */
  lemma DirectoryExactly(s: State, t: Tree, r: Request, buf: seq<byte>)
    requires Consistent(s, t) && LegalWrite(s, t, r, buf) && WriteCode(s, r) == 0 && r.buffer_size == 0
    ensures (exists t' :: Extends(WriteResult(s, r, buf), t, t', WriteChain(s, r)[0])) <==> MakesDirectory(r, buf)
  {
    hide DecodeDir, Sound, NoLeak, Abs, WriteResult, ParentOk, Find, FreeSlot, Empties, StoreEntry, StoreSlot, Chunk,
         IsEmptyTable, Extends, Stored;
    var s', t1, d := WriteResult(s, r, buf), WriteTree(s, t, r, buf), WriteChain(s, r)[0];
    WriteRefines(s, t, r, buf);
    WriteCanStore(s, t, r, buf);
    StoredTables(s, t, r, buf, WriteChain(s, r), Schedule(WriteChain(s, r), r.Chunks()), d);
    if MakesDirectory(r, buf) {
      assert Extends(s', t, t1, d) by { WriteTreeExtends(s, t, r, buf); }
    } else if t' :| Extends(s', t, t', d) {
      TableIsEmpty(s', t1, d, t');
    }
  }

  lemma TableIsEmpty(s: State, t: Tree, d: nat, t': Tree)
    requires Consistent(s, t) && d !in t && d < CLUSTER_MAP_SIZE && Extends(s, t, t', d)
    ensures IsEmptyTable(Table(s, d))
  {
    hide DecodeDir, Consistent, Extends;
    forall i | 2 <= i < TABLE_SIZE
      ensures !Table(s, d)[i].IsLive()
    {
      TableEntryUnsound(s, t, d, t', Slot(d, i));
    }
  }

  lemma WriteTreeExtends(s: State, t: Tree, r: Request, buf: seq<byte>)
    requires r.parent < CLUSTER_MAP_SIZE && WriteCode(s, r) == 0 && r.parent as nat in t
    requires CLUSTER_SIZE * r.Chunks() <= |buf|
    requires Sound(WriteResult(s, r, buf), WriteTree(s, t, r, buf)) && MakesDirectory(r, buf)
    ensures Extends(WriteResult(s, r, buf), t, WriteTree(s, t, r, buf), WriteChain(s, r)[0])
  {
    hide Sound, DecodeDir, Find, FreeSlot, Empties, ParentOk, IsEmptyTable, Chunk, WriteResult;
    StoreEntryFields(s, r, WriteChain(s, r));
  }

  // ---------- A parent that only looks like a directory ----------

  /** `s'` has the allocation table and the directory tables of `s`. */
  ghost predicate SameTables(s: State, s': State, t: Tree) {
    s'.fat == s.fat && forall d :: d in t && d < CLUSTER_MAP_SIZE ==> s'.disk[d] == s.disk[d]
  }

  lemma SlotIgnoresData(s: State, s': State, t: Tree, a: Slot)
    requires SameTables(s, s', t)
    ensures IsLive(s', t, a) <==> IsLive(s, t, a)
    ensures IsLive(s, t, a) ==>
      Entry(s', a) == Entry(s, a) && (EntryOk(s, t, a) ==> EntryOk(s', t, a)) && forall c :: Owns(s', a, c) <==> Owns(s, a, c)
  {
    hide DecodeDir, Chain, Terminated;
  }

  /** Soundness is about the directories' tables and the allocation table; what
      other clusters hold does not matter to it. */
  lemma SoundIgnoresData(s: State, s': State, t: Tree)
    requires Sound(s, t) && Mounted(s') && SameTables(s, s', t)
    ensures Sound(s', t)
    ensures forall a :: IsLive(s', t, a) <==> IsLive(s, t, a)
    ensures forall c :: Referenced(s', t, c) <==> Referenced(s, t, c)
  {
    hide DecodeDir, Mounted, EntryOk, Entry, Owns;
    forall a
      ensures IsLive(s', t, a) <==> IsLive(s, t, a)
      ensures IsLive(s, t, a) ==>
        Entry(s', a) == Entry(s, a) && EntryOk(s', t, a) && forall c :: Owns(s', a, c) <==> Owns(s, a, c)
    {
      SlotIgnoresData(s, s', t, a);
      if IsLive(s, t, a) {
        SoundEntry(s, t, a);
      }
    }
    forall d | d in t
      ensures DirOk(s', t, d)
    {
      assert DirOk(s, t, d);
    }
  }

  /** A parent that passes the test without being a directory is the last cluster of
      a file or an impostor. */
  lemma LookAlikeOwner(s: State, t: Tree, p: word) returns (a: Slot)
    requires Consistent(s, t) && p < CLUSTER_MAP_SIZE && p as nat !in t && ParentOk(s, p)
    ensures IsLive(s, t, a) && EntryOk(s, t, a) && Head(s, a) !in t
    ensures var c := Chain(s.fat, Head(s, a)); c[|c| - 1] == p as nat
  {
    hide DecodeDir, Consistent, Chain, Terminated, Entry;
    ParentTestExact(s, t, p);
    a :| IsLive(s, t, a) && Head(s, a) !in t && Owns(s, a, p);
    assert EntryOk(s, t, a) by { ConsistentEntry(s, t, a); }
    var k := OwnedAt(s, a, p);
    ChainNext(s.fat, Chain(s.fat, Head(s, a)), k);
  }

  lemma ConsistentEntry(s: State, t: Tree, a: Slot)
    requires Consistent(s, t) && IsLive(s, t, a)
    ensures EntryOk(s, t, a)
  {
    SoundEntry(s, t, a);
  }

  // ---------- write through it ----------

  /** Data and allocation table of a write, and then the table in a cluster that is
      no directory. */
  lemma LookAlikeStored(s: State, t: Tree, r: Request, buf: seq<byte>)
    requires Sound(s, t) && r.parent < CLUSTER_MAP_SIZE && r.parent as nat !in t && WriteCode(s, r) == 0
    requires CLUSTER_SIZE * r.Chunks() <= |buf|
    ensures var chain := WriteChain(s, r);
            var schedule := Schedule(chain, r.Chunks());
            Fits(s.fat, buf, chain, schedule) &&
            var s2, s' := Staged(s, buf, chain, schedule), WriteResult(s, r, buf);
            s' == State(s2.disk[r.parent := EncodeDir(NewTable(Table(s, r.parent), r, chain[0]))], s2.fat)
  {
    hide Sound, DecodeDir, EncodeDir, EncodeFat, Link, DataPuts, Apply, NewEntry, Find, FreeSlotFrom, Empties;
    var chain := WriteChain(s, r);
    var data := DataPuts(Schedule(chain, r.Chunks()), buf);
    var back := BackPuts(Link(s.fat, chain), r.parent, NewTable(Table(s, r.parent), r, chain[0]));
    ApplyAppend(s.disk, data, back);
    ApplyTwo(Apply(s.disk, data), back[0], back[1]);
  }

  /** A write whose parent passes the test without being a directory of the tree
      succeeds. The volume stays sound, but nothing of the tree refers to the new
      clusters: all of them leak, and the name is not in the map. */
  lemma LookAlikeWriteLeaks(s: State, t: Tree, r: Request, buf: seq<byte>)
    requires Sound(s, t) && r.parent < CLUSTER_MAP_SIZE && r.parent as nat !in t && WriteCode(s, r) == 0
    requires CLUSTER_SIZE * r.Chunks() <= |buf|
    ensures var s' := WriteResult(s, r, buf);
            Sound(s', t) && Key(r.parent, r.Id()) !in Abs(s', t) &&
            (forall c :: c in WriteChain(s, r) ==> Leaked(s', t, c)) &&
            forall a :: IsLive(s', t, a) <==> IsLive(s, t, a)
  {
    hide DecodeDir, EncodeDir, NewTable, Sound, Abs, WriteResult, Staged, Link, Find, FreeSlot, Empties, Referenced,
         SameReferenced, Schedule, IsLive, WriteChain;
    var chain := WriteChain(s, r);
    var schedule := Schedule(chain, r.Chunks());
    LookAlikeStored(s, t, r, buf);
    var s2, s' := Staged(s, buf, chain, schedule), WriteResult(s, r, buf);
    StagedSound(s, t, buf, chain, schedule);
    NewFat(s.fat, chain);
    DataStored(s2, t, r.parent, s'.disk[r.parent]);
    SoundIgnoresData(s2, s', t);
    SameLive(s, s2, t);
    OutsideTree(s', t, r.parent);
  }

  lemma DataStored(s: State, t: Tree, p: ClusterIndex, c: Cluster)
    requires Sound(s, t) && p >= 2 && p !in t
    ensures var s' := State(s.disk[p := c], s.fat); Mounted(s') && SameTables(s, s', t)
  {
    hide EncodeFat, FsSignature, DirsOk, EntriesOk, NoSharing, UniqueIds;
  }

  lemma SameLive(s: State, s': State, t: Tree)
    requires Sound(s, t) && SameReferenced(s, s', t)
    ensures forall a :: IsLive(s', t, a) <==> IsLive(s, t, a)
  {
    hide Sound, SameReferenced, DecodeDir;
    forall a
      ensures IsLive(s', t, a) <==> IsLive(s, t, a)
    {
      SlotFrame(s, s', t, a);
    }
  }

  /** `n` with its last cluster replaced. */
  function WithLast(n: Node, c: Cluster): Node
    requires !n.Directory? && n.clusters != []
  {
    n.(clusters := n.clusters[|n.clusters| - 1 := c])
  }

  /** Only the file whose last cluster is `p` sees a change of `p`. */
  lemma NodeAfter(s: State, s': State, t: Tree, a: Slot, p: nat, b: Slot)
    requires Sound(s, t) && Sound(s', t) && SameTables(s, s', t) && p < DISK_CLUSTERS
    requires forall c :: 0 <= c < DISK_CLUSTERS && c != p ==> s'.disk[c] == s.disk[c]
    requires IsLive(s, t, a) && EntryOk(s, t, a) && Head(s, a) !in t
    requires var c := Chain(s.fat, Head(s, a)); c[|c| - 1] == p
    requires IsLive(s, t, b)
    ensures EntryOk(s, t, b) && IsLive(s', t, b) && EntryOk(s', t, b) && Entry(s', b) == Entry(s, b)
    ensures var n, n' := NodeOf(s, t, Entry(s, b)), NodeOf(s', t, Entry(s', b));
            if b == a then
              !n.Directory? && n.clusters != [] && n.clusters[|n.clusters| - 1] == s.disk[p] && n' == WithLast(n, s'.disk[p])
            else n' == n
  {
    hide DecodeDir, Mounted, UniqueIds, DirsOk, EntriesOk, Chain, Terminated, Entry;
    SlotIgnoresData(s, s', t, b);
    SoundEntry(s, t, b);
    var h := Head(s, b);
    var chain := Chain(s.fat, h);
    if h in t {
      ChainStart(s.fat, h);
    } else {
      ChainIsChain(s.fat, h);
      if b == a {
        ChainDistinct(s.fat, chain);
        assert ChainClusters(s', h) == ChainClusters(s, h)[|chain| - 1 := s'.disk[p]];
      } else {
        assert Owns(s, a, p) && !Owns(s, b, p);
        assert ChainClusters(s', h) == ChainClusters(s, h);
      }
    }
  }

  lemma MapAfter(s: State, s': State, t: Tree, a: Slot, p: nat)
    requires Sound(s, t) && Sound(s', t) && SameTables(s, s', t) && p < DISK_CLUSTERS
    requires forall c :: 0 <= c < DISK_CLUSTERS && c != p ==> s'.disk[c] == s.disk[c]
    requires IsLive(s, t, a) && EntryOk(s, t, a) && Head(s, a) !in t
    requires var c := Chain(s.fat, Head(s, a)); c[|c| - 1] == p
    ensures var m, key := Abs(s, t), KeyOf(s, a);
            key in m && !m[key].Directory? && m[key].clusters != [] && m[key].clusters[|m[key].clusters| - 1] == s.disk[p] &&
            Abs(s', t) == m[key := WithLast(m[key], s'.disk[p])]
  {
    hide DecodeDir, Sound, Abs, NodeOf, EntryOk, Entry, Chain, Terminated, SameTables, WithLast;
    NodeAfter(s, s', t, a, p, a);
    AbsAt(s, t, a);
    AbsAt(s', t, a);
    var m, m', key := Abs(s, t), Abs(s', t), KeyOf(s, a);
    forall k | k in m && k != key
      ensures k in m' && m'[k] == m[k]
    {
      var b := AbsHas(s, t, k);
      NodeAfter(s, s', t, a, p, b);
      AbsAt(s', t, b);
    }
    forall k | k in m'
      ensures k in m
    {
      var b := AbsHas(s', t, k);
      SlotIgnoresData(s, s', t, b);
      AbsAt(s, t, b);
    }
  }

  /** ... and the node of another name changes: the file or impostor whose last
      cluster served as parent now ends with the table of the new entry. */
  lemma LookAlikeWriteOverwrites(s: State, t: Tree, r: Request, buf: seq<byte>) returns (a: Slot)
    requires Consistent(s, t) && r.parent < CLUSTER_MAP_SIZE && r.parent as nat !in t && WriteCode(s, r) == 0
    requires CLUSTER_SIZE * r.Chunks() <= |buf|
    ensures IsLive(s, t, a) && Sound(WriteResult(s, r, buf), t)
    ensures var m, key := Abs(s, t), KeyOf(s, a);
            var table := EncodeDir(NewTable(Table(s, r.parent), r, WriteChain(s, r)[0]));
            key in m && !m[key].Directory? && m[key].clusters != [] &&
            Abs(WriteResult(s, r, buf), t) == m[key := WithLast(m[key], table)] && WithLast(m[key], table) != m[key]
  {
    hide DecodeDir, EncodeDir, NewTable, Sound, NoLeak, Abs, Staged, Link, Find, FreeSlotFrom, Chain, Terminated, Entry,
         Empties, Referenced, Schedule, WriteResult, EntryOk, WriteChain;
    a := LookAlikeOwner(s, t, r.parent);
    var chain := WriteChain(s, r);
    var schedule := Schedule(chain, r.Chunks());
    LookAlikeStored(s, t, r, buf);
    var s2, s' := Staged(s, buf, chain, schedule), WriteResult(s, r, buf);
    StagedSound(s, t, buf, chain, schedule);
    LookAlikeWriteLeaks(s, t, r, buf);
    LookAlikeStaged(s, s2, t, a, r.parent);
    MapAfter(s2, s', t, a, r.parent);
    TableDiffers(s.disk[r.parent], r, chain[0]);
  }

  /** What is referred to, and with it the owner of `p`, is the same once data and
      allocation table are stored. */
  lemma LookAlikeStaged(s: State, s2: State, t: Tree, a: Slot, p: nat)
    requires Sound(s, t) && SameReferenced(s, s2, t) && IsLive(s, t, a) && EntryOk(s, t, a)
    requires var c := Chain(s.fat, Head(s, a)); c[|c| - 1] == p
    ensures IsLive(s2, t, a) && EntryOk(s2, t, a) && Entry(s2, a) == Entry(s, a)
    ensures var c := Chain(s2.fat, Head(s2, a)); c[|c| - 1] == p
    ensures p < CLUSTER_MAP_SIZE && s2.disk[p] == s.disk[p]
  {
    hide DecodeDir, Sound, Chain, Terminated, Entry;
    SlotFrame(s, s2, t, a);
    ChainSame(s, s2, t, a);
    assert Owns(s, a, p);
    assert Referenced(s, t, p);
    ReferencedUsed(s, t, p);
  }

  /** Making an entry live changes the cluster. */
  lemma TableDiffers(c: Cluster, r: Request, head: nat)
    requires FreeSlot(DecodeDir(c)) < TABLE_SIZE
    ensures EncodeDir(NewTable(DecodeDir(c), r, head)) != c
  {
    hide DecodeDir, EncodeDir;
    var t := DecodeDir(c);
    DirRoundTrip(NewTable(t, r, head));
    assert !t[FreeSlot(t)].IsLive() && NewTable(t, r, head)[FreeSlot(t)].IsLive();
  }

  /** A successful write leaves all other names as they were exactly when its parent
      is a directory of the tree. */
  lemma WriteSparesOthersExactly(s: State, t: Tree, r: Request, buf: seq<byte>)
    requires Consistent(s, t) && r.parent < CLUSTER_MAP_SIZE && WriteCode(s, r) == 0 && CLUSTER_SIZE * r.Chunks() <= |buf|
    ensures var s' := WriteResult(s, r, buf);
            var t' := if r.parent as nat in t then WriteTree(s, t, r, buf) else t;
            Sound(s', t') &&
            ((forall k :: k in Abs(s, t) ==> k in Abs(s', t') && Abs(s', t')[k] == Abs(s, t)[k]) <==> r.parent as nat in t)
  {
    hide Sound, Abs, NoLeak, WriteResult, WriteTree, NewTable, EncodeDir, DecodeDir, Find, FreeSlot, WithLast;
    if r.parent as nat in t {
      WriteRefines(s, t, r, buf);
    } else {
      var a := LookAlikeWriteOverwrites(s, t, r, buf);
      assert KeyOf(s, a) in Abs(s, t);
    }
  }

  // ---------- delete through it ----------

  /** The first cluster of the chain that a delete frees. */
  ghost function FreedHead(s: State, r: Request): nat
    requires r.parent < CLUSTER_MAP_SIZE && Find(Table(s, r.parent), r.Id()) < TABLE_SIZE
  {
    Head(s, DeleteSlot(s, r))
  }

  /** `t'` makes the volume sound and has all directories of `t`, except perhaps `d`. */
  ghost predicate Survives(s: State, t: Tree, t': Tree, d: nat) {
    Sound(s, t') && forall c :: c in t && c != d ==> c in t'
  }

  lemma DeletedState(s: State, r: Request)
    requires r.parent < CLUSTER_MAP_SIZE && Walkable(s, r.parent, r.Id()) && DeleteCode(s, r) == 0
    ensures Find(Table(s, r.parent), r.Id()) < TABLE_SIZE && Terminated(s.fat, FreedHead(s, r))
    ensures var s' := DeleteResult(s, r);
            s'.fat == Clear(s.fat, Chain(s.fat, FreedHead(s, r))) &&
            forall c :: 0 <= c < DISK_CLUSTERS && c != r.parent && c != FAT_CLUSTER_NUMBER ==> s'.disk[c] == s.disk[c]
  {
    hide DecodeDir, EncodeDir, EncodeFat, Chain, Terminated, Clear, Apply, FindFrom, IsEmptyTable;
    var puts := DeleteTrace(s, r);
    ApplyTwo(s.disk, puts[0], puts[1]);
  }

  /** The last cluster of a chain is the word for the allocation table itself, or
      used. */
  lemma LastOfChain(fat: FatMap, h: nat) returns (last: nat)
    requires Terminated(fat, h) && fat[0] == CLUSTER_0_VALUE
    ensures last in Chain(fat, h) && 1 <= last < CLUSTER_MAP_SIZE && fat[last] == END_OF_FILE
  {
    hide Chain, Terminated;
    ChainIsChain(fat, h);
    last := Chain(fat, h)[|Chain(fat, h)| - 1];
  }

  /** A directory of its own is not what its own entries name. */
  lemma OwnerOutside(s: State, t: Tree, b: Slot, d: nat)
    requires Sound(s, t) && IsLive(s, t, b) && d in t && d != ROOT_CLUSTER_NUMBER && Owns(s, b, d)
    ensures b.dir != d
  {
    hide DecodeDir, Mounted, UniqueIds, Entry, Chain, Terminated;
    assert DirOk(s, t, d);
    if t[d].slot != b {
      NamedOnce(s, t, b, d);
    }
  }

  /** A delete whose parent passes the test without being a directory of the tree
      frees clusters that something of the tree refers to: the volume is unsound for
      every tree that keeps the old directories. */
  lemma LookAlikeDeleteUnsound(s: State, t: Tree, r: Request, t': Tree)
    requires Consistent(s, t) && r.parent < CLUSTER_MAP_SIZE && r.parent as nat !in t
    requires Walkable(s, r.parent, r.Id()) && DeleteCode(s, r) == 0
    ensures Find(Table(s, r.parent), r.Id()) < TABLE_SIZE
    ensures !Survives(DeleteResult(s, r), t, t', FreedHead(s, r))
  {
    hide DecodeDir, NoSharing, UniqueIds, NoLeak, Chain, Terminated, Entry, Clear, DeleteResult, DeleteCode, Walkable,
         FindFrom,
         EntryOk, EncodeFat, FsSignature;
    DeletedState(s, r);
    var s', h := DeleteResult(s, r), FreedHead(s, r);
    var last := LastOfChain(s.fat, h);
    if Survives(s', t, t', h) {
      assert s'.fat[last] == EMPTY_ENTRY by { ClearedWord(s.fat, Chain(s.fat, h), last); }
      assert last >= 2;
      UsedIsOwned(s, t, last);
      if last == ROOT_CLUSTER_NUMBER {
        RootEnds(s', t');
      } else {
        var b :| IsLive(s, t, b) && Owns(s, b, last);
        FreedOwner(s, t, h, b, last);
        assert DirOk(s, t, b.dir);
        StillLive(s, s', t, t', b);
        SoundEntry(s', t', b);
        OnlyCleared(s.fat, Chain(s.fat, h));
        BrokenChain(s, s'.fat, b, last);
        OrderedEntry(s', t', b);
      }
    }
  }

  lemma ClearedWord(fat: FatMap, chain: seq<nat>, c: nat)
    requires c in chain && c < CLUSTER_MAP_SIZE
    ensures Clear(fat, chain)[c] == EMPTY_ENTRY
  {
  }

  lemma OnlyCleared(fat: FatMap, chain: seq<nat>)
    ensures forall x :: 0 <= x < CLUSTER_MAP_SIZE ==> Clear(fat, chain)[x] == fat[x] || Clear(fat, chain)[x] == EMPTY_ENTRY
  {
  }

  lemma OrderedEntry(s: State, t: Tree, a: Slot)
    requires InRange(a) && a.dir in t && EntryOk(s, t, a)
    ensures Ordered(s.fat, Head(s, a))
  {
  }

  lemma FreedOwner(s: State, t: Tree, h: nat, b: Slot, last: nat)
    requires Sound(s, t) && IsLive(s, t, b) && Owns(s, b, last) && last != ROOT_CLUSTER_NUMBER
    requires Terminated(s.fat, h) && last in Chain(s.fat, h)
    ensures b.dir != h
  {
    hide DecodeDir, Mounted, NoSharing, UniqueIds, EntriesOk, Entry;
    if h in t && b.dir == h {
      assert DirOk(s, t, h);
      OneCluster(s.fat, h);
      OwnerOutside(s, t, b, h);
    }
  }

  lemma StillLive(s: State, s': State, t: Tree, t': Tree, b: Slot)
    requires IsLive(s, t, b) && b.dir in t' && s'.disk[b.dir] == s.disk[b.dir]
    ensures IsLive(s', t', b) && Entry(s', b) == Entry(s, b)
  {
    hide DecodeDir;
  }

  /** A successful delete leaves a sound volume with all other directories exactly
      when its parent is a directory of the tree. */
  lemma DeleteSurvivesExactly(s: State, t: Tree, r: Request)
    requires Consistent(s, t) && r.parent < CLUSTER_MAP_SIZE
    requires Walkable(s, r.parent, r.Id()) && DeleteCode(s, r) == 0
    ensures Find(Table(s, r.parent), r.Id()) < TABLE_SIZE
    ensures (exists t' :: Survives(DeleteResult(s, r), t, t', FreedHead(s, r))) <==> r.parent as nat in t
  {
    hide Sound, NoLeak, DecodeDir, DeleteResult, DeleteCode, Walkable, FindFrom;
    DeletedState(s, r);
    if r.parent as nat in t {
      DeleteRefines(s, t, r);
      assert Survives(DeleteResult(s, r), t, DeleteTree(s, t, r), FreedHead(s, r));
    } else if t' :| Survives(DeleteResult(s, r), t, t', FreedHead(s, r)) {
      LookAlikeDeleteUnsound(s, t, r, t');
    }
  }

  // ---------- A file that names the root ----------

  /** The contents of a one-cluster file under which the search for `id` finds an
      entry that is no directory and names the root's cluster. */
  predicate NamesRoot(c: Cluster, id: seq<byte>) {
    var t := DecodeDir(c);
    t[0].IsDirectory() && Find(t, id) < TABLE_SIZE &&
    !t[Find(t, id)].IsDirectory() && t[Find(t, id)].Head() == ROOT_CLUSTER_NUMBER
  }

  lemma NewClusterLooksAlike(s: State, t: Tree, r: Request, buf: seq<byte>)
    requires Sound(s, t) && LegalWrite(s, t, r, buf) && WriteCode(s, r) == 0 && r.Chunks() == 1
    requires DecodeDir(Chunk(buf, 0))[0].IsDirectory()
    ensures var s', c := WriteResult(s, r, buf), WriteChain(s, r)[0];
            2 <= c < CLUSTER_MAP_SIZE && ParentOk(s', c) && Table(s', c) == DecodeDir(Chunk(buf, 0)) &&
            s'.fat[ROOT_CLUSTER_NUMBER] == END_OF_FILE
  {
    hide Sound, DecodeDir, Find, FreeSlot, Empties, Link, Stored, IsEmptyTable, Chunk, WriteResult, StoreEntry;
    var chain := WriteChain(s, r);
    WriteCanStore(s, t, r, buf);
    WrittenFat(s, r, buf);
    NewFat(s.fat, chain);
    StoredTables(s, t, r, buf, chain, Schedule(chain, 1), chain[0]);
    LinkedOne(s.fat, chain);
    RootEnds(s, t);
  }

  lemma WrittenFat(s: State, r: Request, buf: seq<byte>)
    requires r.parent < CLUSTER_MAP_SIZE && WriteCode(s, r) == 0 && CLUSTER_SIZE * r.Chunks() <= |buf|
    ensures WriteResult(s, r, buf).fat == Link(s.fat, WriteChain(s, r))
  {
  }

  lemma LinkedOne(fat: FatMap, chain: seq<nat>)
    requires |chain| == 1 && InTable(chain)
    ensures Link(fat, chain)[chain[0]] == END_OF_FILE
  {
  }

  /** Writing such a file and deleting `id` with the file's cluster as parent both
      succeed, and the root is gone: its cluster is EMPTY, no request may name it,
      and no tree makes the volume sound. */
  lemma LookAlikeDeleteTakesRoot(s: State, t: Tree, r: Request, buf: seq<byte>, q: Request)
    requires Sound(s, t) && LegalWrite(s, t, r, buf) && WriteCode(s, r) == 0 && 0 < r.buffer_size < CLUSTER_SIZE
    requires NamesRoot(Chunk(buf, 0), q.Id()) && q.parent as nat == WriteChain(s, r)[0]
    ensures var s1 := WriteResult(s, r, buf);
            q.parent < CLUSTER_MAP_SIZE && Walkable(s1, q.parent, q.Id()) && DeleteCode(s1, q) == 0 &&
            var s2 := DeleteResult(s1, q);
            s2.fat[ROOT_CLUSTER_NUMBER] == EMPTY_ENTRY && !ParentOk(s2, ROOT_CLUSTER_NUMBER) && forall t' :: !Sound(s2, t')
  {
    hide Sound, DecodeDir, FindFrom, FreeSlot, Empties, WriteResult, IsEmptyTable, Chunk, Clear, DeleteResult;
    NewClusterLooksAlike(s, t, r, buf);
    var s1 := WriteResult(s, r, buf);
    assert IsChain(s1.fat, [ROOT_CLUSTER_NUMBER as nat]);
    ChainUnique(s1.fat, [ROOT_CLUSTER_NUMBER as nat]);
    DeletedState(s1, q);
    ClearedWord(s1.fat, [ROOT_CLUSTER_NUMBER as nat], ROOT_CLUSTER_NUMBER);
    var s2 := DeleteResult(s1, q);
    forall t' | Sound(s2, t')
      ensures false
    {
      RootEnds(s2, t');
    }
  }
}

/** What `write` and `delete` do to the abstract file system. */
module Effects {
  import opened Bytes
  import opened Layout
  import opened Fat
  import opened Volume
  import opened Tree
  import opened Frames
  import opened Entries
  import opened Refinement
  import opened FileSystem
  import opened Lookup

  // ---------- write ----------

  /** Whether `d` is a directory after a store, and its table. */
  ghost predicate AfterStore(s: State, t: Tree, r: Request, buf: seq<byte>, chain: seq<nat>, s': State, t': Tree, d: nat)
    requires r.parent < CLUSTER_MAP_SIZE && WriteCode(s, r) == 0 && |chain| > 0 && CLUSTER_SIZE <= |buf|
    requires d < CLUSTER_MAP_SIZE
  {
    (d in t' <==> d in t || (MakesDirectory(r, buf) && d == chain[0])) &&
    (d in t && d != r.parent ==> Table(s', d) == Table(s, d)) &&
    (d in t && d == r.parent ==> Table(s', d) == Table(s, d)[StoreSlot(s, r).index := StoreEntry(s, r, chain)]) &&
    (r.Chunks() == 1 && d == chain[0] ==> Table(s', d) == DecodeDir(Chunk(buf, 0)))
  }

  lemma StoredTables(s: State, t: Tree, r: Request, buf: seq<byte>, chain: seq<nat>, schedule: seq<nat>, d: nat)
    requires CanStore(s, t, r, buf, chain, schedule) && d < CLUSTER_MAP_SIZE
    ensures chain[0] !in t
    ensures AfterStore(s, t, r, buf, chain, Stored(s, r, buf, chain, schedule), StoreTree(s, t, r, buf, chain), d)
  {
    hide Sound, DecodeDir, EncodeDir, Staged, Stored, StoreTrace, StoreEntry, FreeSlot, Find, FreeCount, WithEntry,
         Chunk, IsEmptyTable, DataPuts, Apply, Terminated, Referenced;
    var s2, a, e := Staged(s, buf, chain, schedule), StoreSlot(s, r), StoreEntry(s, r, chain);
    StoreEntryFields(s, r, chain);
    StoreCanAdd(s, t, r, buf, chain, schedule);
    NewHead(s2, t, a, e, MakesDirectory(r, buf));
    StoredIsStagedPlusEntry(s, t, r, buf, chain, schedule);
    WithEntryTable(s2, a, e, d);
    if d in t {
      StagedTable(s, t, buf, chain, schedule, d);
    } else if r.Chunks() == 1 && d == chain[0] {
      StagedDirectory(s, buf, chain, schedule);
    }
  }

  /** Making a free slot live makes no slot stale. */
  lemma FilledSlot(t: DirTable, i: nat, e: DirEntry)
    requires 2 <= i < TABLE_SIZE && e.IsLive()
    ensures HasStaleSlot(t[i := e]) ==> HasStaleSlot(t)
  {
    var t' := t[i := e];
    if j :| 2 <= j < TABLE_SIZE && !t'[j].IsLive() && t'[j].IsDirectory() {
      assert t[j] == t'[j];
    }
  }

  lemma TaintAfterStore(s: State, t: Tree, r: Request, buf: seq<byte>, chain: seq<nat>, schedule: seq<nat>, d: nat)
    requires CanStore(s, t, r, buf, chain, schedule)
    ensures var now := Tainted(Stored(s, r, buf, chain, schedule), StoreTree(s, t, r, buf, chain));
            var tainting := MakesDirectory(r, buf) && HasStaleSlot(DecodeDir(Chunk(buf, 0))) && d == chain[0];
            chain[0] != r.parent as nat && chain[0] < CLUSTER_MAP_SIZE &&
            if d == r.parent as nat then d in now ==> d in Tainted(s, t) else d in now <==> d in Tainted(s, t) || tainting
  {
    hide Sound, DecodeDir, Stored, StoreTree, StoreEntry, FreeSlot, Find, FreeCount, Chunk, HasStaleSlot, IsEmptyTable;
    StoreEntryFields(s, r, chain);
    FilledSlot(Table(s, r.parent), StoreSlot(s, r).index, StoreEntry(s, r, chain));
    StoredTables(s, t, r, buf, chain, schedule, chain[0]);
    if d < CLUSTER_MAP_SIZE {
      StoredTables(s, t, r, buf, chain, schedule, d);
    }
  }

  lemma StoreTaints(s: State, t: Tree, r: Request, buf: seq<byte>, chain: seq<nat>, schedule: seq<nat>)
    requires CanStore(s, t, r, buf, chain, schedule)
    ensures var now := Tainted(Stored(s, r, buf, chain, schedule), StoreTree(s, t, r, buf, chain));
            var p: nat := r.parent;
            (p in now ==> p in Tainted(s, t)) &&
            now - {p} == Tainted(s, t) - {p}
              + if MakesDirectory(r, buf) && HasStaleSlot(DecodeDir(Chunk(buf, 0))) then {chain[0]} else {}
  {
    hide Sound, DecodeDir, Stored, StoreTree, FreeCount, Chunk, HasStaleSlot, IsEmptyTable, Tainted;
    var now := Tainted(Stored(s, r, buf, chain, schedule), StoreTree(s, t, r, buf, chain));
    forall d: nat
      ensures d == r.parent as nat && d in now ==> d in Tainted(s, t)
      ensures d != r.parent as nat ==>
        (d in now <==> d in Tainted(s, t) || (MakesDirectory(r, buf) && HasStaleSlot(DecodeDir(Chunk(buf, 0))) && d == chain[0]))
    {
      TaintAfterStore(s, t, r, buf, chain, schedule, d);
    }
    TaintAfterStore(s, t, r, buf, chain, schedule, 0);
  }

  /** The slot a write takes was free, so that a file gets a stale attribute only
      in a tainted directory. */
  lemma StaleSlotTaints(s: State, t: Tree, r: Request)
    requires r.parent < CLUSTER_MAP_SIZE && r.parent as nat in t && WriteCode(s, r) == 0
    requires Entry(s, StoreSlot(s, r)).IsDirectory()
    ensures r.parent as nat in Tainted(s, t)
  {
    hide DecodeDir, Find;
    assert !Table(s, r.parent)[StoreSlot(s, r).index].IsLive();
  }

  lemma NewDirectoryIsFresh(s: State, t: Tree, r: Request, buf: seq<byte>)
    requires Sound(s, t) && LegalWrite(s, t, r, buf) && WriteCode(s, r) == 0
    ensures Shown(s, t).FreshDirectory(WriteChain(s, r)[0])
  {
    hide DecodeDir, Sound, Shown, Find, FileSystem.FreshDirectory, Empties;
    var c := WriteChain(s, r)[0];
    if c in t {
      ReferencedUsed(s, t, c);
    }
    OutsideTree(s, t, c);
  }

  lemma WrittenMayBeAdded(s: State, t: Tree, r: Request, buf: seq<byte>)
    requires Sound(s, t) && LegalWrite(s, t, r, buf) && WriteCode(s, r) == 0
    ensures r.Chunks() <= CLUSTER_MAP_SIZE - 2 && Shown(s, t).MayAdd(r, buf, WrittenNode(s, r, buf))
    ensures WrittenNode(s, r, buf).Size() == r.Chunks() - r.Chunks() / 2
  {
    hide DecodeDir, Sound, Abs, Find, FreeSlot, FreeCount, WriteChain, FileSystem.FreshDirectory, StoreSlot, Chunk,
         Tainted, IsEmptyTable, KeptChunk;
    StoreSizes(s, r);
    NewDirectoryIsFresh(s, t, r, buf);
    if Entry(s, StoreSlot(s, r)).IsDirectory() {
      StaleSlotTaints(s, t, r);
    }
  }

  /** A successful write adds one node, of the surviving chunks, takes as many
      clusters as the node has, and taints no other directory than a new one. */
  lemma WriteAdds(s: State, t: Tree, r: Request, buf: seq<byte>)
    requires Sound(s, t) && LegalWrite(s, t, r, buf) && WriteCode(s, r) == 0
    ensures var s', t' := WriteResult(s, r, buf), WriteTree(s, t, r, buf);
            Sound(s', t') && r.Chunks() <= CLUSTER_MAP_SIZE - 2 &&
            Shown(s, t).Added(r, buf, WrittenNode(s, r, buf), Shown(s', t'))
  {
    hide DecodeDir, Sound, Abs, Find, FreeSlot, FreeCount, WriteChain, FileSystem.MayAdd, Chunk, Tainted,
         IsEmptyTable, KeptChunks, WriteResult, HasStaleSlot, Stored, Node.Size, ParentOk;
    WriteRefines(s, t, r, buf);
    WriteTakes(s, r, buf);
    WrittenMayBeAdded(s, t, r, buf);
    WriteCanStore(s, t, r, buf);
    StoreTaints(s, t, r, buf, WriteChain(s, r), Schedule(WriteChain(s, r), r.Chunks()));
  }

  // ---------- delete ----------

  lemma DeletedTable(s: State, t: Tree, r: Request, d: nat)
    requires Sound(s, t) && LegalParent(s, t, r.parent)
    requires Walkable(s, r.parent, r.Id()) && DeleteCode(s, r) == 0 && d in t && d < CLUSTER_MAP_SIZE
    ensures Table(DeleteResult(s, r), d) == if d == r.parent then DeleteTable(Table(s, d), r.Id()) else Table(s, d)
  {
    hide EntriesOk, NoSharing, UniqueIds, Mounted, DecodeDir, EncodeDir, EncodeFat, WithEntry, DeleteFat,
         DeleteResult, Find, Chain, Terminated, IsEmptyTable, Entry;
    DeleteCanRemove(s, t, r);
    DeleteIsRemovePlusFree(s, t, r);
    assert DirOk(s, t, d);
    var a := DeleteSlot(s, r);
    DeadIs(s, a);
    WithEntryTable(s, a, Dead(s, a), d);
  }

  lemma DeadIs(s: State, a: Slot)
    requires InRange(a)
    ensures Dead(s, a) == Table(s, a.dir)[a.index].(user_attribute := 0)
  {
  }

  /** Clearing a live slot makes it stale exactly when it carries the attribute. */
  lemma ClearedSlot(t: DirTable, i: nat)
    requires 2 <= i < TABLE_SIZE && t[i].IsLive()
    ensures HasStaleSlot(t[i := t[i].(user_attribute := 0)]) <==> HasStaleSlot(t) || t[i].IsDirectory()
  {
    var t' := t[i := t[i].(user_attribute := 0)];
    if j :| 2 <= j < TABLE_SIZE && !t[j].IsLive() && t[j].IsDirectory() {
      assert t'[j] == t[j];
    }
    if t[i].IsDirectory() {
      assert !t'[i].IsLive() && t'[i].IsDirectory();
    }
  }

  lemma DeleteTaints(s: State, t: Tree, r: Request)
    requires Sound(s, t) && LegalParent(s, t, r.parent)
    requires Walkable(s, r.parent, r.Id()) && DeleteCode(s, r) == 0 && InRange(DeleteSlot(s, r))
    ensures var a := DeleteSlot(s, r);
            a.dir == r.parent &&
            Tainted(DeleteResult(s, r), DeleteTree(s, t, r)) ==
              Tainted(s, t) + (if Entry(s, a).IsDirectory() then {a.dir} else {})
                            - (if Head(s, a) in t then {Head(s, a)} else {})
  {
    hide Sound, DecodeDir, DeleteResult, Find, Chain, Terminated, IsEmptyTable, HasStaleSlot, Walkable, DeleteCode;
    DeleteCanRemove(s, t, r);
    var a := DeleteSlot(s, r);
    if Head(s, a) in t {
      ChainStart(s.fat, Head(s, a));
      EmptyHasNoSlot(s, t, Head(s, a), a);
    }
    ClearedSlot(Table(s, a.dir), a.index);
    forall d | d in t && d < CLUSTER_MAP_SIZE
      ensures Table(DeleteResult(s, r), d) == if d == r.parent then DeleteTable(Table(s, d), r.Id()) else Table(s, d)
    {
      DeletedTable(s, t, r, d);
    }
  }

  /** A successful delete removes one node and gives back its clusters; its slot is
      stale unless the node was a readable file. */
  lemma DeleteRemoves(s: State, t: Tree, r: Request)
    requires Sound(s, t) && LegalParent(s, t, r.parent)
    requires Walkable(s, r.parent, r.Id()) && DeleteCode(s, r) == 0
    ensures InRange(DeleteSlot(s, r)) && Key(r.parent, r.Id()) in Abs(s, t)
    ensures var s', t' := DeleteResult(s, r), DeleteTree(s, t, r);
            Sound(s', t') && Shown(s, t).Removed(Key(r.parent, r.Id()), Shown(s', t'))
  {
    hide Sound, Abs, FreeCount, DeleteResult, DeleteTree, DeleteCode, DecodeDir, Find, Chain, Terminated, Walkable,
         Node.Size, Tainted, EntryOk, IsMarked;
    DeleteRefines(s, t, r);
    DeleteCanRemove(s, t, r);
    DeleteGivesBack(s, t, r);
    DeleteTaints(s, t, r);
    var a := DeleteSlot(s, r);
    AbsAt(s, t, a);
    NodeMeans(s, t, a);
  }
}

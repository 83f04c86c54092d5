/** What `read` and `delete` find after a `write`. */
module RoundTrip {
  import opened Bytes
  import opened Layout
  import opened Fat
  import opened Volume
  import opened Tree
  import opened Frames
  import opened Entries
  import opened Refinement
  import opened Lookup
  import opened Effects
  import opened Runs

  // ---------- The parent's table after a write ----------

  /** The search for a name just written ends at the new entry. */
  lemma FindsNewEntry(t: DirTable, r: Request, head: nat)
    requires FreeSlot(t) < TABLE_SIZE && Find(t, r.Id()) == TABLE_SIZE
    ensures Find(NewTable(t, r, head), r.Id()) == FreeSlot(t)
    ensures NewTable(t, r, head)[0] == t[0]
  {
    hide NewEntry, FindFrom, FreeSlotFrom;
    var t' := NewTable(t, r, head);
    var slot := FreeSlot(t);
    NewEntryMatches(t[slot], r, head);
    assert forall j :: 2 <= j < slot ==> t'[j] == t[j];
    FindIs(t', r.Id(), slot);
  }

  lemma NewEntryMatches(e: DirEntry, r: Request, head: nat)
    ensures Matches(NewEntry(e, r, head), r.Id())
  {
  }

  lemma StoredParent(s: State, t: Tree, r: Request, buf: seq<byte>, chain: seq<nat>, schedule: seq<nat>)
    requires CanStore(s, t, r, buf, chain, schedule)
    ensures var s' := Stored(s, r, buf, chain, schedule);
            var a := StoreSlot(s, r);
            ParentOk(s', r.parent) && SlotOf(s', Key(r.parent, r.Id())) == a &&
            Entry(s', a) == StoreEntry(s, r, chain) && s'.fat == Link(s.fat, chain)
  {
    hide Sound, DecodeDir, EncodeDir, Link, Staged, Stored, StoreTrace, WithEntry, FreeCount, NewEntry;
    var a, e := StoreSlot(s, r), StoreEntry(s, r, chain);
    StoredIsStagedPlusEntry(s, t, r, buf, chain, schedule);
    StagedTable(s, t, buf, chain, schedule, r.parent);
    StagedSound(s, t, buf, chain, schedule);
    WithEntryTable(Staged(s, buf, chain, schedule), a, e, r.parent);
    WithEntryFat(Staged(s, buf, chain, schedule), a, e);
    FindsNewEntry(Table(s, r.parent), r, chain[0]);
    NewFat(s.fat, chain);
  }

  // ---------- read after write ----------

  /** The same name, read with a buffer of `size` bytes. */
  function ReadRequest(r: Request, size: word): Request {
    r.(buffer_size := size)
  }

  /** A slot whose attribute a file would inherit. */
  ghost predicate StaleSlot(s: State, r: Request)
    requires r.parent < CLUSTER_MAP_SIZE && WriteCode(s, r) == 0
  {
    Entry(s, StoreSlot(s, r)).IsDirectory()
  }

  /** A file stored on any chain is accepted by `read` exactly when the slot it
      took had no directory attribute left in it. */
  lemma StoredIsReadable(s: State, t: Tree, r: Request, buf: seq<byte>, chain: seq<nat>, schedule: seq<nat>, size: word)
    requires CanStore(s, t, r, buf, chain, schedule) && r.buffer_size > 0 && r.Chunks() * CLUSTER_SIZE <= size
    ensures ReadCode(Stored(s, r, buf, chain, schedule), ReadRequest(r, size)) == if StaleSlot(s, r) then 1 else 0
  {
    hide Sound, DecodeDir, Link, Stored, FreeCount, Apply, StoreEntry, ParentOk, Find;
    StoredParent(s, t, r, buf, chain, schedule);
    StoreEntryFields(s, r, chain);
  }

  /** ... and `read` then delivers what the chain holds. */
  lemma StoredReadsBack(s: State, t: Tree, r: Request, buf: seq<byte>, chain: seq<nat>, schedule: seq<nat>, size: word)
    requires CanStore(s, t, r, buf, chain, schedule) && r.buffer_size > 0 && r.Chunks() * CLUSTER_SIZE <= size
    requires !StaleSlot(s, r)
    ensures var s', q := Stored(s, r, buf, chain, schedule), ReadRequest(r, size);
            ReadCode(s', q) == 0 && Walkable(s', q.parent, q.Id()) &&
            ReadData(s', q) == Contents(Apply(s.disk, DataPuts(schedule, buf)), chain)
  {
    hide Sound, DecodeDir, Abs, Stored, StoreTree, FreeCount, StoreEntry, StoreSlot, ParentOk, Find, Apply, DataPuts,
         ReadCode, IsEmptyTable, Contents, Chunk;
    var s', t', q := Stored(s, r, buf, chain, schedule), StoreTree(s, t, r, buf, chain), ReadRequest(r, size);
    StoreRefines(s, t, r, buf, chain, schedule);
    StoredIsReadable(s, t, r, buf, chain, schedule, size);
    StoredParent(s, t, r, buf, chain, schedule);
    StoreTreeGrows(s, t, r, buf, chain);
    ReadIsNode(s', t', q);
  }

  lemma StoreTreeGrows(s: State, t: Tree, r: Request, buf: seq<byte>, chain: seq<nat>)
    requires r.parent < CLUSTER_MAP_SIZE && WriteCode(s, r) == 0 && |chain| > 0 && r.parent as nat in t && CLUSTER_SIZE <= |buf|
    ensures r.parent as nat in StoreTree(s, t, r, buf, chain)
  {
    hide StoreEntry, DecodeDir, Find;
  }

  /** A file that was just written is accepted by `read` exactly when the slot it
      took had no directory attribute left in it. */
  lemma WrittenIsReadable(s: State, t: Tree, r: Request, buf: seq<byte>, size: word)
    requires Sound(s, t) && LegalWrite(s, t, r, buf) && WriteCode(s, r) == 0
    requires r.buffer_size > 0 && r.Chunks() * CLUSTER_SIZE <= size
    ensures ReadCode(WriteResult(s, r, buf), ReadRequest(r, size)) == if StaleSlot(s, r) then 1 else 0
  {
    hide Sound, CanStore, Stored, WriteResult, ParentOk, DecodeDir, Find, FreeSlot, WriteChain, ReadCode, StaleSlot;
    WriteCanStore(s, t, r, buf);
    StoredIsReadable(s, t, r, buf, WriteChain(s, r), Schedule(WriteChain(s, r), r.Chunks()), size);
  }

  /** All chunks of `buf`, in order. */
  function AllChunks(buf: seq<byte>, n: nat): (r: seq<Cluster>)
    requires CLUSTER_SIZE * n <= |buf|
  {
    seq<Cluster>(n, i requires 0 <= i < n => Chunk(buf, i))
  }

  /** Reading the name just written delivers the surviving chunks. */
  lemma ReadBack(s: State, t: Tree, r: Request, buf: seq<byte>, size: word)
    requires Sound(s, t) && LegalWrite(s, t, r, buf) && WriteCode(s, r) == 0 && !StaleSlot(s, r)
    requires r.buffer_size > 0 && r.Chunks() * CLUSTER_SIZE <= size
    ensures var s', q := WriteResult(s, r, buf), ReadRequest(r, size);
            ReadCode(s', q) == 0 && Walkable(s', q.parent, q.Id()) &&
            ReadData(s', q) == KeptChunks(buf, r.Chunks())
  {
    hide Sound, Stored, WriteResult, ReadCode, StaleSlot, ReadData, Walkable, KeptChunks, Contents, DataPuts, Apply,
         Find, DecodeDir, Empties;
    WriteCanStore(s, t, r, buf);
    StoredReadsBack(s, t, r, buf, WriteChain(s, r), Schedule(WriteChain(s, r), r.Chunks()), size);
    WriteContents(s.disk, WriteChain(s, r), buf, r.Chunks());
  }

  /** All chunks come back, in order, exactly when there is only one and its slot
      was not stale. */
  lemma ChunksBackExactly(s: State, t: Tree, r: Request, buf: seq<byte>, size: word)
    requires Sound(s, t) && LegalWrite(s, t, r, buf) && WriteCode(s, r) == 0
    requires r.buffer_size > 0 && r.Chunks() * CLUSTER_SIZE <= size
    ensures var s', q := WriteResult(s, r, buf), ReadRequest(r, size);
            (ReadCode(s', q) == 0 ==> Walkable(s', q.parent, q.Id())) &&
            (ReadCode(s', q) == 0 && ReadData(s', q) == AllChunks(buf, r.Chunks())
             <==> r.buffer_size < CLUSTER_SIZE && !StaleSlot(s, r))
  {
    hide Sound, ReadCode, Walkable, ReadData, WriteResult, WriteCode, StaleSlot;
    WrittenIsReadable(s, t, r, buf, size);
    if !StaleSlot(s, r) {
      ReadBack(s, t, r, buf, size);
    }
    if r.buffer_size < CLUSTER_SIZE {
      assert KeptChunks(buf, 1)[0] == AllChunks(buf, 1)[0];
      assert KeptChunks(buf, 1) == AllChunks(buf, 1);
    } else {
      assert |AllChunks(buf, r.Chunks())| == r.Chunks() && (r.Chunks() + 1) / 2 < r.Chunks();
    }
  }

  // ---------- The caller's bytes ----------

  /** `data` starts with the first `size` bytes of `buf`. */
  predicate Restores(data: seq<byte>, buf: seq<byte>, size: nat)
    requires size <= |buf|
  {
    size <= |data| && data[..size] == buf[..size]
  }

  /** The data is one cluster or two, whole, and the chunks that replace others in
      the new chain equal them. */
  predicate ChunksRepeat(buf: seq<byte>, size: nat)
    requires CLUSTER_SIZE * (size / CLUSTER_SIZE + 1) <= |buf|
  {
    (size == CLUSTER_SIZE && Chunk(buf, 0) == Chunk(buf, 1)) ||
    (size == 2 * CLUSTER_SIZE && Chunk(buf, 0) == Chunk(buf, 1) == Chunk(buf, 2))
  }

  lemma FlattenFirst(c: seq<Cluster>)
    ensures |c| == 1 ==> Flatten(c) == c[0]
    ensures |c| == 2 ==> Flatten(c) == c[0][..] + c[1]
  {
    FlattenNothing();
    if |c| == 1 {
      FlattenOne([], c[0]);
      assert c == [] + [c[0]];
    } else if |c| == 2 {
      FlattenOne([], c[0]);
      FlattenOne([c[0]], c[1]);
      assert c == [c[0]] + [c[1]] && [c[0]] == [] + [c[0]];
    }
  }

  /** One chunk survives whole. */
  lemma OneChunkRestores(buf: seq<byte>, size: nat)
    requires size < CLUSTER_SIZE <= |buf|
    ensures Restores(Flatten(KeptChunks(buf, 1)), buf, size)
  {
    hide Flatten;
    FlattenFirst(KeptChunks(buf, 1));
    assert KeptChunks(buf, 1)[0] == Chunk(buf, 0);
  }

  /** Of two chunks the second survives. */
  lemma TwoChunksRestore(buf: seq<byte>, size: nat)
    requires CLUSTER_SIZE <= size && 2 * CLUSTER_SIZE <= |buf| && size <= |buf|
    ensures Restores(Flatten(KeptChunks(buf, 2)), buf, size) <==> size == CLUSTER_SIZE && Chunk(buf, 0) == Chunk(buf, 1)
  {
    hide Flatten;
    var kept := KeptChunks(buf, 2);
    FlattenFirst(kept);
    assert kept[0] == Chunk(buf, 1) && buf[..CLUSTER_SIZE] == Chunk(buf, 0);
    assert Chunk(buf, 1)[..CLUSTER_SIZE] == Chunk(buf, 1);
  }

  /** Of three chunks the last two survive. */
  lemma ThreeChunksRestore(buf: seq<byte>, size: nat)
    requires 2 * CLUSTER_SIZE <= size && 3 * CLUSTER_SIZE <= |buf| && size <= |buf|
    ensures Restores(Flatten(KeptChunks(buf, 3)), buf, size)
       <==> size == 2 * CLUSTER_SIZE && Chunk(buf, 0) == Chunk(buf, 1) == Chunk(buf, 2)
  {
    hide Flatten, Chunk;
    var kept := KeptChunks(buf, 3);
    FlattenFirst(kept);
    assert kept[0] == Chunk(buf, 1) && kept[1] == Chunk(buf, 2);
    TwoClusters(buf, kept[0], kept[1]);
    var data := kept[0][..] + kept[1];
    assert data[..2 * CLUSTER_SIZE] == data;
  }

  /** Of more, too few. */
  lemma FewChunksSurvive(buf: seq<byte>, size: nat)
    requires 3 * CLUSTER_SIZE <= size && CLUSTER_SIZE * (size / CLUSTER_SIZE + 1) <= |buf|
    ensures |Flatten(KeptChunks(buf, size / CLUSTER_SIZE + 1))| < size
  {
    hide Flatten;
    var full := size / CLUSTER_SIZE;
    assert CLUSTER_SIZE * full <= size && (full + 2) / 2 < full;
  }

  /** The surviving chunks hold the caller's bytes exactly when these fill less than
      one cluster, or the chunks that were lost equal the ones that took their
      places. */
  lemma KeptRestoresExactly(buf: seq<byte>, size: nat)
    requires CLUSTER_SIZE * (size / CLUSTER_SIZE + 1) <= |buf|
    ensures Restores(Flatten(KeptChunks(buf, size / CLUSTER_SIZE + 1)), buf, size)
       <==> size < CLUSTER_SIZE || ChunksRepeat(buf, size)
  {
    hide Flatten, KeptChunks, Chunk;
    if size < CLUSTER_SIZE {
      OneChunkRestores(buf, size);
    } else if size < 2 * CLUSTER_SIZE {
      assert size / CLUSTER_SIZE == 1;
      TwoChunksRestore(buf, size);
    } else if size < 3 * CLUSTER_SIZE {
      assert size / CLUSTER_SIZE == 2;
      ThreeChunksRestore(buf, size);
    } else {
      FewChunksSurvive(buf, size);
    }
  }

  lemma TwoClusters(buf: seq<byte>, a: Cluster, b: Cluster)
    requires 2 * CLUSTER_SIZE <= |buf|
    ensures a + b == buf[..2 * CLUSTER_SIZE] <==> a == Chunk(buf, 0) && b == Chunk(buf, 1)
  {
    var both := buf[..2 * CLUSTER_SIZE];
    assert both == Chunk(buf, 0) + Chunk(buf, 1);
    assert (a + b)[..CLUSTER_SIZE] == a && (a + b)[CLUSTER_SIZE..] == b;
    assert both[..CLUSTER_SIZE] == Chunk(buf, 0) && both[CLUSTER_SIZE..] == Chunk(buf, 1);
  }

  /** The caller's bytes come back exactly when the slot was not stale and they fill
      less than one cluster, or happen to repeat. */
  lemma RoundTripExact(s: State, t: Tree, r: Request, buf: seq<byte>, size: word)
    requires Sound(s, t) && LegalWrite(s, t, r, buf) && WriteCode(s, r) == 0
    requires r.buffer_size > 0 && r.Chunks() * CLUSTER_SIZE <= size
    ensures var s', q := WriteResult(s, r, buf), ReadRequest(r, size);
            (ReadCode(s', q) == 0 ==> Walkable(s', q.parent, q.Id())) &&
            (ReadCode(s', q) == 0 && Restores(Flatten(ReadData(s', q)), buf, r.buffer_size)
             <==> !StaleSlot(s, r) && (r.buffer_size < CLUSTER_SIZE || ChunksRepeat(buf, r.buffer_size)))
  {
    hide Sound, ReadCode, Walkable, ReadData, WriteResult, WriteCode, StaleSlot, Restores, ChunksRepeat, Flatten,
         KeptChunks;
    WrittenIsReadable(s, t, r, buf, size);
    if !StaleSlot(s, r) {
      ReadBack(s, t, r, buf, size);
      KeptRestoresExactly(buf, r.buffer_size);
    }
  }

  /** All chunks, one after the other, are the bytes they were cut from. */
  lemma {:induction false} AllChunksRestore(buf: seq<byte>, n: nat)
    requires CLUSTER_SIZE * n <= |buf|
    ensures Flatten(AllChunks(buf, n)) == buf[..CLUSTER_SIZE * n]
  {
    if n == 0 {
      FlattenNothing();
      assert AllChunks(buf, 0) == [];
    } else {
      AllChunksRestore(buf, n - 1);
      assert AllChunks(buf, n) == AllChunks(buf, n - 1) + [Chunk(buf, n - 1)];
      FlattenOne(AllChunks(buf, n - 1), Chunk(buf, n - 1));
      assert buf[..CLUSTER_SIZE * (n - 1)] + Chunk(buf, n - 1) == buf[..CLUSTER_SIZE * n];
    }
  }

  // ---------- delete after write ----------

  lemma WrittenParent(s: State, t: Tree, r: Request, buf: seq<byte>)
    requires Sound(s, t) && LegalWrite(s, t, r, buf) && WriteCode(s, r) == 0
    ensures ParentOk(WriteResult(s, r, buf), r.parent) && r.parent as nat in WriteTree(s, t, r, buf)
    ensures SlotOf(WriteResult(s, r, buf), Key(r.parent, r.Id())) == StoreSlot(s, r)
    ensures Entry(WriteResult(s, r, buf), StoreSlot(s, r)) == StoreEntry(s, r, WriteChain(s, r))
    ensures WriteResult(s, r, buf).fat == Link(s.fat, WriteChain(s, r))
  {
    hide Sound, DecodeDir, Link, Stored, WriteTrace, FreeCount, Apply, StoreEntry, ParentOk, Find;
    WriteCanStore(s, t, r, buf);
    StoredParent(s, t, r, buf, WriteChain(s, r), Schedule(WriteChain(s, r), r.Chunks()));
  }

  /** The entry of a write looks like a directory that is not empty: its first
      surviving chunk, read as a table, has a live entry. */
  ghost predicate LooksOccupied(s: State, r: Request, buf: seq<byte>)
    requires r.parent < CLUSTER_MAP_SIZE && WriteCode(s, r) == 0 && CLUSTER_SIZE * r.Chunks() <= |buf|
  {
    (r.buffer_size == 0 || StaleSlot(s, r)) && !IsEmptyTable(DecodeDir(KeptChunks(buf, r.Chunks())[0]))
  }

  /** Deleting the name just written is refused exactly when its entry looks like a
      directory that is not empty. */
  lemma WrittenDeleteCode(s: State, t: Tree, r: Request, buf: seq<byte>)
    requires Sound(s, t) && LegalWrite(s, t, r, buf) && WriteCode(s, r) == 0
    ensures var s' := WriteResult(s, r, buf);
            Walkable(s', r.parent, r.Id()) && DeleteCode(s', r) == if LooksOccupied(s, r, buf) then 2 else 0
  {
    hide Sound, Abs, WriteResult, WriteTree, WriteCode, DeleteCode, ParentOk, DecodeDir, IsEmptyTable, Tainted,
         FreeCount, WriteChain, StoreSlot, Walkable, Chunk;
    var s', t' := WriteResult(s, r, buf), WriteTree(s, t, r, buf);
    WriteRefines(s, t, r, buf);
    WrittenParent(s, t, r, buf);
    CodesAreAnswers(s', t', r);
    ParentIsUsable(s', t', r.parent);
    WrittenOccupied(s, t, r, buf);
  }

  lemma WrittenOccupied(s: State, t: Tree, r: Request, buf: seq<byte>)
    requires Sound(s, t) && LegalWrite(s, t, r, buf) && WriteCode(s, r) == 0 && r.Chunks() <= CLUSTER_MAP_SIZE - 2
    requires Sound(WriteResult(s, r, buf), WriteTree(s, t, r, buf))
    requires Abs(WriteResult(s, r, buf), WriteTree(s, t, r, buf)) == Abs(s, t)[Key(r.parent, r.Id()) := WrittenNode(s, r, buf)]
    ensures Shown(WriteResult(s, r, buf), WriteTree(s, t, r, buf)).Occupied(WrittenNode(s, r, buf)) <==> LooksOccupied(s, r, buf)
  {
    hide Sound, Abs, WriteResult, WriteTree, ParentOk, DecodeDir, IsEmptyTable, Tainted, FreeCount, StoreSlot, Find,
         FreeSlot, WriteChain;
    NewDirectoryIsFresh(s, t, r, buf);
    assert r.parent as nat != WriteChain(s, r)[0] by { ParentNotNew(s, t, r); }
    assert r.buffer_size == 0 ==> KeptChunks(buf, r.Chunks())[0] == Chunk(buf, 0);
  }

  lemma ParentNotNew(s: State, t: Tree, r: Request)
    requires Sound(s, t) && r.parent < CLUSTER_MAP_SIZE && WriteCode(s, r) == 0 && r.parent as nat in t
    ensures r.parent as nat != WriteChain(s, r)[0]
  {
    hide Sound, DecodeDir, Find, Empties;
    InTreeIsReferenced(s, t, r.parent);
    ReferencedUsed(s, t, r.parent);
  }

  lemma WrittenDeleteFat(s: State, t: Tree, r: Request, buf: seq<byte>)
    requires Sound(s, t) && LegalWrite(s, t, r, buf) && WriteCode(s, r) == 0
    requires var s' := WriteResult(s, r, buf); Walkable(s', r.parent, r.Id()) && DeleteCode(s', r) == 0
    ensures DeleteFat(WriteResult(s, r, buf), r) == s.fat
  {
    hide Sound, DecodeDir, Link, WriteTrace, FreeCount, StoreEntry, ParentOk, Clear, IsEmptyTable, Chain, Terminated,
         WriteChain, Find, WriteResult;
    WrittenParent(s, t, r, buf);
    StoreEntryFields(s, r, WriteChain(s, r));
    NewFat(s.fat, WriteChain(s, r));
    ClearUndoesLink(s.fat, WriteChain(s, r));
  }

  /** Unless it is refused, deleting the name just written restores the whole
      allocation table, word for word, the tree and the map. */
  lemma DeleteUndoesWrite(s: State, t: Tree, r: Request, buf: seq<byte>)
    requires Sound(s, t) && LegalWrite(s, t, r, buf) && WriteCode(s, r) == 0
    ensures var s', t' := WriteResult(s, r, buf), WriteTree(s, t, r, buf);
            Walkable(s', r.parent, r.Id()) &&
            (DeleteCode(s', r) == if LooksOccupied(s, r, buf) then 2 else 0) &&
            (!LooksOccupied(s, r, buf) ==>
              DeleteResult(s', r).fat == s.fat && InRange(DeleteSlot(s', r)) && DeleteTree(s', t', r) == t &&
              Sound(DeleteResult(s', r), t) && Abs(DeleteResult(s', r), t) == Abs(s, t))
  {
    hide Sound, DecodeDir, Abs, WriteResult, WriteCode, DeleteCode, Walkable, ParentOk, Find, WrittenNode, Apply,
         DeleteTrace, DeleteFat, LooksOccupied, DeleteTree, WriteTree;
    WriteRefines(s, t, r, buf);
    WrittenDeleteCode(s, t, r, buf);
    if !LooksOccupied(s, r, buf) {
      var s', t' := WriteResult(s, r, buf), WriteTree(s, t, r, buf);
      WrittenParent(s, t, r, buf);
      DeleteRefines(s', t', r);
      WrittenDeleteFat(s, t, r, buf);
      WrittenTreeBack(s, t, r, buf);
      var key := Key(r.parent, r.Id());
      assert (Abs(s, t)[key := WrittenNode(s, r, buf)]) - {key} == Abs(s, t);
    }
  }

  lemma WrittenTreeBack(s: State, t: Tree, r: Request, buf: seq<byte>)
    requires Sound(s, t) && LegalWrite(s, t, r, buf) && WriteCode(s, r) == 0
    ensures var s', t' := WriteResult(s, r, buf), WriteTree(s, t, r, buf);
            InRange(DeleteSlot(s', r)) && DeleteTree(s', t', r) == t
  {
    hide Sound, DecodeDir, WriteResult, StoreEntry, ParentOk, Find, Empties, FreeSlot, IsEmptyTable, Chunk, Link,
         SlotOf;
    var chain := WriteChain(s, r);
    WrittenParent(s, t, r, buf);
    StoreEntryFields(s, r, chain);
    if chain[0] in t {
      ReferencedUsed(s, t, chain[0]);
    }
  }

  // ---------- A directory's slot, reused for a file ----------

  /** Adding and deleting a name frees the same slot again, attribute and all, and
      makes no other name appear. */
  lemma FreesSameSlot(t: DirTable, r: Request, head: nat, id: seq<byte>)
    requires FreeSlot(t) < TABLE_SIZE && Find(t, r.Id()) == TABLE_SIZE && Find(t, id) == TABLE_SIZE
    ensures var t1 := NewTable(t, r, head);
            Find(t1, r.Id()) == FreeSlot(t) &&
            var t2 := DeleteTable(t1, r.Id());
            FreeSlot(t2) == FreeSlot(t) && Find(t2, id) == TABLE_SIZE && t2[0] == t[0] &&
            t2[FreeSlot(t2)].attribute == t1[FreeSlot(t)].attribute
  {
    hide NewEntry, FindFrom, FreeSlotFrom;
    FindsNewEntry(t, r, head);
    var t2 := DeleteTable(NewTable(t, r, head), r.Id());
    var slot := FreeSlot(t);
    assert !t2[slot].IsLive();
    assert forall j :: 0 <= j < TABLE_SIZE && j != slot ==> t2[j] == t[j];
    FreeSlotIs(t2, slot);
    FindNone(t2, id);
  }

  /** Wherever a directory can be made, after making it and deleting it the next
      file written there, under any name, succeeds and is refused as a directory. */
  lemma ReusedSlotIsUnreadable(s: State, t: Tree, d: Request, table: seq<byte>, f: Request, buf: seq<byte>, size: word)
    requires Sound(s, t) && LegalWrite(s, t, d, table) && WriteCode(s, d) == 0 && MakesDirectory(d, table)
    requires f.parent == d.parent && Key(f.parent, f.Id()) !in Abs(s, t)
    requires f.buffer_size > 0 && f.Chunks() <= FreeCount(s.fat)
    requires CLUSTER_SIZE * f.Chunks() <= |buf| && f.Chunks() * CLUSTER_SIZE <= size
    ensures var s1 := WriteResult(s, d, table);
            Walkable(s1, d.parent, d.Id()) && DeleteCode(s1, d) == 0 &&
            var s2 := DeleteResult(s1, d);
            WriteCode(s2, f) == 0 && ReadCode(WriteResult(s2, f, buf), ReadRequest(f, size)) == 1
  {
    hide Sound, DecodeDir, Abs, FindFrom, FreeSlot, FreeCount, WriteResult, DeleteResult, NewTable, DeleteTable,
         Walkable, DeleteCode, StoreEntry, WriteTree, Chunk, IsEmptyTable;
    var s1, t1 := WriteResult(s, d, table), WriteTree(s, t, d, table);
    DeleteUndoesWrite(s, t, d, table);
    var s2 := DeleteResult(s1, d);
    SearchEnds(s, d.parent, d.Id());
    SearchIsLookup(s, t, f.parent, f.Id());
    SearchEnds(s, f.parent, f.Id());
    WriteRefines(s, t, d, table);
    WrittenParent(s, t, d, table);
    WrittenTable(s, t, d, table);
    DeletedTable(s1, t1, d, d.parent);
    FreesSameSlot(Table(s, d.parent), d, WriteChain(s, d)[0], f.Id());
    StoreEntryFields(s, d, WriteChain(s, d));
    WrittenIsReadable(s2, t, f, buf, size);
  }

  lemma WrittenTable(s: State, t: Tree, r: Request, buf: seq<byte>)
    requires Sound(s, t) && LegalWrite(s, t, r, buf) && WriteCode(s, r) == 0
    ensures Table(WriteResult(s, r, buf), r.parent) == NewTable(Table(s, r.parent), r, WriteChain(s, r)[0])
  {
    hide Sound, DecodeDir, EncodeDir, Link, Staged, Stored, StoreTrace, WithEntry, FreeCount, NewEntry, WriteChain,
         WriteResult, Find;
    var chain := WriteChain(s, r);
    var schedule := Schedule(chain, r.Chunks());
    WriteCanStore(s, t, r, buf);
    StoredIsStagedPlusEntry(s, t, r, buf, chain, schedule);
    StagedTable(s, t, buf, chain, schedule, r.parent);
    WithEntryTable(Staged(s, buf, chain, schedule), StoreSlot(s, r), StoreEntry(s, r, chain), r.parent);
  }

  // ---------- A file that passes for a directory ----------

  lemma AttributeByte(c: Cluster)
    ensures DecodeDir(c)[0].IsDirectory() <==> c[11] == ATTR_SUBDIRECTORY
  {
    assert c[0..ENTRY_SIZE][11] == c[11];
  }

  /** After a write, the test for a parent directory accepts the last cluster of
      the new chain exactly when byte 11 of the last chunk is the directory
      attribute, although it is a directory only when the request made one. */
  lemma NewClusterAsParent(s: State, t: Tree, r: Request, buf: seq<byte>)
    requires Sound(s, t) && LegalWrite(s, t, r, buf) && WriteCode(s, r) == 0
    ensures var chain := WriteChain(s, r);
            var p := chain[|chain| - 1];
            p < CLUSTER_MAP_SIZE && (p in WriteTree(s, t, r, buf) <==> MakesDirectory(r, buf)) &&
            (ParentOk(WriteResult(s, r, buf), p) <==> Chunk(buf, r.Chunks() - 1)[11] == ATTR_SUBDIRECTORY)
  {
    hide Sound, DecodeDir, EncodeDir, Staged, Stored, StoreTrace, WriteTrace, WriteResult, FreeCount, NewEntry,
         WriteChain, Find, Apply, Chunk, DataPuts, StoreEntry, Referenced, Abs, SameReferenced, Terminated, Chain;
    var chain := WriteChain(s, r);
    var schedule := Schedule(chain, r.Chunks());
    var k := |chain| - 1;
    var a, e, s2 := StoreSlot(s, r), StoreEntry(s, r, chain), Staged(s, buf, chain, schedule);
    WriteCanStore(s, t, r, buf);
    StoreEntryFields(s, r, chain);
    StoredIsStagedPlusEntry(s, t, r, buf, chain, schedule);
    StagedSound(s, t, buf, chain, schedule);
    StagedContents(s, buf, chain, schedule);
    ScheduleKeeps(s.disk, chain, buf, r.Chunks(), k);
    assert chain[k] in chain && KeptChunk(r.Chunks(), k) == r.Chunks() - 1;
    NewFat(s.fat, chain);
    WithEntryTable(s2, a, e, chain[k]);
    WithEntryFat(s2, a, e);
    InTreeIsReferenced(s2, t, r.parent);
    if chain[k] in t {
      InTreeIsReferenced(s2, t, chain[k]);
    }
    AttributeByte(Chunk(buf, r.Chunks() - 1));
  }

  lemma InTreeIsReferenced(s: State, t: Tree, c: nat)
    requires c in t
    ensures Referenced(s, t, c)
  {
  }
}

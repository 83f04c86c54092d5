/** What the operations leave on the disk and answer, in bytes and plain numbers. */
module Fields {
  import opened Bytes
  import opened Layout
  import opened Fat
  import opened Volume
  import opened Refinement

  // ---------- Directory tables in bytes ----------

  /** Where an entry's fields are stored. */
  lemma EntryFieldsStored(e: DirEntry)
    ensures var b := EncodeEntry(e);
            b[0..8] == e.name && b[8..11] == e.ext && b[11] == e.attribute && b[12] == e.user_attribute &&
            b[13..20] == e.stamps && b[22..26] == e.modified
    ensures var b := EncodeEntry(e);
            e.Head() == b[26] as int + 0x100 * b[27] as int + 0x1_0000 * b[20] as int + 0x100_0000 * b[21] as int &&
            e.filesize == b[28] as int + 0x100 * b[29] as int + 0x1_0000 * b[30] as int + 0x100_0000 * b[31] as int
  {
    EntryRoundTrip(e, EncodeEntry(e));
    EntryBytes(EncodeEntry(e));
  }

  /** Storing an entry changes the 32 bytes of its slot only. */
  lemma SlotStored(t: DirTable, i: nat, e: DirEntry)
    requires i < TABLE_SIZE
    ensures EncodeDir(t[i := e])[32 * i..32 * i + 32] == EncodeEntry(e)
    ensures forall k :: 0 <= k < CLUSTER_SIZE && !(32 * i <= k < 32 * i + 32) ==> EncodeDir(t[i := e])[k] == EncodeDir(t)[k]
  {
    hide EncodeEntry;
    EncodedSlice(t[i := e], i);
    forall k | 0 <= k < CLUSTER_SIZE && !(32 * i <= k < 32 * i + 32)
      ensures EncodeDir(t[i := e])[k] == EncodeDir(t)[k]
    {
      assert k / ENTRY_SIZE != i;
    }
  }

  // ---------- write ----------

  lemma WrittenParentCluster(s: State, r: Request, buf: seq<byte>)
    requires r.parent < CLUSTER_MAP_SIZE && WriteCode(s, r) == 0 && CLUSTER_SIZE * r.Chunks() <= |buf|
    ensures WriteResult(s, r, buf).disk[r.parent] == EncodeDir(NewTable(Table(s, r.parent), r, WriteChain(s, r)[0]))
  {
    hide DecodeDir, EncodeDir, EncodeFat, Link, DataPuts, Apply, NewEntry, FindFrom, FreeSlotFrom, Empties;
    var chain := WriteChain(s, r);
    var data := DataPuts(Schedule(chain, r.Chunks()), buf);
    var back := BackPuts(Link(s.fat, chain), r.parent, NewTable(Table(s, r.parent), r, chain[0]));
    ApplyAppend(s.disk, data, back);
    ApplyTwo(Apply(s.disk, data), back[0], back[1]);
  }

  /** The entry as stored: the caller's name, the chain's first cluster, a size that is
      the least multiple of 2048 above `buffer_size`; the attribute only of a new
      directory, and the time stamps not at all. */
  ghost predicate StoredEntry(was: seq<byte>, now: seq<byte>, r: Request, head: nat)
    requires |was| == |now| == ENTRY_SIZE
  {
    now[0..8] == r.name && now[8..11] == r.ext &&
    now[11] == (if r.buffer_size == 0 then 0x10 else was[11]) && now[12] == 0xAA &&
    now[13..20] == was[13..20] && now[22..26] == was[22..26] &&
    head == now[26] as int + 0x100 * now[27] as int + 0x1_0000 * now[20] as int + 0x100_0000 * now[21] as int &&
    var size := now[28] as int + 0x100 * now[29] as int + 0x1_0000 * now[30] as int + 0x100_0000 * now[31] as int;
    size % 2048 == 0 && r.buffer_size < size <= r.buffer_size + 2048
  }

  /** A successful write changes nothing of its parent's cluster but one free slot. */
  lemma WriteStoresEntry(s: State, r: Request, buf: seq<byte>)
    requires r.parent < CLUSTER_MAP_SIZE && WriteCode(s, r) == 0 && CLUSTER_SIZE * r.Chunks() <= |buf|
    ensures var c, c', i := s.disk[r.parent], WriteResult(s, r, buf).disk[r.parent], FreeSlot(Table(s, r.parent));
            2 <= i < TABLE_SIZE && c[32 * i + 12] != 0xAA &&
            (forall k :: 0 <= k < CLUSTER_SIZE && !(32 * i <= k < 32 * i + 32) ==> c'[k] == c[k]) &&
            StoredEntry(c[32 * i..32 * i + 32], c'[32 * i..32 * i + 32], r, WriteChain(s, r)[0])
  {
    hide DecodeDir, EncodeDir, EncodeEntry, WriteResult, FindFrom, FreeSlotFrom, Empties, ParentOk, NewEntry;
    var t, i, head := Table(s, r.parent), FreeSlot(Table(s, r.parent)), WriteChain(s, r)[0];
    WrittenParentCluster(s, r, buf);
    DirBytesRoundTrip(s.disk[r.parent]);
    SlotStored(t, i, NewEntry(t[i], r, head));
    EncodedSlice(t, i);
    SlotBytes(s.disk[r.parent], i);
    EntryFieldsStored(t[i]);
    EntryFieldsStored(NewEntry(t[i], r, head));
    NewEntryFields(s, r);
  }

  lemma NewEntryFields(s: State, r: Request)
    requires r.parent < CLUSTER_MAP_SIZE && WriteCode(s, r) == 0
    ensures var e := Table(s, r.parent)[FreeSlot(Table(s, r.parent))];
            var e' := NewEntry(e, r, WriteChain(s, r)[0]);
            e'.name == r.name && e'.ext == r.ext && e'.user_attribute == 0xAA &&
            e'.attribute == (if r.buffer_size == 0 then 0x10 else e.attribute) &&
            e'.stamps == e.stamps && e'.modified == e.modified && e'.Head() == WriteChain(s, r)[0] &&
            e'.filesize % 2048 == 0 && r.buffer_size < e'.filesize <= r.buffer_size + 2048
  {
    hide DecodeDir, FindFrom, FreeSlotFrom, ParentOk;
    StoreSizes(s, r);
    ChunksLaw(r);
  }

  /** A write with a usable parent, a new name and a free slot is refused exactly when
      the free clusters together hold no more than `buffer_size` bytes. */
  lemma RefusedForSpace(s: State, r: Request)
    requires r.parent < CLUSTER_MAP_SIZE && ParentOk(s, r.parent)
    requires Find(Table(s, r.parent), r.Id()) == TABLE_SIZE && FreeSlot(Table(s, r.parent)) < TABLE_SIZE
    ensures WriteCode(s, r) == if 2048 * FreeCount(s.fat) <= r.buffer_size then -1 else 0
  {
    hide DecodeDir, FindFrom, FreeSlotFrom, FreeCount;
    ChunksLaw(r);
  }

  /** The device receives the least number of clusters that is more than `buffer_size`
      bytes, then two more. */
  lemma WriteLength(s: State, r: Request, buf: seq<byte>)
    requires r.parent < CLUSTER_MAP_SIZE && WriteCode(s, r) == 0 && CLUSTER_SIZE * r.Chunks() <= |buf|
    ensures var data := |WriteTrace(s, r, buf)| - 2; 2048 * (data - 1) <= r.buffer_size < 2048 * data
  {
    ChunksLaw(r);
  }

  // ---------- delete ----------

  /** A successful delete changes one byte of its parent's cluster: the mark of the
      entry found becomes 0. */
  lemma DeleteClearsOneByte(s: State, r: Request)
    requires r.parent < CLUSTER_MAP_SIZE && Walkable(s, r.parent, r.Id()) && DeleteCode(s, r) == 0
    ensures var c, i := s.disk[r.parent], Find(Table(s, r.parent), r.Id());
            2 <= i < TABLE_SIZE && c[32 * i..32 * i + 11] == r.name + r.ext && c[32 * i + 12] == 0xAA &&
            DeleteResult(s, r).disk[r.parent] == c[32 * i + 12 := 0]
  {
    hide DecodeDir, EncodeDir, EncodeEntry, EncodeFat, FindFrom, Clear, Chain, Terminated, Apply, IsEmptyTable;
    var t, i := Table(s, r.parent), Find(Table(s, r.parent), r.Id());
    var c, c' := s.disk[r.parent], EncodeDir(DeleteTable(t, r.Id()));
    var puts := DeleteTrace(s, r);
    ApplyTwo(s.disk, puts[0], puts[1]);
    DirBytesRoundTrip(c);
    SlotBytes(c, i);
    SlotStored(t, i, t[i].(user_attribute := 0));
    EncodedSlice(t, i);
    UnmarkedEntry(t[i]);
    forall k | 0 <= k < CLUSTER_SIZE
      ensures c'[k] == if k == 32 * i + 12 then 0 else c[k]
    {
      if 32 * i <= k < 32 * i + 32 {
        assert c'[k] == c'[32 * i..32 * i + 32][k - 32 * i] && c[k] == c[32 * i..32 * i + 32][k - 32 * i];
      }
    }
  }

  lemma UnmarkedEntry(e: DirEntry)
    ensures EncodeEntry(e.(user_attribute := 0)) == EncodeEntry(e)[12 := 0]
  {
  }

  // ---------- read_directory ----------

  /** `read_directory` does not look at the extension of its request. */
  lemma ExtensionIgnored(s: State, r: Request, x: Ext)
    requires r.parent < CLUSTER_MAP_SIZE
    ensures ReadDirCode(s, r.(ext := x)) == ReadDirCode(s, r)
    ensures ReadDirCode(s, r) == 0 && Loadable(s, r.parent, r.DirectoryId()) ==>
      Loadable(s, r.parent, r.(ext := x).DirectoryId()) && ReadDirData(s, r.(ext := x)) == ReadDirData(s, r)
  {
    assert r.(ext := x).DirectoryId() == r.DirectoryId();
  }

  /** With an extension of zeros it finds the entry that `read` and `delete` find, and
      calls a directory what `read` does. */
  lemma SearchesAgree(s: State, r: Request)
    requires r.parent < CLUSTER_MAP_SIZE && r.ext == [0, 0, 0] && r.buffer_size == CLUSTER_SIZE
    ensures Find(Table(s, r.parent), r.DirectoryId()) == Find(Table(s, r.parent), r.Id())
    ensures ReadDirCode(s, r) == 0 <==> ReadCode(s, r) == 1
    ensures ReadDirCode(s, r) == 1 <==> ReadCode(s, r) == 0 || ReadCode(s, r) == 2
    ensures ReadDirCode(s, r) == 2 <==> ReadCode(s, r) == 3
    ensures ReadDirCode(s, r) == -1 <==> ReadCode(s, r) == -1
  {
    hide DecodeDir, FindFrom;
    assert r.DirectoryId() == r.Id();
  }

  // ---------- Return codes ----------

  /** The codes that `fat32.h` documents, in the order in which the code tests for
      them. */
  lemma DocumentedCodes(s: State, r: Request)
    requires r.parent < CLUSTER_MAP_SIZE
    ensures !ParentOk(s, r.parent) ==>
      ReadCode(s, r) == -1 && ReadDirCode(s, r) == -1 && WriteCode(s, r) == 2 &&
      (Loadable(s, r.parent, r.Id()) ==> DeleteCode(s, r) == -1)
    ensures ParentOk(s, r.parent) && Find(Table(s, r.parent), r.Id()) == TABLE_SIZE ==>
      ReadCode(s, r) == 3 && (WriteCode(s, r) == 0 || WriteCode(s, r) == -1) &&
      (Loadable(s, r.parent, r.Id()) ==> DeleteCode(s, r) == 1)
    ensures ParentOk(s, r.parent) && Find(Table(s, r.parent), r.Id()) < TABLE_SIZE ==>
      ReadCode(s, r) in {0, 1, 2} && WriteCode(s, r) == 1 &&
      (Loadable(s, r.parent, r.Id()) ==> DeleteCode(s, r) in {0, 2})
    ensures r.buffer_size != 2048 ==> ReadDirCode(s, r) == -1
    ensures ParentOk(s, r.parent) && r.buffer_size == 2048 && Find(Table(s, r.parent), r.DirectoryId()) == TABLE_SIZE ==>
      ReadDirCode(s, r) == 2
  {
    hide DecodeDir, FindFrom, IsEmptyTable;
  }

  // ---------- Formatting ----------

  /** The two entries that describe a directory and its parent. */
  lemma InitialTableEntries(name: Name, parent: word)
    ensures var t := InitialTable(name, parent);
            t[0].name == name && t[0].IsDirectory() && t[0].IsLive() && t[0].Head() == 0 &&
            t[1].name == ['.' as int, '.' as int, 0, 0, 0, 0, 0, 0] && t[1].IsDirectory() && t[1].IsLive() && t[1].Head() == parent &&
            forall i :: 2 <= i < TABLE_SIZE ==> t[i] == ZERO_ENTRY
  {
  }

  lemma RootTableEntries()
    ensures var t := RootTable();
            t[0].name == ['r' as int, 'o' as int, 'o' as int, 't' as int, 0, 0, 0, 0] && t[0].IsDirectory() && t[0].IsLive() && t[0].Head() == 2 &&
            t[1].name == ['.' as int, '.' as int, 0, 0, 0, 0, 0, 0] && t[1].IsDirectory() && t[1].IsLive() && t[1].Head() == 2 &&
            forall i :: 2 <= i < TABLE_SIZE ==> t[i] == ZERO_ENTRY
  {
    hide InitialTable;
    InitialTableEntries(ROOT_NAME, ROOT_CLUSTER_NUMBER);
  }

  /** What makes a disk count as formatted: the text, zeros, and a mark at the end of
      its first block. */
  lemma SignatureMeans(disk: Disk)
    ensures var c := disk[BOOT_SECTOR];
            HasSignature(disk) <==>
              c[0..80] == Text("Course          Designed by     Lab Sister ITB  Made with <3    -----------2024\n") &&
              (forall i :: 80 <= i < 510 ==> c[i] == 0) && c[510] == 'O' as int && c[511] == 'k' as int
  {
    var c, f := disk[BOOT_SECTOR], FsSignature();
    assert f[0..80] == SIGNATURE_TEXT;
    assert c[..BLOCK_SIZE][0..80] == c[0..80];
    if c[0..80] == SIGNATURE_TEXT && (forall i :: 80 <= i < 510 ==> c[i] == 0) && c[510] == 'O' as int && c[511] == 'k' as int {
      forall i | 0 <= i < BLOCK_SIZE
        ensures c[..BLOCK_SIZE][i] == f[i]
      {
        if i < 80 {
          assert c[i] == c[0..80][i];
        }
      }
    }
    if HasSignature(disk) {
      forall i | 0 <= i < BLOCK_SIZE
        ensures c[i] == f[i]
      {
        assert c[i] == c[..BLOCK_SIZE][i];
      }
    }
  }

  /** The words of a fresh allocation table, as stored: the reserved ones and the root's
      end-of-file mark, low byte first, and zeros. */
  lemma InitialFatStored()
    ensures var c := EncodeFat(InitialFat());
            c[0..12] == [0xF0, 0xFF, 0xFF, 0x0F, 0xFF, 0xFF, 0xFF, 0x0F, 0xFF, 0xFF, 0xFF, 0x0F] &&
            forall k :: 12 <= k < CLUSTER_SIZE ==> c[k] == 0
  {
    hide EncodeFat, InitialFat;
    InitialWordsAre();
    var c := EncodeFat(InitialFat());
    StoredWord(InitialFat(), 0);
    StoredWord(InitialFat(), 1);
    StoredWord(InitialFat(), 2);
    forall k | 12 <= k < CLUSTER_SIZE
      ensures c[k] == 0
    {
      StoredWord(InitialFat(), k / 4);
    }
  }

  lemma InitialWordsAre()
    ensures InitialFat()[0] == 0x0FFF_FFF0 && InitialFat()[1] == 0x0FFF_FFFF && InitialFat()[2] == 0x0FFF_FFFF
    ensures forall i :: 3 <= i < CLUSTER_MAP_SIZE ==> InitialFat()[i] == 0
  {
  }
}

/** Concrete runs on a freshly formatted disk in which the driver does not do
    what its interface promises. */
module Examples {
  import opened Bytes
  import opened Layout
  import opened Fat
  import opened Volume
  import opened Tree
  import opened Refinement
  import opened RoundTrip
  import opened Boundaries
  import opened Runs

  const NAME_A: Name := [0x61, 0, 0, 0, 0, 0, 0, 0]
  const NO_EXT: Ext := [0, 0, 0]
  const A_DIRECTORY := Request(NAME_A, NO_EXT, ROOT_CLUSTER_NUMBER, 0)
  const A_FILE := Request(NAME_A, NO_EXT, ROOT_CLUSTER_NUMBER, 1)
  const A_READ := Request(NAME_A, NO_EXT, ROOT_CLUSTER_NUMBER, CLUSTER_SIZE)

  /** A table as `init_directory_table` builds it. */
  function FreshTable(): Cluster {
    EncodeDir(InitialTable(NAME_A, ROOT_CLUSTER_NUMBER))
  }

  lemma FreshTableIsEmpty()
    ensures Chunk(FreshTable(), 0) == FreshTable()
    ensures IsEmptyTable(DecodeDir(FreshTable()))
  {
    DirRoundTrip(InitialTable(NAME_A, ROOT_CLUSTER_NUMBER));
  }

  /** On a fresh volume the first free slot of the root is slot 2. */
  lemma RootTableSearch(id: seq<byte>)
    ensures Find(RootTable(), id) == TABLE_SIZE && FreeSlot(RootTable()) == 2
  {
    var t := RootTable();
    assert !t[2].IsLive();
    forall i | 2 <= i < TABLE_SIZE
      ensures !t[i].IsLive()
    {
    }
    assert FreeSlotFrom(t, 2) == 2;
  }

  lemma FreshWrite(disk: Disk, r: Request)
    requires !HasSignature(disk) && r.parent == ROOT_CLUSTER_NUMBER && r.Chunks() <= 2
    ensures var s := Mount(disk);
            Consistent(s, ROOT_TREE) && WriteCode(s, r) == 0 && StoreSlot(s, r) == Slot(ROOT_CLUSTER_NUMBER, 2) &&
            !Entry(s, StoreSlot(s, r)).IsDirectory()
  {
    hide Mount, HasSignature, Consistent, DecodeDir, FreeCount, Find, FreeSlot, InitialFat;
    FormatIsConsistent(disk);
    RootTableEmpty();
    RootTableSearch(r.Id());
    InitialFree();
    InitialWords();
    RootSlotTwo();
  }

  lemma InitialWords()
    ensures InitialFat()[ROOT_CLUSTER_NUMBER] == END_OF_FILE
  {
  }

  lemma RootSlotTwo()
    ensures !RootTable()[2].IsDirectory()
  {
  }

  /** Make a directory, delete it, write a file under the same name: the slot still
      has the directory attribute, and the file cannot be read. */
  lemma StaleAttribute(disk: Disk, buf: seq<byte>)
    requires !HasSignature(disk) && |buf| == CLUSTER_SIZE
    ensures var s0 := Mount(disk);
            WriteCode(s0, A_DIRECTORY) == 0 &&
            var s1 := WriteResult(s0, A_DIRECTORY, FreshTable());
            Walkable(s1, ROOT_CLUSTER_NUMBER, A_DIRECTORY.Id()) && DeleteCode(s1, A_DIRECTORY) == 0 &&
            var s2 := DeleteResult(s1, A_DIRECTORY);
            WriteCode(s2, A_FILE) == 0 && ReadCode(WriteResult(s2, A_FILE, buf), A_READ) == 1
  {
    hide Mount, HasSignature, Sound, NoLeak, DecodeDir, FreeCount, Find, FreeSlot, WriteResult, DeleteResult,
         WriteCode, ReadCode, FreshTable;
    FreshWrite(disk, A_DIRECTORY);
    FreshTableIsEmpty();
    InitialFree();
    FormatIsConsistent(disk);
    ReusedSlotIsUnreadable(Mount(disk), ROOT_TREE, A_DIRECTORY, FreshTable(), A_FILE, buf, CLUSTER_SIZE);
  }

  /** A file whose bytes read as a table: marked as a directory, with one live entry
      that names the root's cluster. */
  function RootNamingTable(): DirTable {
    InitialTable(NAME_A, ROOT_CLUSTER_NUMBER)
      [2 := ZERO_ENTRY.(name := NAME_A, user_attribute := UATTR_NOT_EMPTY, cluster_low := ROOT_CLUSTER_NUMBER)]
  }

  function RootNamingFile(): Cluster {
    EncodeDir(RootNamingTable())
  }

  lemma RootNamingFileNames()
    ensures Chunk(RootNamingFile(), 0) == RootNamingFile()
    ensures NamesRoot(RootNamingFile(), A_FILE.Id())
  {
    hide DecodeDir, EncodeDir;
    DirRoundTrip(RootNamingTable());
    assert Matches(RootNamingTable()[2], A_FILE.Id());
    FindIs(RootNamingTable(), A_FILE.Id(), 2);
  }

  /** The request for that entry, with the file's cluster as parent. */
  const THROUGH_THE_FILE := Request(NAME_A, NO_EXT, 3, 0)

  lemma FirstClusterClaimed(disk: Disk)
    requires !HasSignature(disk)
    ensures A_FILE.Chunks() <= FreeCount(Mount(disk).fat) && WriteChain(Mount(disk), A_FILE)[0] == 3
  {
    hide Mount, HasSignature, Consistent, DecodeDir, Empties;
    FormatIsConsistent(disk);
    InitialFree();
    FirstEmpty();
  }

  lemma FirstEmpty()
    ensures |Empties(InitialFat(), 2)| > 0 && Empties(InitialFat(), 2)[0] == 3
  {
    hide Empties;
    var e := Empties(InitialFat(), 2);
    assert InitialFat()[3] == EMPTY_ENTRY && 3 in e;
    assert InitialFat()[e[0]] == EMPTY_ENTRY;
  }

  /** Write that file and delete its entry through the file's own cluster: the root
      directory is lost. Requests have to name directories as parents. */
  lemma RootLost(disk: Disk)
    requires !HasSignature(disk)
    ensures var s0 := Mount(disk);
            WriteCode(s0, A_FILE) == 0 &&
            var s1 := WriteResult(s0, A_FILE, RootNamingFile());
            Walkable(s1, 3, NAME_A + NO_EXT) && DeleteCode(s1, THROUGH_THE_FILE) == 0 &&
            var s2 := DeleteResult(s1, THROUGH_THE_FILE);
            s2.fat[ROOT_CLUSTER_NUMBER] == EMPTY_ENTRY && !ParentOk(s2, ROOT_CLUSTER_NUMBER)
  {
    hide Mount, HasSignature, Sound, NoLeak, DecodeDir, FreeCount, Find, FreeSlot, WriteResult, DeleteResult,
         WriteCode, WriteChain, RootNamingFile, NamesRoot, Walkable, DeleteCode;
    FreshWrite(disk, A_FILE);
    RootNamingFileNames();
    FormatIsConsistent(disk);
    FirstClusterClaimed(disk);
    LookAlikeDeleteTakesRoot(Mount(disk), ROOT_TREE, A_FILE, RootNamingFile(), THROUGH_THE_FILE);
  }
}
